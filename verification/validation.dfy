/**
 * What the request-validation chains are built from. A chain runs every one of its
 * checks (none stops early), and each failing check adds its message; a request passes
 * when no message was added. Every field of a JSON body is seen as text here, the way
 * the validators convert it before checking.
 */
module Validation {
  import opened Wrappers
  import opened Text

  /** The value a check sees: a missing field reads as the empty string. */
  function Field(v: Option<string>): string {
    v.GetOr("")
  }

  /** One check of a chain: no message when it holds, its message when it fails. */
  function Check(ok: bool, message: string): (errs: seq<string>)
    ensures errs == [] <==> ok
    ensures !ok ==> message in errs
  {
    if ok then [] else [message]
  }

  /**
   * The integer that `isInt` recognises in `s`: an optional sign followed by one or more
   * decimal digits, and nothing else.
   */
  function IntOf(s: string): (r: Option<int>)
    ensures r.Some? ==> s != []
  {
    if s != [] && (s[0] == '-' || s[0] == '+') then
      var digits := s[1..];
      if digits != [] && AllDigits(digits) then
        var magnitude: int := DigitsValue(digits);
        Some(if s[0] == '-' then -magnitude else magnitude)
      else None
    else if s != [] && AllDigits(s) then Some(DigitsValue(s))
    else None
  }

  /** Every rendered integer is recognised as itself. */
  lemma IntOfIntToString(n: int)
    ensures IntOf(IntToString(n)) == Some(n)
  {
    var m: nat := if n < 0 then -n else n;
    NatToStringValue(m);
    if n < 0 {
      var s := IntToString(n);
      assert s == "-" + NatToString(m);
      assert s[1..] == NatToString(m);
    }
  }

  /** `isInt({ min })`. */
  predicate IsIntAtLeast(s: string, min: int) {
    IntOf(s).Some? && IntOf(s).value >= min
  }

  /** `trim().notEmpty()`. */
  predicate Blank(v: Option<string>) {
    Trim(Field(v)) == ""
  }
}
