/**
 * The registration form of the mobile client: the per-field checks run before the
 * request is sent, and the edit handler that clears a field's error as the user types.
 */
module RegisterScreen {
  import opened Wrappers
  import opened Text

  datatype FormField = Name | Nim | Email | Phone | Faculty | Program | Password

  datatype FormData = FormData(
    name: string, nim: string, email: string,
    phone: string, faculty: string, program: string,
    password: string)

  /** The value the form holds for `field`. */
  function Get(form: FormData, field: FormField): string {
    match field
    case Name => form.name
    case Nim => form.nim
    case Email => form.email
    case Phone => form.phone
    case Faculty => form.faculty
    case Program => form.program
    case Password => form.password
  }

  /** `{ ...form, [field]: value }`. */
  function With(form: FormData, field: FormField, value: string): (r: FormData)
    ensures Get(r, field) == value
    ensures forall f :: f != field ==> Get(r, f) == Get(form, f)
  {
    match field
    case Name => form.(name := value)
    case Nim => form.(nim := value)
    case Email => form.(email := value)
    case Phone => form.(phone := value)
    case Faculty => form.(faculty := value)
    case Program => form.(program := value)
    case Password => form.(password := value)
  }

  /**
   * `s` contains a match of `\S+@\S+\.\S+` whose '@' is at `at` and whose '.' is at `dot`:
   * a non-space before the '@', only non-spaces up to the '.', and a non-space after it.
   */
  predicate AtDot(s: string, at: nat, dot: nat) {
    && 1 <= at && at + 2 <= dot && dot + 1 < |s|
    && s[at] == '@' && s[dot] == '.'
    && !IsSpace(s[at - 1]) && !IsSpace(s[dot + 1])
    && forall k :: at < k < dot ==> !IsSpace(s[k])
  }

  /** A match whose '@' is at `at` and whose '.' is at `dot` or later. */
  predicate MatchDotFrom(s: string, at: nat, dot: nat)
    decreases |s| - dot
  {
    dot < |s| && (AtDot(s, at, dot) || MatchDotFrom(s, at, dot + 1))
  }

  /** A match whose '@' is at `at` or later. */
  predicate MatchFrom(s: string, at: nat)
    decreases |s| - at
  {
    at < |s| && (MatchDotFrom(s, at, at + 2) || MatchFrom(s, at + 1))
  }

  /** The regular expression `\S+@\S+\.\S+` finds a match somewhere in `s` (a left-to-right search). */
  predicate EmailShaped(s: string) {
    MatchFrom(s, 0)
  }

  lemma {:induction false} MatchDotFromMeans(s: string, at: nat, dot: nat)
    ensures MatchDotFrom(s, at, dot) <==> exists d: nat | dot <= d < |s| :: AtDot(s, at, d)
    decreases |s| - dot
  {
    if dot < |s| {
      MatchDotFromMeans(s, at, dot + 1);
    }
  }

  lemma {:induction false} MatchFromMeans(s: string, at: nat)
    ensures MatchFrom(s, at) <==> exists a: nat, d: nat | at <= a < d < |s| :: AtDot(s, a, d)
    decreases |s| - at
  {
    if at < |s| {
      MatchFromMeans(s, at + 1);
      MatchDotFromMeans(s, at, at + 2);
      if exists a: nat, d: nat | at <= a < d < |s| :: AtDot(s, a, d) {
        var a: nat, d: nat :| at <= a < d < |s| && AtDot(s, a, d);
        if a == at {
          assert exists d': nat | at + 2 <= d' < |s| :: AtDot(s, at, d');
        } else {
          assert exists a': nat, d': nat | at + 1 <= a' < d' < |s| :: AtDot(s, a', d');
        }
      }
    }
  }

  /** The search agrees with the pattern: some '@' and '.' positions frame a match. */
  lemma EmailShapedMeans(s: string)
    ensures EmailShaped(s) <==> exists at: nat, dot: nat | at < dot < |s| :: AtDot(s, at, dot)
  {
    MatchFromMeans(s, 0);
  }

  /** Addresses with text around an '@' and a later '.' pass, even with spaces elsewhere. */
  lemma EmailShapedAccepts()
    ensures EmailShaped("a@b.c")
    ensures EmailShaped("  x y@b.c  ")
  {
    EmailShapedMeans("a@b.c");
    EmailShapedMeans("  x y@b.c  ");
    assert AtDot("a@b.c", 1, 3);
    assert AtDot("  x y@b.c  ", 5, 7);
  }

  /** No '.' after the '@', or nothing between them, fails. */
  lemma EmailShapedRejects()
    ensures !EmailShaped("a@b")
    ensures !EmailShaped("a@.c")
  {
    EmailShapedMeans("a@b");
    EmailShapedMeans("a@.c");
  }


  /** The whole form passes: the reference condition the step-by-step check is proved against. */
  predicate Acceptable(form: FormData, confirm: string) {
    && Trim(form.name) != ""
    && Trim(form.nim) != "" && JsLength(form.nim) >= 5
    && Trim(form.email) != "" && EmailShaped(form.email)
    && form.password != "" && JsLength(form.password) >= 6
    && form.password == confirm
  }

  /** The message for the name field, if it fails. */
  function NameError(name: string): (r: Option<string>)
    ensures r.Some? <==> Trim(name) == ""
  {
    if Trim(name) == "" then Some("Nama wajib diisi") else None
  }

  /**
   * The message for the NIM field: blank after trimming, else shorter than 5 UTF-16 code
   * units.
   */
  function NimError(nim: string): (r: Option<string>)
    ensures r.Some? <==> Trim(nim) == "" || JsLength(nim) < 5
  {
    if Trim(nim) == "" then Some("NIM wajib diisi")
    else if JsLength(nim) < 5 then Some("NIM minimal 5 karakter")
    else None
  }

  /** The message for the email field: blank after trimming, else not shaped like an address. */
  function EmailError(email: string): (r: Option<string>)
    ensures r.Some? <==> Trim(email) == "" || !EmailShaped(email)
  {
    if Trim(email) == "" then Some("Email wajib diisi")
    else if !EmailShaped(email) then Some("Email tidak valid")
    else None
  }

  /** The message the password field is left with: a mismatch overwrites the earlier checks. */
  function PasswordError(password: string, confirm: string): (r: Option<string>)
    ensures r.Some? <==> password == "" || JsLength(password) < 6 || password != confirm
    ensures password != confirm ==> r == Some("Password tidak cocok")
  {
    if password != confirm then Some("Password tidak cocok")
    else if password == "" then Some("Password wajib diisi")
    else if JsLength(password) < 6 then Some("Password minimal 6 karakter")
    else None
  }

  /** The form is acceptable exactly when no field has a message. */
  lemma NoMessageAcceptable(form: FormData, confirm: string)
    ensures Acceptable(form, confirm) <==>
      && NameError(form.name).None? && NimError(form.nim).None?
      && EmailError(form.email).None? && PasswordError(form.password, confirm).None?
  {
  }

  /** `Partial<RegisterFormData>`: the message recorded for each field, if any. */
  datatype FormErrors = FormErrors(
    name: Option<string>, nim: Option<string>, email: Option<string>,
    phone: Option<string>, faculty: Option<string>, program: Option<string>,
    password: Option<string>)

  const NoErrors := FormErrors(None, None, None, None, None, None, None)

  /** `errors[field]`. */
  function ErrorOf(errors: FormErrors, field: FormField): Option<string> {
    match field
    case Name => errors.name
    case Nim => errors.nim
    case Email => errors.email
    case Phone => errors.phone
    case Faculty => errors.faculty
    case Program => errors.program
    case Password => errors.password
  }

  /** `Object.keys(errors).length === 0`. */
  predicate NoneRecorded(errors: FormErrors) {
    && errors.name.None? && errors.nim.None? && errors.email.None?
    && errors.phone.None? && errors.faculty.None? && errors.program.None?
    && errors.password.None?
  }

  /**
   * `validateForm`: records one message per failing field into a fresh object; a
   * password/confirmation mismatch overwrites any earlier password message. The form is
   * valid when nothing was recorded.
   */
  method ValidateForm(form: FormData, confirm: string) returns (errors: FormErrors, valid: bool)
    ensures errors.name == NameError(form.name) && errors.nim == NimError(form.nim)
    ensures errors.email == EmailError(form.email)
    ensures errors.password == PasswordError(form.password, confirm)
    ensures errors.phone.None? && errors.faculty.None? && errors.program.None?
    ensures valid <==> NoneRecorded(errors)
    ensures valid <==> Acceptable(form, confirm)
  {
    errors := NoErrors;
    if Trim(form.name) == "" {
      errors := errors.(name := Some("Nama wajib diisi"));
    }
    assert errors == NoErrors.(name := NameError(form.name));
    if Trim(form.nim) == "" {
      errors := errors.(nim := Some("NIM wajib diisi"));
    } else if JsLength(form.nim) < 5 {
      errors := errors.(nim := Some("NIM minimal 5 karakter"));
    }
    assert errors == NoErrors.(name := NameError(form.name), nim := NimError(form.nim));
    if Trim(form.email) == "" {
      errors := errors.(email := Some("Email wajib diisi"));
    } else if !EmailShaped(form.email) {
      errors := errors.(email := Some("Email tidak valid"));
    }
    assert errors == NoErrors.(name := NameError(form.name), nim := NimError(form.nim), email := EmailError(form.email));
    if form.password == "" {
      errors := errors.(password := Some("Password wajib diisi"));
    } else if JsLength(form.password) < 6 {
      errors := errors.(password := Some("Password minimal 6 karakter"));
    }
    if form.password != confirm {
      errors := errors.(password := Some("Password tidak cocok"));
    }
    valid := NoneRecorded(errors);
    NoMessageAcceptable(form, confirm);
  }

  /** The NIM's emptiness is judged after trimming but its length before: padding counts. */
  lemma NimPaddingCounts()
    ensures NimError("ab   ").None?
  {
    assert "ab   "[0] == 'a';
    assert TrimStart("ab   ") == "ab   ";
    assert !IsSpace("ab   "[1]);
  }

  /** Two emoji and a letter are five code units: the NIM length check lets them through. */
  lemma NimCountsCodeUnits()
    ensures JsLength("\U{1F600}\U{1F600}a") == 5
    ensures NimError("\U{1F600}\U{1F600}a").None?
  {
    var nim := "\U{1F600}\U{1F600}a";
    assert nim[1..][1..] == "a";
    assert TrimStart(nim) == nim;
  }

  /** The password is checked untrimmed: six spaces typed twice pass. */
  lemma SpacePasswordAccepted()
    ensures PasswordError("      ", "      ").None?
  {
  }

  /** `{ ...errors, [field]: undefined }`. */
  function Cleared(errors: FormErrors, field: FormField): (r: FormErrors)
    ensures ErrorOf(r, field).None?
    ensures forall f :: f != field ==> ErrorOf(r, f) == ErrorOf(errors, f)
  {
    match field
    case Name => errors.(name := None)
    case Nim => errors.(nim := None)
    case Email => errors.(email := None)
    case Phone => errors.(phone := None)
    case Faculty => errors.(faculty := None)
    case Program => errors.(program := None)
    case Password => errors.(password := None)
  }

  /**
   * `updateField`: the typed value replaces the field, and the field's message is cleared
   * when one is showing; every other field and message is kept.
   */
  function UpdateField(form: FormData, errors: FormErrors, field: FormField, value: string)
    : (r: (FormData, FormErrors))
    ensures Get(r.0, field) == value
    ensures forall f :: f != field ==> Get(r.0, f) == Get(form, f)
    ensures !Truthy(ErrorOf(r.1, field))
    ensures forall f :: f != field ==> ErrorOf(r.1, f) == ErrorOf(errors, f)
  {
    (With(form, field, value), if Truthy(ErrorOf(errors, field)) then Cleared(errors, field) else errors)
  }

  /** Typing the same value twice leaves the form and its messages as after the first time. */
  lemma UpdateFieldIdempotent(form: FormData, errors: FormErrors, field: FormField, value: string)
    ensures var (f1, e1) := UpdateField(form, errors, field, value);
      UpdateField(f1, e1, field, value) == (f1, e1)
  {
    var (f1, e1) := UpdateField(form, errors, field, value);
    var f2 := With(f1, field, value);
    assert f2 == f1 by {
      assert Get(f2, Name) == Get(f1, Name) && Get(f2, Nim) == Get(f1, Nim);
      assert Get(f2, Email) == Get(f1, Email) && Get(f2, Phone) == Get(f1, Phone);
      assert Get(f2, Faculty) == Get(f1, Faculty) && Get(f2, Program) == Get(f1, Program);
      assert Get(f2, Password) == Get(f1, Password);
    }
  }
}
