/**
 * The two guards in front of protected routes: `authenticate` reads the bearer token
 * and stores its claims on the request; `requireAdmin` lets only administrators pass.
 * Token verification is the token library's and is passed in as a function that fails
 * (None) on a bad or expired token.
 */
module AuthMiddleware {
  import opened Wrappers
  import opened Text
  import opened AuthController

  /** What a middleware does: hand over to the next handler, or answer at once. */
  datatype Gate = Next | Respond(status: int, message: string)

  const BearerScheme := "Bearer "

  /** `authorization?.replace('Bearer ', '')`: the first occurrence is cut out, wherever it is. */
  function ExtractToken(authorization: Option<string>): (token: Option<string>)
    ensures authorization.None? <==> token.None?
  {
    match authorization
    case None => None
    case Some(h) => Some(ReplaceFirst(h, BearerScheme, ""))
  }

  /** A header in the usual form yields exactly the credentials after the scheme. */
  lemma ExtractBearer(credentials: string)
    ensures ExtractToken(Some(BearerScheme + credentials)) == Some(credentials)
  {
    var h := BearerScheme + credentials;
    assert OccursAt(h, BearerScheme, 0);
    assert h[..0] + "" + h[|BearerScheme|..] == credentials;
  }

  /** Wherever the scheme first occurs, that one occurrence is cut out and the rest kept. */
  lemma ExtractCutsFirst(h: string, i: nat)
    requires OccursAt(h, BearerScheme, i)
    requires forall j :: 0 <= j < i ==> !OccursAt(h, BearerScheme, j)
    ensures ExtractToken(Some(h)) == Some(h[..i] + h[i + |BearerScheme|..])
  {
    var r := IndexOf(h, BearerScheme);
    assert r.Some? && r.value == i;
    assert h[..i] + "" == h[..i];
  }

  /** A header without the scheme is taken whole as the token. */
  lemma ExtractWithoutScheme(h: string)
    requires !Contains(h, BearerScheme)
    ensures ExtractToken(Some(h)) == Some(h)
  {
  }

  /** The scheme need not lead: it is removed from the middle of the header too. */
  lemma ExtractFromMiddle()
    ensures ExtractToken(Some("xBearer abc")) == Some("xabc")
  {
    var h := "xBearer abc";
    assert h[0..7][0] == 'x' != BearerScheme[0];
    assert h[1..8] == BearerScheme;
    assert IndexOf(h, BearerScheme) == Some(1);
    assert h[..1] + "" + h[8..] == "xabc";
  }

  /** The part of an Express request the guards read and write. */
  class AuthRequest {
    var authorization: Option<string>
    var user: Option<Payload>

    constructor (authorization: Option<string>)
      ensures this.authorization == authorization && user.None?
    {
      this.authorization := authorization;
      user := None;
    }

    /** `authenticate`. */
    method Authenticate(verifyToken: string -> Option<Payload>) returns (g: Gate)
      modifies this
      ensures authorization == old(authorization)
      ensures var token := ExtractToken(authorization);
        token.None? || token.value == "" ==>
        g == Respond(401, "Token tidak ditemukan") && user == old(user)
      ensures var token := ExtractToken(authorization);
        token.Some? && token.value != "" && verifyToken(token.value).None? ==>
        g == Respond(401, "Token tidak valid atau expired") && user == old(user)
      ensures var token := ExtractToken(authorization);
        token.Some? && token.value != "" && verifyToken(token.value).Some? ==>
        g == Next && user == verifyToken(token.value)
    {
      var token := ExtractToken(authorization);
      if token.None? || token.value == "" {
        return Respond(401, "Token tidak ditemukan");
      }
      var decoded := verifyToken(token.value);
      if decoded.None? {
        return Respond(401, "Token tidak valid atau expired");
      }
      user := decoded;
      g := Next;
    }
  }

  const AdminRole := "ADMIN"

  /** `requireAdmin`: passes exactly an authenticated administrator. */
  function RequireAdmin(user: Option<Payload>): (g: Gate)
    ensures g == Next <==> user.Some? && user.value.role == AdminRole
    ensures user.None? ==> g == Respond(401, "Unauthorized")
    ensures user.Some? && user.value.role != AdminRole ==>
      g == Respond(403, "Akses ditolak. Hanya admin yang dapat mengakses resource ini.")
  {
    if user.None? then Respond(401, "Unauthorized")
    else if user.value.role != AdminRole then
      Respond(403, "Akses ditolak. Hanya admin yang dapat mengakses resource ini.")
    else Next
  }
}
