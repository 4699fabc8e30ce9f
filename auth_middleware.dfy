/**
 * `middleware/auth.ts`: the bearer-token gate in front of the protected
 * routes, the admin check, and the payload a token carries. JWT signing
 * and verification are oracles: `sign` maps a payload to a token, and
 * `verify` maps a token to its payload or to `None` when `jwt.verify`
 * throws (bad signature, expired, malformed).
 */
module AuthMiddleware {
  import opened Common
  import opened Text
  import opened Store

  /** `req.user`: who the request acts for. */
  datatype Principal = Principal(id: nat, username: string, role: string)

  /** The claims signed into a token. */
  datatype Claims = Claims(id: int, username: string, role: string)

  /** What a middleware does with the request: pass it on, or answer it. */
  datatype Gate = Next(user: Principal) | Deny(code: int, error: string)

  /** The `SELECT id, username, role` projection of a user row: no password. */
  function PrincipalOf(u: User): Principal {
    Principal(u.id, u.username, u.role)
  }

  /** `generateToken`'s payload: exactly the id, the username and the role. */
  function TokenPayload(user: Principal): (c: Claims)
    ensures c.id == user.id && c.username == user.username && c.role == user.role
  {
    Claims(user.id, user.username, user.role)
  }

  function GenerateToken(user: Principal, sign: Claims -> string): string {
    sign(TokenPayload(user))
  }

  /**
   * `authHeader && authHeader.split(' ')[1]`: the second space-separated
   * word of the header, whatever the first word says; `None` when the
   * header is missing or empty or has no space.
   */
  function ExtractToken(header: Option<string>): (token: Option<string>)
    ensures token.Some? <==> Truthy(header) && ' ' in header.value
    ensures token.Some? ==> ' ' !in token.value
  {
    if !Truthy(header) then None
    else
      var parts := Split(header.value, ' ');
      if |parts| >= 2 then Some(parts[1]) else None
  }

  /** Whatever the scheme word, a header `scheme + " " + token` yields the token. */
  lemma ExtractTokenOfHeader(scheme: string, token: string)
    requires ' ' !in scheme && ' ' !in token
    ensures ExtractToken(Some(scheme + " " + token)) == Some(token)
  {
    assert scheme + " " + token == scheme + [' '] + token;
    SplitTwo(scheme, token, ' ');
  }

  /**
   * `authenticateToken`: 401 without a token, 403 when verification fails
   * or the user it names is gone, otherwise pass on with the user as the
   * database has it now.
   */
  function AuthenticateToken(header: Option<string>, users: seq<User>, verify: string -> Option<Claims>): (g: Gate)
    ensures !Truthy(ExtractToken(header)) ==> g == Deny(401, "Access token required")
    ensures Truthy(ExtractToken(header)) && verify(ExtractToken(header).value).None? ==> g == Deny(403, "Invalid token")
    ensures g.Next? <==>
      Truthy(ExtractToken(header)) && verify(ExtractToken(header).value).Some? &&
      UserIndex(users, verify(ExtractToken(header).value).value.id) >= 0
    ensures g.Next? ==> g.user == PrincipalOf(users[UserIndex(users, verify(ExtractToken(header).value).value.id)])
    ensures g.Deny? ==> g.code == 401 || g == Deny(403, "Invalid token")
  {
    var token := ExtractToken(header);
    if !Truthy(token) then Deny(401, "Access token required")
    else
      match verify(token.value)
      case None => Deny(403, "Invalid token")
      case Some(decoded) =>
        var k := UserIndex(users, decoded.id);
        if k < 0 then Deny(403, "Invalid token") else Next(PrincipalOf(users[k]))
  }

  /** `requireAdmin`: pass iff there is a user and its role is exactly `admin`. */
  function RequireAdmin(user: Option<Principal>): (g: Gate)
    ensures g.Next? <==> user.Some? && user.value.role == "admin"
    ensures g.Next? ==> g.user == user.value
    ensures g.Deny? ==> g == Deny(403, "Admin access required")
  {
    if user.None? || user.value.role != "admin" then Deny(403, "Admin access required") else Next(user.value)
  }

  /**
   * A token this server issued for a user still in the table, sent as
   * `Bearer <token>`, lets the request through as that user.
   */
  lemma IssuedTokenAuthenticates(users: seq<User>, next: nat, k: int, sign: Claims -> string, verify: string -> Option<Claims>)
    requires UserIdsBelow(users, next) && 0 <= k < |users|
    requires var t := GenerateToken(PrincipalOf(users[k]), sign);
      t != "" && ' ' !in t && verify(t) == Some(TokenPayload(PrincipalOf(users[k])))
    ensures AuthenticateToken(Some("Bearer " + GenerateToken(PrincipalOf(users[k]), sign)), users, verify) == Next(PrincipalOf(users[k]))
  {
    ExtractTokenOfHeader("Bearer", GenerateToken(PrincipalOf(users[k]), sign));
    UserIndexOf(users, next, k);
  }

  /**
   * The claims only select the row: a token whose claims say `admin` gets
   * no further than the role the database holds for that id.
   */
  lemma ClaimsDoNotGrantRole(header: Option<string>, users: seq<User>, verify: string -> Option<Claims>)
    requires AuthenticateToken(header, users, verify).Next?
    ensures var g := AuthenticateToken(header, users, verify);
      RequireAdmin(Some(g.user)).Next? <==>
      users[UserIndex(users, g.user.id)].role == "admin"
  {
    var g := AuthenticateToken(header, users, verify);
    var k := UserIndex(users, verify(ExtractToken(header).value).value.id);
    assert g.user == PrincipalOf(users[k]);
    assert UserIndex(users, g.user.id) <= k;
    assert UserIndex(users, g.user.id) == k;
  }
}
