/**
  The two request gates. `auth_middleware` picks the credential: an
  `Authorization: Bearer <token>` header (RFC 6750 section 2.1) first, and
  otherwise the first `session=` pair of the `Cookie` header (RFC 6265
  section 5.4); it verifies that one credential only. `admin_middleware`
  then admits only users whose role is "admin".
 */
module Middleware {
  import opened Common
  import opened Models
  import opened Store
  import opened Errors
  import opened Auth

  /** The first `Authorization` and `Cookie` header values of a request, if any. */
  datatype Headers = Headers(authorization: Option<string>, cookie: Option<string>)

  /** The outcome of a gate: the request goes on with its user, or is refused with a status. */
  datatype Gate = Forward(user: UserResponse) | Reject(status: nat)

  const Unauthorized: nat := 401
  const Forbidden: nat := 403

  /** `HeaderValue::to_str` succeeds only on visible ASCII and tabs. */
  predicate VisibleAscii(s: string) {
    forall i :: 0 <= i < |s| ==> s[i] == '\t' || (' ' <= s[i] <= '~')
  }

  function HeaderStr(v: Option<string>): (r: Option<string>)
    ensures r.Some? <==> v.Some? && VisibleAscii(v.value)
    ensures r.Some? ==> r.value == v.value
  {
    match v
    case Some(s) => if VisibleAscii(s) then Some(s) else None
    case None => None
  }

  /** The token of a readable `Bearer ` Authorization header: the text after the 7-character prefix. */
  function BearerToken(h: Headers): (t: Option<string>)
    ensures t.Some? <==> HeaderStr(h.authorization).Some? && StartsWith(h.authorization.value, "Bearer ")
    ensures t.Some? ==> h.authorization.value == "Bearer " + t.value
  {
    match HeaderStr(h.authorization)
    case Some(s) =>
      if StartsWith(s, "Bearer ") then
        assert s == s[..7] + s[7..];
        Some(s[7..])
      else None
    case None => None
  }

  predicate IsSessionPair(part: string) {
    StartsWith(Trim(part), "session=")
  }

  /** The value of the first trimmed segment that starts with `session=`. */
  function FirstSessionValue(parts: seq<string>): (v: Option<string>)
    ensures v.None? <==> forall i :: 0 <= i < |parts| ==> !IsSessionPair(parts[i])
    ensures v.Some? ==>
      exists i ::
        && 0 <= i < |parts| && IsSessionPair(parts[i])
        && (forall j :: 0 <= j < i ==> !IsSessionPair(parts[j]))
        && Trim(parts[i]) == "session=" + v.value
  {
    if parts == [] then None
    else if IsSessionPair(parts[0]) then
      var t := Trim(parts[0]);
      assert t == t[..8] + t[8..];
      Some(t[8..])
    else
      var v := FirstSessionValue(parts[1..]);
      assert forall i :: 1 <= i < |parts| ==> parts[i] == parts[1..][i - 1];
      if v.Some? then
        var k :| 0 <= k < |parts[1..]| && IsSessionPair(parts[1..][k])
          && (forall j :: 0 <= j < k ==> !IsSessionPair(parts[1..][j]))
          && Trim(parts[1..][k]) == "session=" + v.value;
        assert IsSessionPair(parts[k + 1]) && Trim(parts[k + 1]) == "session=" + v.value;
        assert forall j :: 0 <= j < k + 1 ==> !IsSessionPair(parts[j]);
        v
      else v
  }

  /** The session value a readable Cookie header carries, if any. */
  function CookieSession(cookie: Option<string>): Option<string> {
    match HeaderStr(cookie)
    case Some(s) => FirstSessionValue(Split(s, ';'))
    case None => None
  }

  /** Verify one credential: its user goes on, any failure is 401. */
  function Admit(codec: JwtCodec, db: Db, token: string): (g: Gate)
    ensures g.Forward? <==> VerifySessionCookie(codec, db, token).Ok?
    ensures g.Forward? ==> g.user == VerifySessionCookie(codec, db, token).value
    ensures g.Reject? ==> g.status == Unauthorized
  {
    match VerifySessionCookie(codec, db, token)
    case Ok(u) => Forward(u)
    case Err(_) => Reject(Unauthorized)
  }

  /** What `auth_middleware` decides for a request. */
  function AuthDecision(codec: JwtCodec, db: Db, h: Headers): Gate {
    if BearerToken(h).Some? then Admit(codec, db, BearerToken(h).value)
    else if CookieSession(h.cookie).Some? then Admit(codec, db, CookieSession(h.cookie).value)
    else Reject(Unauthorized)
  }

  /** The search loop over `;`-separated cookie segments, stopping at the first `session=` one. */
  method FindSessionCookie(header: string) returns (v: Option<string>)
    ensures v == FirstSessionValue(Split(header, ';'))
  {
    var parts := Split(header, ';');
    var i := 0;
    while i < |parts|
      invariant 0 <= i <= |parts|
      invariant FirstSessionValue(parts) == FirstSessionValue(parts[i..])
    {
      var cookie := Trim(parts[i]);
      if StartsWith(cookie, "session=") {
        return Some(cookie[8..]);
      }
      assert parts[i..][1..] == parts[i + 1..];
      i := i + 1;
    }
    return None;
  }

  method AuthMiddleware(codec: JwtCodec, db: Db, h: Headers) returns (g: Gate)
    ensures g == AuthDecision(codec, db, h)
    ensures g.Reject? ==> g.status == Unauthorized
    ensures g.Forward? ==> exists t :: VerifySessionCookie(codec, db, t) == Ok(g.user)
  {
    var auth := HeaderStr(h.authorization);
    if auth.Some? && StartsWith(auth.value, "Bearer ") {
      return Admit(codec, db, auth.value[7..]);
    }
    var cookie := HeaderStr(h.cookie);
    if cookie.Some? {
      var session := FindSessionCookie(cookie.value);
      if session.Some? {
        return Admit(codec, db, session.value);
      }
    }
    return Reject(Unauthorized);
  }

  /** `admin_middleware`: only a request whose user has the stored role "admin" goes on. */
  function AdminMiddleware(user: Option<UserResponse>): (g: Gate)
    ensures g.Forward? <==> user.Some? && user.value.role == "admin"
    ensures g.Forward? ==> g.user == user.value
    ensures g.Reject? ==> g.status == Forbidden
  {
    if user.Some? && user.value.role == "admin" then Forward(user.value) else Reject(Forbidden)
  }


  // ---------------------------------------------------------------------------
  // Properties of the credential choice

  /** A Bearer header decides alone: the cookie is never consulted, even when the token fails. */
  lemma BearerDecidesAlone(codec: JwtCodec, db: Db, h: Headers, otherCookie: Option<string>)
    requires BearerToken(h).Some?
    ensures AuthDecision(codec, db, h) == AuthDecision(codec, db, h.(cookie := otherCookie))
    ensures VerifySessionCookie(codec, db, BearerToken(h).value).Err? ==> AuthDecision(codec, db, h) == Reject(Unauthorized)
  {
  }

  /** Any other Authorization header (unreadable, or another scheme) is as good as none. */
  lemma NonBearerFallsThrough(codec: JwtCodec, db: Db, h: Headers)
    requires BearerToken(h).None?
    ensures AuthDecision(codec, db, h) == AuthDecision(codec, db, h.(authorization := None))
  {
  }

  lemma TrimSessionPair(t: string)
    requires t == [] || !IsWhitespace(t[|t| - 1])
    ensures Trim("session=" + t) == "session=" + t
  {
  }

  /**
    Only the first `session=` pair counts: the gate verifies it even when a
    later pair would succeed.
   */
  lemma FirstSessionPairDecides(codec: JwtCodec, db: Db, t: string, rest: string)
    requires ';' !in t && (t == [] || !IsWhitespace(t[|t| - 1]))
    requires VisibleAscii("session=" + t + ";" + rest)
    ensures AuthDecision(codec, db, Headers(None, Some("session=" + t + ";" + rest))) == Admit(codec, db, t)
  {
    var pair := "session=" + t;
    assert ';' !in pair by {
      assert forall i :: 8 <= i < |pair| ==> pair[i] == t[i - 8];
    }
    assert pair + ";" + rest == pair + [';'] + rest;
    SplitAt(pair, ';', rest);
    TrimSessionPair(t);
    assert pair[8..] == t;
  }

  /** No readable Authorization header and no `session=` pair: 401. */
  lemma NoCredentialIsUnauthorized(codec: JwtCodec, db: Db, h: Headers)
    requires BearerToken(h).None? && CookieSession(h.cookie).None?
    ensures AuthDecision(codec, db, h) == Reject(Unauthorized)
  {
  }

  /** Once a token no longer verifies (it was revoked, say), neither credential form gets through. */
  lemma UnverifiedTokenIsRejected(codec: JwtCodec, db: Db, t: string, h: Headers)
    requires VerifyJwtToken(codec, db, t).Err?
    requires BearerToken(h) == Some(t) || (BearerToken(h).None? && CookieSession(h.cookie) == Some(t))
    ensures AuthDecision(codec, db, h) == Reject(Unauthorized)
  {
  }

  /**
    Behind both gates, a request goes on exactly when its credential
    verifies and the stored user holds the admin role.
   */
  lemma AdminGateIffAdminRole(codec: JwtCodec, db: Db, h: Headers)
    requires AuthDecision(codec, db, h).Forward?
    ensures var u := AuthDecision(codec, db, h).user;
      AdminMiddleware(Some(u)).Forward? <==> UserHasRole(db, u.id, Admin)
  {
    var t := if BearerToken(h).Some? then BearerToken(h).value else CookieSession(h.cookie).value;
    assert AuthDecision(codec, db, h) == Admit(codec, db, t);
    var c := VerifyJwtToken(codec, db, t).value;
    var u := AuthDecision(codec, db, h).user;
    assert u == ToResponse(UserById(db, c.sub).value);
    RoleRoundTrip(Admin, u.role);
  }
}
