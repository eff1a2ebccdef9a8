/**
  Session tokens and users: issuing and verifying signed tokens with a
  revocation list, revoking, looking a session's user up, role checks, the
  session cookie strings, and the stand-in Google sign-in that finds or
  creates the user.

  Signing and decoding are a `JwtCodec` pair of functions (a decode that
  fails stands for every reason the library rejects a token, expiry
  included). The clock is a parameter: `now` as a calendar instant and
  `nowSecs` as seconds since the Unix epoch.
 */
module Auth {
  import opened Common
  import opened Time
  import opened Models
  import opened Store
  import opened Errors
  import opened Config

  /** Seven days, the lifetime of a session token and of its cookie. */
  const SessionSecs: int := 7 * 24 * 60 * 60

  const U64Modulus: int := 0x1_0000_0000_0000_0000

  /** `i64 as usize` on a 64-bit target: two's-complement wrap-around. */
  function AsUsize(x: int): (u: nat)
    ensures u < U64Modulus
    ensures 0 <= x < U64Modulus ==> u == x
  {
    x % U64Modulus
  }

  /** `usize as i64`: values from 2^63 on wrap to negative. */
  function AsI64(u: int): (x: int)
    ensures -U64Modulus / 2 <= x < U64Modulus / 2
    ensures 0 <= u < U64Modulus / 2 ==> x == u
  {
    var w := u % U64Modulus;
    if w < U64Modulus / 2 then w else w - U64Modulus
  }

  /** The first and last second chrono can represent (years MinYear and MaxYear). */
  const MinTimestamp: int := -8_334_601_315_200
  const MaxTimestamp: int := 8_210_266_876_799

  datatype JwtCodec = JwtCodec(encode: Claims -> Option<string>, decode: string -> Option<Claims>)

  // ---------------------------------------------------------------------------
  // Issuing and verifying tokens

  /** The claims of a token issued at `nowSecs`, both times cast to `usize`. */
  function IssueClaims(userId: string, jti: string, nowSecs: int): (c: Claims) {
    Claims(userId, AsUsize(nowSecs + SessionSecs), jti, AsUsize(nowSecs))
  }

  /** From 1970 until the casts would wrap, a token expires exactly seven days after it is issued. */
  lemma IssuedExpiresInSevenDays(userId: string, jti: string, nowSecs: int)
    requires 0 <= nowSecs < U64Modulus - SessionSecs
    ensures IssueClaims(userId, jti, nowSecs).exp == IssueClaims(userId, jti, nowSecs).iat + SessionSecs
    ensures IssueClaims(userId, jti, nowSecs).sub == userId && IssueClaims(userId, jti, nowSecs).jti == jti
  {
  }

  /** Before 1970 the issue time wraps to a huge `usize`. */
  lemma IssuedBeforeEpochWraps(userId: string, jti: string)
    ensures IssueClaims(userId, jti, -1).iat == U64Modulus - 1
  {
  }

  function CreateJwtToken(codec: JwtCodec, userId: string, jti: string, nowSecs: int): (r: Result<string>)
    ensures r.Ok? <==> codec.encode(IssueClaims(userId, jti, nowSecs)).Some?
    ensures r.Ok? ==> r.value == codec.encode(IssueClaims(userId, jti, nowSecs)).value
    ensures r.Err? ==> r.error.Jwt?
  {
    match codec.encode(IssueClaims(userId, jti, nowSecs))
    case Some(t) => Ok(t)
    case None => Err(Jwt("token encoding failed"))
  }

  /** The revocation list holds `jti` (a primary-key lookup in the source). */
  function Revoked(revs: seq<Revocation>, jti: string): (b: bool)
    ensures b <==> exists i :: 0 <= i < |revs| && revs[i].jti == jti
  {
    if revs == [] then false
    else
      assert forall i :: 1 <= i < |revs| ==> revs[i] == revs[1..][i - 1];
      revs[0].jti == jti || Revoked(revs[1..], jti)
  }

  function VerifyJwtToken(codec: JwtCodec, db: Db, token: string): (r: Result<Claims>)
    ensures r.Ok? <==> codec.decode(token).Some? && !Revoked(db.revocations, codec.decode(token).value.jti)
    ensures r.Ok? ==> r.value == codec.decode(token).value
    ensures codec.decode(token).None? ==> r == Err(Auth("Invalid token"))
    ensures codec.decode(token).Some? && Revoked(db.revocations, codec.decode(token).value.jti) ==>
      r == Err(Auth("Token has been revoked"))
  {
    match codec.decode(token)
    case None => Err(Auth("Invalid token"))
    case Some(c) => if Revoked(db.revocations, c.jti) then Err(Auth("Token has been revoked")) else Ok(c)
  }

  /** `DateTime::from_timestamp(exp as i64, 0).unwrap_or(now)`, in seconds. */
  function ExpirySecs(exp: int, nowSecs: int): (s: int)
    ensures MinTimestamp <= AsI64(exp) <= MaxTimestamp ==> s == AsI64(exp)
    ensures !(MinTimestamp <= AsI64(exp) <= MaxTimestamp) ==> s == nowSecs
  {
    var secs := AsI64(exp);
    if MinTimestamp <= secs <= MaxTimestamp then secs else nowSecs
  }

  /**
    `revoke_token`: only a token that verifies is revoked; the revocation
    records its id, its subject and when it would have expired. Afterwards it
    no longer verifies, so revoking it again fails.
   */
  method RevokeToken(codec: JwtCodec, db: Db, token: string, now: DateTime, nowSecs: int)
    returns (db': Db, r: Result<()>)
    ensures VerifyJwtToken(codec, db, token).Err? ==> db' == db && r == Err(VerifyJwtToken(codec, db, token).error)
    ensures VerifyJwtToken(codec, db, token).Ok? ==>
      var c := VerifyJwtToken(codec, db, token).value;
      r.Ok? && db' == db.(revocations := db.revocations + [Revocation(c.jti, Some(c.sub), now, ExpirySecs(c.exp, nowSecs))])
    ensures r.Ok? ==> VerifyJwtToken(codec, db', token) == Err(Auth("Token has been revoked"))
  {
    var verified := VerifyJwtToken(codec, db, token);
    if verified.Err? {
      return db, Err(verified.error);
    }
    var c := verified.value;
    var revocation := Revocation(c.jti, Some(c.sub), now, ExpirySecs(c.exp, nowSecs));
    db' := db.(revocations := db.revocations + [revocation]);
    assert db'.revocations[|db.revocations|].jti == c.jti;
    r := Ok(());
  }

  // ---------------------------------------------------------------------------
  // Users and roles

  function VerifySessionCookie(codec: JwtCodec, db: Db, token: string): (r: Result<UserResponse>)
    ensures VerifyJwtToken(codec, db, token).Err? ==> r == Err(VerifyJwtToken(codec, db, token).error)
    ensures VerifyJwtToken(codec, db, token).Ok? && UserById(db, VerifyJwtToken(codec, db, token).value.sub).None? ==>
      r == Err(Auth("User not found"))
    ensures r.Ok? ==>
      var u := UserById(db, VerifyJwtToken(codec, db, token).value.sub);
      VerifyJwtToken(codec, db, token).Ok? && u.Some? && r.value == ToResponse(u.value)
      && u.value.id == VerifyJwtToken(codec, db, token).value.sub
      && FromStr(r.value.role).Some?
    ensures VerifyJwtToken(codec, db, token).Ok? && UserById(db, VerifyJwtToken(codec, db, token).value.sub).Some? ==>
      var u := UserById(db, VerifyJwtToken(codec, db, token).value.sub).value;
      r == if GetRole(u).None? then Err(Auth("Invalid user role")) else Ok(ToResponse(u))
    ensures r.Err? ==> r.error.Auth?
  {
    match VerifyJwtToken(codec, db, token)
    case Err(e) => Err(e)
    case Ok(c) =>
      match UserById(db, c.sub)
      case None => Err(Auth("User not found"))
      case Some(u) => if GetRole(u).None? then Err(Auth("Invalid user role")) else Ok(ToResponse(u))
  }

  /** Two roles agree exactly when their stored names do: the check is false for a missing user or unknown name. */
  function UserHasRole(db: Db, userId: string, role: UserRole): (b: bool)
    ensures b <==> UserById(db, userId).Some? && UserById(db, userId).value.role == AsStr(role)
  {
    match UserById(db, userId)
    case None => false
    case Some(u) =>
      RoleRoundTrip(role, u.role);
      match GetRole(u)
      case None => false
      case Some(r) => r == role
  }

  function ParseUserRole(s: string): (r: Result<UserRole>)
    ensures r.Ok? <==> s in {"admin", "teacher", "parent", "student"}
    ensures r.Ok? ==> AsStr(r.value) == s
    ensures r.Err? ==> r == Err(Auth("Invalid user role: " + s))
  {
    RoleRoundTrip(Admin, s);
    match FromStr(s)
    case Some(role) => Ok(role)
    case None => Err(Auth("Invalid user role: " + s))
  }

  // ---------------------------------------------------------------------------
  // Cookies

  predicate IsDevelopment(cfg: AppConfig) {
    cfg.environment == "development"
  }

  /** The cookie attributes: none for the domain and no `Secure` in development. */
  function CookieAttributes(cfg: AppConfig): string {
    if IsDevelopment(cfg) then "Path=/; HttpOnly; SameSite=Lax"
    else "Domain=.llacademy.ng; Path=/; Secure; HttpOnly; SameSite=None"
  }

  /** `session=<value>; <attributes>; Max-Age=<maxAge>`. */
  function SessionCookie(cfg: AppConfig, value: string, maxAge: string): string {
    ("session=" + value + "; ") + (CookieAttributes(cfg) + ("; Max-Age=" + maxAge))
  }

  function CreateCookieString(cfg: AppConfig, token: string): (c: string)
    ensures StartsWith(c, "session=" + token + "; ")
    ensures EndsWith(c, "; Max-Age=604800")
    ensures IsDevelopment(cfg) ==> c == "session=" + token + "; " + "Path=/; HttpOnly; SameSite=Lax" + "; Max-Age=604800"
    ensures !IsDevelopment(cfg) ==>
      c == "session=" + token + "; " + "Domain=.llacademy.ng; Path=/; Secure; HttpOnly; SameSite=None" + "; Max-Age=604800"
  {
    var c := SessionCookie(cfg, token, "604800");
    StartsWithConcat("session=" + token + "; ", CookieAttributes(cfg) + ("; Max-Age=" + "604800"));
    assert "; Max-Age=" + "604800" == "; Max-Age=604800";
    assert c == ("session=" + token + "; " + CookieAttributes(cfg)) + "; Max-Age=604800";
    EndsWithConcat("session=" + token + "; " + CookieAttributes(cfg), "; Max-Age=604800");
    c
  }

  function CreateLogoutCookieString(cfg: AppConfig): (c: string)
    ensures IsDevelopment(cfg) ==> c == "session=; " + "Path=/; HttpOnly; SameSite=Lax" + "; Max-Age=0"
    ensures !IsDevelopment(cfg) ==> c == "session=; " + "Domain=.llacademy.ng; Path=/; Secure; HttpOnly; SameSite=None" + "; Max-Age=0"
  {
    "session=; " + CookieAttributes(cfg) + "; Max-Age=0"
  }

  /** The clearing cookie is the session cookie with an empty value and a zero lifetime, same attributes. */
  lemma LogoutCookieClearsSession(cfg: AppConfig)
    ensures var c := CreateCookieString(cfg, "");
      CreateLogoutCookieString(cfg) == c[..|c| - 6] + "0"
  {
    var head := "session=; " + CookieAttributes(cfg) + "; Max-Age=";
    assert CreateLogoutCookieString(cfg) == head + "0" by {
      assert "; Max-Age=0" == "; Max-Age=" + "0";
    }
    assert CreateCookieString(cfg, "") == head + "604800" by {
      SessionCookieHead(cfg, "", "604800");
      assert "session=" + "" + "; " == "session=; ";
    }
    assert (head + "604800")[..|head|] == head;
  }

  /** A session cookie is its fixed head followed by the lifetime. */
  lemma SessionCookieHead(cfg: AppConfig, value: string, maxAge: string)
    ensures SessionCookie(cfg, value, maxAge) == "session=" + value + "; " + CookieAttributes(cfg) + "; Max-Age=" + maxAge
  {
  }

  /** The cookie's first `;`-separated part is the `session=` pair carrying the token. */
  lemma CookieCarriesToken(cfg: AppConfig, token: string)
    requires ';' !in token
    ensures Split(CreateCookieString(cfg, token), ';')[0] == "session=" + token
  {
    SessionCookieFirstPair(cfg, token, "604800");
  }

  lemma SessionCookieFirstPair(cfg: AppConfig, value: string, maxAge: string)
    requires ';' !in value
    ensures Split(SessionCookie(cfg, value, maxAge), ';')[0] == "session=" + value
  {
    var rest := " " + CookieAttributes(cfg) + "; Max-Age=" + maxAge;
    assert SessionCookie(cfg, value, maxAge) == ("session=" + value) + [';'] + rest;
    SessionPairUnbroken(value);
    SplitAt("session=" + value, ';', rest);
  }

  lemma SessionPairUnbroken(token: string)
    requires ';' !in token
    ensures ';' !in "session=" + token
  {
    assert forall i :: 8 <= i < |"session=" + token| ==> ("session=" + token)[i] == token[i - 8];
  }

  /** `logout_with_cookie`: revoke if possible, and clear the cookie in every case. */
  method LogoutWithCookie(codec: JwtCodec, cfg: AppConfig, db: Db, token: string, now: DateTime, nowSecs: int)
    returns (db': Db, cookie: string)
    ensures cookie == CreateLogoutCookieString(cfg)
    ensures VerifyJwtToken(codec, db', token).Err?
    ensures db'.users == db.users && db'.audit == db.audit
    ensures VerifyJwtToken(codec, db, token).Err? ==> db' == db
  {
    var r;
    db', r := RevokeToken(codec, db, token, now, nowSecs);
    cookie := CreateLogoutCookieString(cfg);
  }

  // ---------------------------------------------------------------------------
  // Sign-in

  datatype GoogleAuthRequest = GoogleAuthRequest(code: string, state: Option<string>)
  datatype LoginRequest = LoginRequest(email: string)
  datatype LoginResponse = LoginResponse(token: string, user: UserResponse, expiresAt: nat)

  /** The account details the sign-in stand-in uses in place of Google's answer. */
  const OAuthEmail: string := "user@example.com"
  const OAuthFullName: string := "Test User"

  function Min(a: nat, b: nat): nat { if a <= b then a else b }

  /**
    The Google id "google_user_" followed by the first min(8, len) bytes of
    the code; None where byte 8 falls inside a character, where the slice
    panics.
   */
  function GoogleIdOf(code: string): Option<string> {
    match BytePrefix(code, Min(8, Utf8Len(code)))
    case None => None
    case Some(p) => Some("google_user_" + p)
  }

  /** An ASCII code never makes the slice panic. */
  lemma AsciiCodeHasGoogleId(code: string)
    requires IsAscii(code)
    ensures GoogleIdOf(code) == Some("google_user_" + code[..Min(8, |code|)])
  {
    AsciiUtf8Len(code);
    AsciiBytePrefix(code, Min(8, |code|));
  }

  function HasGoogleId(gid: string): User -> bool {
    (u: User) => u.googleId == Some(gid)
  }

  function HasEmail(email: string): User -> bool {
    (u: User) => u.email == email
  }

  function GetUserByEmail(db: Db, email: string): (u: Option<User>)
    ensures u.Some? ==> u.value in db.users && u.value.email == email
    ensures u.None? <==> forall i :: 0 <= i < |db.users| ==> db.users[i].email != email
  {
    FirstUser(db.users, HasEmail(email))
  }

  function GetUserByGoogleId(db: Db, googleId: string): (u: Option<User>)
    ensures u.Some? ==> u.value in db.users && u.value.googleId == Some(googleId)
    ensures u.None? <==> forall i :: 0 <= i < |db.users| ==> db.users[i].googleId != Some(googleId)
  {
    FirstUser(db.users, HasGoogleId(googleId))
  }

  /** `create_user_with_google`: insert a student linked to the Google id. */
  method CreateUserWithGoogle(db: Db, id: string, email: string, googleId: string, fullName: Option<string>,
                              now: DateTime)
    returns (db': Db, user: User)
    ensures user.id == id && user.email == email && user.fullName == fullName && user.createdAt == now
    ensures user.googleId == Some(googleId) && GetRole(user) == Some(Student)
    ensures db' == db.(users := db.users + [user])
    ensures GetUserByGoogleId(db', googleId).Some?
  {
    user := NewUserWithGoogle(id, email, Student, googleId, fullName, now);
    db' := db.(users := db.users + [user]);
    assert db'.users[|db.users|] == user;
  }

  /** `UPDATE users SET google_id = ? WHERE id = ?`. */
  function SetGoogleId(users: seq<User>, id: string, gid: string): (r: seq<User>)
    ensures |r| == |users|
    ensures forall i :: 0 <= i < |users| ==>
      r[i] == if users[i].id == id then users[i].(googleId := Some(gid)) else users[i]
  {
    seq(|users|, i requires 0 <= i < |users| => if users[i].id == id then users[i].(googleId := Some(gid)) else users[i])
  }

  /**
    `google_oauth_login`: check the code and the state, derive the Google id,
    then reuse the user with that id, or else link it to the user with the
    stand-in email, or else create a student. The token and cookie follow;
    a token failure leaves the user change in place.
   */
  method GoogleOauthLogin(codec: JwtCodec, cfg: AppConfig, db: Db, req: GoogleAuthRequest, freshUserId: string,
                          jti: string, now: DateTime, nowSecs: int)
    returns (db': Db, r: Outcome<(LoginResponse, string)>)
    ensures req.code == [] ==> r == Returned(Err(Auth("Authorization code is required"))) && db' == db
    ensures req.code != [] && req.state == Some([]) ==>
      r == Returned(Err(Auth("Invalid state parameter"))) && db' == db
    ensures r.Panicked? <==> req.code != [] && req.state != Some([]) && GoogleIdOf(req.code).None?
    ensures db'.revocations == db.revocations && db'.audit == db.audit
    ensures req.code != [] && req.state != Some([]) && GoogleIdOf(req.code).Some? ==>
      var gid := GoogleIdOf(req.code).value;
      var byGoogle := GetUserByGoogleId(db, gid);
      var byEmail := GetUserByEmail(db, OAuthEmail);
      var user :=
        if byGoogle.Some? then byGoogle.value
        else if byEmail.Some? then byEmail.value
        else NewUserWithGoogle(freshUserId, OAuthEmail, Student, gid, Some(OAuthFullName), now);
      && (byGoogle.Some? ==> db' == db)
      && (byGoogle.None? && byEmail.Some? ==> db'.users == SetGoogleId(db.users, byEmail.value.id, gid))
      && (byGoogle.None? && byEmail.None? ==> db'.users == db.users + [user])
      && (exists i :: 0 <= i < |db'.users| && db'.users[i].id == user.id && db'.users[i].googleId == Some(gid))
      && r.Returned?
      && (r.result.Ok? <==> CreateJwtToken(codec, user.id, jti, nowSecs).Ok?)
      && (r.result.Ok? ==>
            var token := CreateJwtToken(codec, user.id, jti, nowSecs).value;
            r.result.value == (LoginResponse(token, ToResponse(user), AsUsize(nowSecs + SessionSecs)),
                               CreateCookieString(cfg, token)))
  {
    if req.code == [] {
      return db, Returned(Err(Auth("Authorization code is required")));
    }
    if req.state == Some([]) {
      return db, Returned(Err(Auth("Invalid state parameter")));
    }
    var googleId := GoogleIdOf(req.code);
    if googleId.None? {
      return db, Panicked;
    }
    var gid := googleId.value;
    var user;
    var byGoogle := GetUserByGoogleId(db, gid);
    if byGoogle.Some? {
      user := byGoogle.value;
      db' := db;
    } else {
      var byEmail := GetUserByEmail(db, OAuthEmail);
      if byEmail.Some? {
        user := byEmail.value;
        db' := db.(users := SetGoogleId(db.users, user.id, gid));
        var k :| 0 <= k < |db.users| && db.users[k] == user;
        assert db'.users[k].id == user.id && db'.users[k].googleId == Some(gid);
      } else {
        db', user := CreateUserWithGoogle(db, freshUserId, OAuthEmail, gid, Some(OAuthFullName), now);
        assert db'.users[|db.users|] == user;
      }
    }
    var token := CreateJwtToken(codec, user.id, jti, nowSecs);
    if token.Err? {
      return db', Returned(Err(token.error));
    }
    var response := LoginResponse(token.value, ToResponse(user), AsUsize(nowSecs + SessionSecs));
    r := Returned(Ok((response, CreateCookieString(cfg, token.value))));
  }

  /** The longest prefix of `s` that fits in `n` bytes and ends on a character boundary. */
  function FloorBytePrefix(s: string, n: nat): (p: string)
    ensures Utf8Len(p) <= n && |p| <= |s| && p == s[..|p|]
    ensures |p| < |s| ==> Utf8Len(p) + Utf8Width(s[|p|]) > n
    decreases |s|
  {
    if s == [] || Utf8Width(s[0]) > n then []
    else
      var rest := FloorBytePrefix(s[1..], n - Utf8Width(s[0]));
      var p := [s[0]] + rest;
      Utf8LenCons(s[0], rest);
      assert p == s[..|p|];
      assert |p| < |s| ==> s[|p|] == s[1..][|rest|];
      p
  }

  lemma {:induction false} Utf8LenCons(c: char, s: string)
    ensures Utf8Len([c] + s) == Utf8Width(c) + Utf8Len(s)
    decreases |s|
  {
    if s != [] {
      var init, last := s[..|s| - 1], s[|s| - 1];
      Utf8LenCons(c, init);
      assert ([c] + s)[..|[c] + s| - 1] == [c] + init;
    }
  }

  lemma {:induction false} FloorBytePrefixAgrees(s: string, n: nat)
    requires BytePrefix(s, n).Some?
    ensures BytePrefix(s, n).value == FloorBytePrefix(s, n)
    decreases |s|
  {
    if n > 0 && s != [] {
      FloorBytePrefixAgrees(s[1..], n - Utf8Width(s[0]));
    }
  }

  lemma FloorBytePrefixAgreesWhenDefined(s: string, n: nat)
    ensures BytePrefix(s, n).Some? ==> BytePrefix(s, n).value == FloorBytePrefix(s, n)
  {
    if BytePrefix(s, n).Some? {
      FloorBytePrefixAgrees(s, n);
    }
  }

  /** A Google id that never panics: the code's longest prefix of at most 8 bytes. */
  function CorrectedGoogleIdOf(code: string): (gid: string)
    ensures StartsWith(gid, "google_user_") && |gid| <= 12 + |code|
    ensures Utf8Len(gid[12..]) <= 8 && gid[12..] == code[..|gid[12..]|]
    ensures GoogleIdOf(code).Some? ==> GoogleIdOf(code).value == gid
  {
    var p := FloorBytePrefix(code, Min(8, Utf8Len(code)));
    FloorBytePrefixAgreesWhenDefined(code, Min(8, Utf8Len(code)));
    var gid := "google_user_" + p;
    assert gid[12..] == p;
    gid
  }

  /** Past `k` ASCII characters, a multi-byte character at index `k` is split by byte `k + 1`. */
  lemma {:induction false} BytePrefixSplitsChar(s: string, k: nat)
    requires k < |s| && IsAscii(s[..k]) && Utf8Width(s[k]) > 1
    ensures BytePrefix(s, k + 1) == None
    ensures FloorBytePrefix(s, k + 1) == s[..k]
  {
    if k > 0 {
      assert s[1..][..k - 1] == s[..k][1..];
      assert s[1..][k - 1] == s[k];
      BytePrefixSplitsChar(s[1..], k - 1);
      assert [s[0]] + s[1..][..k - 1] == s[..k];
    }
  }

  /**
    A code whose first seven characters are ASCII and whose eighth is not
    makes the source's slice panic; the corrected id keeps the seven.
   */
  lemma OAuthCodePanics(code: string)
    requires |code| >= 8 && IsAscii(code[..7]) && Utf8Width(code[7]) > 1
    ensures GoogleIdOf(code) == None
    ensures CorrectedGoogleIdOf(code) == "google_user_" + code[..7]
  {
    assert Min(8, Utf8Len(code)) == 8;
    BytePrefixSplitsChar(code, 7);
  }

  lemma OAuthCodePanicsExample()
    ensures GoogleIdOf("abcdefg\U{e9}") == None
  {
    var code := "abcdefg\U{e9}";
    assert IsAscii(code[..7]);
    OAuthCodePanics(code);
  }

  /** `login`: password sign-in is gone; every request fails. */
  function Login(req: LoginRequest): (r: Result<(LoginResponse, string)>)
    ensures r.Err? && r.error.Auth?
    ensures r.error.msg == "Email is required" <==> Blank(req.email)
  {
    TrimEmptyIffBlank(req.email);
    if Trim(req.email) == [] then Err(Auth("Email is required"))
    else Err(Auth("Password-based login is deprecated. Please use Google OAuth for authentication."))
  }
}
