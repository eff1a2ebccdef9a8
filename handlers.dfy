/**
  The decision logic of the HTTP handlers: the excerpt derived for the
  model-based post endpoints, the logout cookie scan, the public post
  endpoint's visibility check, the user lookups, the role check, the
  fields the upload and restore endpoints require and their defaults, and
  the admin audit query window. Routing, extractors and JSON bodies are not
  part of this model.

  A JSON request body is a map from field name to value; only whether a
  value is a string matters here (a body that is not an object has no
  fields).
 */
module Handlers {
  import opened Common
  import opened Time
  import opened Models
  import opened Store
  import opened Errors
  import opened Config
  import opened Kv
  import opened Audit
  import opened AuditService
  import opened Auth
  import opened Middleware
  import opened Storage
  import opened Backup
  import opened Blog

  datatype Json = JString(s: string) | JOther

  type JsonObject = map<string, Json>

  /** `payload.get(key).and_then(|v| v.as_str())`. */
  function StrField(payload: JsonObject, key: string): (v: Option<string>)
    ensures v.Some? <==> key in payload && payload[key].JString?
    ensures v.Some? ==> v.value == payload[key].s
  {
    if key in payload && payload[key].JString? then Some(payload[key].s) else None
  }

  const NoContent: nat := 204

  // ---------------------------------------------------------------------------
  // Posts

  const ExcerptChars: nat := 150

  /** The summary when given, else the first 150 characters of the body followed by "...". */
  function Excerpt(summary: Option<string>, bodyHtml: string): (e: string)
    ensures summary.Some? ==> e == summary.value
    ensures summary.None? ==>
      var n := if |bodyHtml| < ExcerptChars then |bodyHtml| else ExcerptChars;
      |e| == n + 3 && e[..n] == bodyHtml[..n] && e[n..] == "..."
  {
    if summary.Some? then summary.value
    else
      var n := if |bodyHtml| < ExcerptChars then |bodyHtml| else ExcerptChars;
      var e := bodyHtml[..n] + "...";
      assert e[..n] == bodyHtml[..n];
      e
  }

  /** A body of at most 150 characters appears whole in the excerpt. */
  lemma ShortBodyExcerpt(bodyHtml: string)
    requires |bodyHtml| <= ExcerptChars
    ensures Excerpt(None, bodyHtml) == bodyHtml + "..."
  {
    var e := Excerpt(None, bodyHtml);
    assert e == e[..|bodyHtml|] + e[|bodyHtml|..];
  }

  /** `get_public_blog_post`: a post that is not public is hidden behind the same NotFound as a missing one. */
  function GetPublicBlogPost(kv: KvConfig, sp: Space, slug: string): (r: Result<BlogPostKv>)
    ensures r.Ok? <==>
      && GetBlogPost(kv, sp, slug).Ok? && GetBlogPost(kv, sp, slug).value.Some?
      && GetBlogPost(kv, sp, slug).value.value.visibility == "public"
    ensures r.Ok? ==> r.value == GetBlogPost(kv, sp, slug).value.value
    ensures GetBlogPost(kv, sp, slug).Err? ==> r == Err(GetBlogPost(kv, sp, slug).error)
    ensures GetBlogPost(kv, sp, slug).Ok? && r.Err? ==> r == Err(NotFound("Blog post not found"))
  {
    match GetBlogPost(kv, sp, slug)
    case Err(e) => Err(e)
    case Ok(None) => Err(NotFound("Blog post not found"))
    case Ok(Some(post)) => if post.visibility != "public" then Err(NotFound("Blog post not found")) else Ok(post)
  }

  /** `get_public_post_direct`: the same answer by way of the service's public read. */
  function GetPublicPostDirect(kv: KvConfig, sp: Space, slug: string): Result<BlogPostKv> {
    match GetPublicPost(kv, sp, slug)
    case Err(e) => Err(e)
    case Ok(None) => Err(NotFound("Blog post not found"))
    case Ok(Some(post)) => Ok(post)
  }

  /** The two public endpoints answer every request identically. */
  lemma PublicEndpointsAgree(kv: KvConfig, sp: Space, slug: string)
    ensures GetPublicBlogPost(kv, sp, slug) == GetPublicPostDirect(kv, sp, slug)
  {
    match GetBlogPost(kv, sp, slug)
    case Err(e) =>
    case Ok(None) =>
    case Ok(Some(q)) =>
  }

  /** `admin_get_post`: any visibility, NotFound only when missing. */
  function AdminGetPost(kv: KvConfig, sp: Space, slug: string): (r: Result<BlogPostKv>)
    ensures GetBlogPost(kv, sp, slug).Ok? && GetBlogPost(kv, sp, slug).value.Some? ==>
      r == Ok(GetBlogPost(kv, sp, slug).value.value)
    ensures GetBlogPost(kv, sp, slug) == Ok(None) ==> r == Err(NotFound("Blog post not found"))
    ensures GetPublicBlogPost(kv, sp, slug).Ok? ==> r == GetPublicBlogPost(kv, sp, slug)
  {
    match GetBlogPost(kv, sp, slug)
    case Err(e) => Err(e)
    case Ok(None) => Err(NotFound("Blog post not found"))
    case Ok(Some(post)) => Ok(post)
  }

  // ---------------------------------------------------------------------------
  // Users

  function AdminGetUser(db: Db, userId: string): (r: Result<User>)
    ensures r.Ok? <==> HasUser(db, userId)
    ensures r.Ok? ==> r.value in db.users && r.value.id == userId
    ensures r.Err? ==> r == Err(NotFound("User not found"))
  {
    match UserById(db, userId)
    case Some(u) => Ok(u)
    case None => Err(NotFound("User not found"))
  }

  function AdminGetUserByEmail(db: Db, email: string): (r: Result<User>)
    ensures r.Ok? <==> exists i :: 0 <= i < |db.users| && db.users[i].email == email
    ensures r.Ok? ==> r.value in db.users && r.value.email == email
    ensures r.Err? ==> r == Err(NotFound("User not found"))
  {
    match GetUserByEmail(db, email)
    case Some(u) => Ok(u)
    case None => Err(NotFound("User not found"))
  }

  /** `admin_check_user_role`: an unknown role name is an error; otherwise whether the user's stored role is that name. */
  function AdminCheckUserRole(db: Db, userId: string, roleStr: string): (r: Result<bool>)
    ensures r.Err? <==> FromStr(roleStr).None?
    ensures r.Err? ==> r == Err(Auth("Invalid user role: " + roleStr))
    ensures r.Ok? ==> (r.value <==> UserById(db, userId).Some? && UserById(db, userId).value.role == roleStr)
  {
    match ParseUserRole(roleStr)
    case Err(e) => Err(e)
    case Ok(role) => Ok(UserHasRole(db, userId, role))
  }

  // ---------------------------------------------------------------------------
  // Logout

  /**
    `logout`: the first `session=` pair of the Cookie header is revoked and
    the clearing cookie sent back; without one nothing happens. Either way
    the answer is 204, and afterwards that cookie no longer authenticates.
   */
  method Logout(codec: JwtCodec, cfg: AppConfig, db: Db, h: Headers, now: DateTime, nowSecs: int)
    returns (db': Db, setCookie: Option<string>, status: nat)
    ensures status == NoContent
    ensures setCookie == if CookieSession(h.cookie).Some? then Some(CreateLogoutCookieString(cfg)) else None
    ensures CookieSession(h.cookie).None? ==> db' == db
    ensures db'.users == db.users && db'.audit == db.audit
    ensures CookieSession(h.cookie).Some? ==> AuthDecision(codec, db', Headers(None, h.cookie)) == Reject(Unauthorized)
  {
    var cookie := HeaderStr(h.cookie);
    if cookie.Some? {
      var session := FindSessionCookie(cookie.value);
      if session.Some? {
        var clear;
        db', clear := LogoutWithCookie(codec, cfg, db, session.value, now, nowSecs);
        return db', Some(clear), NoContent;
      }
    }
    return db, None, NoContent;
  }

  // ---------------------------------------------------------------------------
  // Uploads

  datatype UploadArgs = UploadArgs(filename: string, contentType: string, data: seq<Byte>)

  /**
    The fields the upload endpoints read, in order: a string `filename`, an
    optional string `content_type` (else `defaultType`), and a string `data`
    that must decode as standard base64 (RFC 4648 section 4; the decoder is
    `base64Decode`).
   */
  function UploadRequest(payload: JsonObject, defaultType: string, base64Decode: string -> Option<seq<Byte>>)
    : (r: Result<UploadArgs>)
    ensures StrField(payload, "filename").None? ==> r == Err(Validation("filename is required"))
    ensures StrField(payload, "filename").Some? && StrField(payload, "data").None? ==>
      r == Err(Validation("file data is required"))
    ensures StrField(payload, "filename").Some? && StrField(payload, "data").Some?
            && base64Decode(StrField(payload, "data").value).None? ==>
      r == Err(Validation("Invalid base64 file data"))
    ensures r.Ok? ==>
      && StrField(payload, "filename") == Some(r.value.filename)
      && Some(r.value.data) == base64Decode(StrField(payload, "data").value)
      && r.value.contentType == (if StrField(payload, "content_type").Some? then payload["content_type"].s else defaultType)
    ensures r.Err? ==> r.error.Validation? && Status(r.error) == 400
  {
    var filename := StrField(payload, "filename");
    if filename.None? then Err(Validation("filename is required"))
    else
      var ct := StrField(payload, "content_type");
      var contentType := if ct.Some? then ct.value else defaultType;
      var data := StrField(payload, "data");
      if data.None? then Err(Validation("file data is required"))
      else
        match base64Decode(data.value)
        case None => Err(Validation("Invalid base64 file data"))
        case Some(bytes) => Ok(UploadArgs(filename.value, contentType, bytes))
  }

  /** `admin_upload_image`: the content type defaults to image/jpeg. */
  method AdminUploadImage(cfg: AppConfig, files: Files, payload: JsonObject, base64Decode: string -> Option<seq<Byte>>,
                          fileId: string, reply: ImagesReply)
    returns (files': Files, r: Result<MediaUploadResult>)
    ensures UploadRequest(payload, "image/jpeg", base64Decode).Err? ==>
      files' == files && r == Err(UploadRequest(payload, "image/jpeg", base64Decode).error)
    ensures r.Ok? ==> r.value.fileType == Image
    ensures UploadRequest(payload, "image/jpeg", base64Decode).Ok? && UsesCloudflare(cfg) ==>
      files' == files && r == CloudflareImagesResult(cfg, reply)
    ensures UploadRequest(payload, "image/jpeg", base64Decode).Ok? && !UsesCloudflare(cfg) ==>
      var a := UploadRequest(payload, "image/jpeg", base64Decode).value;
      var name := LocalName("img", fileId, a.filename, a.contentType);
      files' == files[LocalPath(cfg, "images", name) := a.data]
      && r == Ok(MediaUploadResult(LocalUrl(cfg, "images", name), fileId, Image))
  {
    var args := UploadRequest(payload, "image/jpeg", base64Decode);
    if args.Err? {
      return files, Err(args.error);
    }
    files', r := UploadImage(cfg, files, args.value.data, args.value.filename, args.value.contentType, fileId, reply);
  }

  /** `admin_upload_file`: the content type defaults to application/octet-stream. */
  method AdminUploadFile(cfg: AppConfig, files: Files, payload: JsonObject, base64Decode: string -> Option<seq<Byte>>,
                         fileId: string, now: DateTime)
    returns (files': Files, r: Result<MediaUploadResult>)
    ensures r.Ok? <==> UploadRequest(payload, "application/octet-stream", base64Decode).Ok?
    ensures r.Err? ==> files' == files && r == Err(UploadRequest(payload, "application/octet-stream", base64Decode).error)
    ensures r.Ok? ==>
      var a := UploadRequest(payload, "application/octet-stream", base64Decode).value;
      r.value.fileId == fileId && r.value.fileType == FromContentType(a.contentType)
    ensures UploadRequest(payload, "application/octet-stream", base64Decode).Ok? && UsesCloudflare(cfg) ==>
      var a := UploadRequest(payload, "application/octet-stream", base64Decode).value;
      files' == files && r == UploadToR2(cfg, a.filename, a.contentType, fileId, now)
    ensures UploadRequest(payload, "application/octet-stream", base64Decode).Ok? && !UsesCloudflare(cfg) ==>
      var a := UploadRequest(payload, "application/octet-stream", base64Decode).value;
      var name := LocalName("file", fileId, a.filename, a.contentType);
      files' == files[LocalPath(cfg, "files", name) := a.data]
      && r == Ok(MediaUploadResult(LocalUrl(cfg, "files", name), fileId, FromContentType(a.contentType)))
  {
    var args := UploadRequest(payload, "application/octet-stream", base64Decode);
    if args.Err? {
      return files, Err(args.error);
    }
    files', r := UploadFile(cfg, files, args.value.data, args.value.filename, args.value.contentType, fileId, now);
  }

  /** Without a content type, an uploaded file is classified Other and given the extension "bin" unless its name has one. */
  lemma DefaultFileTypeIsOther(filename: string)
    ensures FromContentType("application/octet-stream") == Other
    ensures '.' !in filename ==> GetFileExtension(filename, "application/octet-stream") == "bin"
  {
    var ct := "application/octet-stream";
    assert ct[0] == 'a';
    assert 'd' !in ct && 'z' !in ct;
    AbsentFirstChar(ct, "document");
    AbsentFirstChar(ct, "zip");
  }

  lemma AbsentFirstChar(s: string, needle: string)
    requires |needle| > 0 && needle[0] !in s
    ensures !Contains(s, needle)
  {
    forall i | 0 <= i <= |s| ensures !StartsWith(s[i..], needle) {
      if i < |s| {
        assert s[i..][0] == s[i] != needle[0];
      }
    }
  }

  // ---------------------------------------------------------------------------
  // Restore

  /** `admin_restore_database`: a string `backup_path` is required, then the file must exist. */
  function AdminRestoreDatabase(paths: set<string>, payload: JsonObject): (r: Result<string>)
    ensures StrField(payload, "backup_path").None? ==> r == Err(Validation("backup_path is required"))
    ensures r.Ok? <==> StrField(payload, "backup_path").Some? && StrField(payload, "backup_path").value in paths
    ensures r.Ok? ==> r.value == StrField(payload, "backup_path").value
  {
    match StrField(payload, "backup_path")
    case None => Err(Validation("backup_path is required"))
    case Some(path) =>
      match RestoreDatabase(paths, path)
      case Err(e) => Err(e)
      case Ok(_) => Ok(path)
  }

  // ---------------------------------------------------------------------------
  // Audit query window

  const AuditWindowDays: nat := 30

  /**
    `admin_get_user_audit_logs`: the actions of the last 30 days, up to now.
    Subtracting the days panics below chrono's first year, and the month
    walk panics where it does.
   */
  method AdminGetUserAuditLogs(db: Db, userId: string, now: DateTime) returns (r: Outcome<seq<AuditAction>>)
    requires Valid(now) && InYearRange(now.year)
    ensures var start := SubDays(now, AuditWindowDays);
      && (r.Panicked? <==> !InYearRange(start.year) || !PanicFree(start, now))
      && (r.Returned? ==> r.result == Ok(QueryResult(db, userId, start, now)))
  {
    var start := SubDays(now, AuditWindowDays);
    if !InYearRange(start.year) {
      return Panicked;
    }
    r := GetUserAuditLogs(db, userId, start, now);
  }

  /**
    On 30 April the window starts on 31 March, and the month walk panics
    stepping to a 31 April: the endpoint fails on that day every year.
   */
  lemma AdminAuditWindowPanicsOnApril30(year: int, nanos: nat)
    requires InYearRange(year) && nanos < NanosPerDay
    ensures var now := DateTime(year, 4, 30, nanos);
      SubDays(now, AuditWindowDays) == DateTime(year, 3, 31, nanos)
      && !PanicFree(SubDays(now, AuditWindowDays), now)
  {
    var now := DateTime(year, 4, 30, nanos);
    SubDaysAdd(now, 29, 1);
    SubDaysWithinMonth(now, 29);
    var start := DateTime(year, 3, 31, nanos);
    assert SubDays(now, AuditWindowDays) == start;
    assert WalkCount(start, now) == 1 by {
      IndexOfMonth(year, 3);
      IndexOfMonth(year, 4);
    }
    IndexOfMonth(year, 4);
    assert !StepOk(start, 0);
  }
}
