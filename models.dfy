/**
  The records the services store and exchange: users and their roles, token
  revocations, audit rows and the actions inside them, the blog post model
  and the claims carried by a session token. Fresh UUIDs and the current
  time are parameters of the constructors.
 */
module Models {
  import opened Common
  import opened Time
  import Slug

  // ---------------------------------------------------------------------------
  // Roles

  datatype UserRole = Admin | Teacher | Parent | Student

  function AsStr(r: UserRole): string {
    match r
    case Admin => "admin"
    case Teacher => "teacher"
    case Parent => "parent"
    case Student => "student"
  }

  /** `UserRole::from_str`: exactly the four lower-case names, case-sensitive. */
  function FromStr(s: string): (r: Option<UserRole>)
    ensures r.Some? ==> AsStr(r.value) == s
  {
    if s == "admin" then Some(Admin)
    else if s == "teacher" then Some(Teacher)
    else if s == "parent" then Some(Parent)
    else if s == "student" then Some(Student)
    else None
  }

  /** Every role survives a trip through its stored name, and no other string names a role. */
  lemma RoleRoundTrip(r: UserRole, s: string)
    ensures FromStr(AsStr(r)) == Some(r)
    ensures FromStr(s).Some? <==> s in {"admin", "teacher", "parent", "student"}
    ensures FromStr(s) == Some(r) <==> s == AsStr(r)
  {
  }

  // ---------------------------------------------------------------------------
  // Users

  datatype User = User(
    id: string,
    email: string,
    role: string,
    googleId: Option<string>,
    fullName: Option<string>,
    createdAt: DateTime)

  /** The user fields a client sees. */
  datatype UserResponse = UserResponse(id: string, email: string, role: string, fullName: Option<string>)

  function GetRole(u: User): (r: Option<UserRole>)
    ensures r.Some? ==> AsStr(r.value) == u.role
  {
    FromStr(u.role)
  }

  /** `User::new`: the role is stored by name and there is no Google account yet. */
  function NewUser(id: string, email: string, role: UserRole, fullName: Option<string>, now: DateTime): (u: User)
    ensures u.id == id && u.email == email && u.fullName == fullName && u.createdAt == now
    ensures u.googleId == None && GetRole(u) == Some(role)
  {
    RoleRoundTrip(role, []);
    User(id, email, AsStr(role), None, fullName, now)
  }

  /** `User::new_with_google`. */
  function NewUserWithGoogle(id: string, email: string, role: UserRole, googleId: string,
                             fullName: Option<string>, now: DateTime): (u: User)
    ensures u.id == id && u.email == email && u.fullName == fullName && u.createdAt == now
    ensures u.googleId == Some(googleId) && GetRole(u) == Some(role)
  {
    RoleRoundTrip(role, []);
    User(id, email, AsStr(role), Some(googleId), fullName, now)
  }

  function ToResponse(u: User): UserResponse {
    UserResponse(u.id, u.email, u.role, u.fullName)
  }

  // ---------------------------------------------------------------------------
  // Session tokens and revocations

  /** The registered claims of a session token (RFC 7519 section 4.1): subject, expiry, token id, issue time. */
  datatype Claims = Claims(sub: string, exp: int, jti: string, iat: int)

  /** One revoked token; the expiry is kept as the token's `exp`, in seconds since the Unix epoch. */
  datatype Revocation = Revocation(jti: string, userId: Option<string>, revokedAt: DateTime, expiresAtSecs: int)

  // ---------------------------------------------------------------------------
  // Audit rows

  /** One audited action; `details` is the JSON text of the optional details value. */
  datatype AuditAction = AuditAction(
    timestamp: DateTime,
    action: string,
    resourceId: Option<string>,
    details: Option<string>)

  function NewAuditAction(action: string, resourceId: Option<string>, details: Option<string>,
                          now: DateTime): (a: AuditAction)
    ensures a.timestamp == now && a.action == action && a.resourceId == resourceId && a.details == details
  {
    AuditAction(now, action, resourceId, details)
  }

  /**
    The `actions` column: the JSON array of a row's actions, or text that does
    not parse as one (any other content of the column).
   */
  datatype Payload = Actions(list: seq<AuditAction>) | Malformed(text: string)

  /** `serde_json::from_str(..).unwrap_or_else(|_| Vec::new())`: unparseable text reads as no actions. */
  function Decode(p: Payload): (list: seq<AuditAction>)
    ensures p.Actions? ==> list == p.list
    ensures p.Malformed? ==> list == []
  {
    match p
    case Actions(l) => l
    case Malformed(_) => []
  }

  datatype AuditLog = AuditLog(
    id: string,
    userId: string,
    sessionDate: string,
    actions: Payload,
    createdAt: DateTime,
    updatedAt: DateTime)

  /** `AuditLog::new`: an empty action list, created and updated now. */
  function NewAuditLog(id: string, userId: string, sessionDate: string, now: DateTime): (l: AuditLog)
    ensures l.id == id && l.userId == userId && l.sessionDate == sessionDate
    ensures Decode(l.actions) == [] && l.createdAt == now && l.updatedAt == now
  {
    AuditLog(id, userId, sessionDate, Actions([]), now, now)
  }

  // ---------------------------------------------------------------------------
  // Blog post model

  class BlogPost {
    var id: string
    var slug: string
    var title: string
    var content: string
    var excerpt: string
    var authorId: string
    var tags: seq<string>
    var visibility: string
    var coverImage: Option<string>
    var inlineImages: seq<string>
    var attachments: seq<string>
    var createdAt: DateTime
    var updatedAt: DateTime

    /** `BlogPost::new`: the slug is derived from the title. */
    constructor (id: string, title: string, content: string, excerpt: string, authorId: string,
                 tags: seq<string>, visibility: string, coverImage: Option<string>,
                 inlineImages: seq<string>, attachments: seq<string>, now: DateTime)
      ensures this.id == id && this.slug == Slug.CreateSlug(title) && this.title == title
      ensures this.content == content && this.excerpt == excerpt && this.authorId == authorId
      ensures this.tags == tags && this.visibility == visibility && this.coverImage == coverImage
      ensures this.inlineImages == inlineImages && this.attachments == attachments
      ensures this.createdAt == now && this.updatedAt == now
    {
      this.id := id;
      this.slug := Slug.CreateSlug(title);
      this.title := title;
      this.content := content;
      this.excerpt := excerpt;
      this.authorId := authorId;
      this.tags := tags;
      this.visibility := visibility;
      this.coverImage := coverImage;
      this.inlineImages := inlineImages;
      this.attachments := attachments;
      this.createdAt := now;
      this.updatedAt := now;
    }

    /** A post rebuilt from stored fields (a struct literal in the source). */
    constructor FromFields(id: string, slug: string, title: string, content: string, excerpt: string,
                           authorId: string, tags: seq<string>, visibility: string,
                           coverImage: Option<string>, inlineImages: seq<string>,
                           attachments: seq<string>, createdAt: DateTime, updatedAt: DateTime)
      ensures this.id == id && this.slug == slug && this.title == title
      ensures this.content == content && this.excerpt == excerpt && this.authorId == authorId
      ensures this.tags == tags && this.visibility == visibility && this.coverImage == coverImage
      ensures this.inlineImages == inlineImages && this.attachments == attachments
      ensures this.createdAt == createdAt && this.updatedAt == updatedAt
    {
      this.id := id;
      this.slug := slug;
      this.title := title;
      this.content := content;
      this.excerpt := excerpt;
      this.authorId := authorId;
      this.tags := tags;
      this.visibility := visibility;
      this.coverImage := coverImage;
      this.inlineImages := inlineImages;
      this.attachments := attachments;
      this.createdAt := createdAt;
      this.updatedAt := updatedAt;
    }

    /** `BlogPost::update`: replace the eight content fields and stamp the update time. */
    method Update(title: string, content: string, excerpt: string, tags: seq<string>,
                  visibility: string, coverImage: Option<string>, inlineImages: seq<string>,
                  attachments: seq<string>, now: DateTime)
      modifies this
      ensures this.title == title && this.content == content && this.excerpt == excerpt
      ensures this.tags == tags && this.visibility == visibility && this.coverImage == coverImage
      ensures this.inlineImages == inlineImages && this.attachments == attachments
      ensures this.updatedAt == now
      ensures this.id == old(this.id) && this.slug == old(this.slug)
      ensures this.authorId == old(this.authorId) && this.createdAt == old(this.createdAt)
    {
      this.title := title;
      this.content := content;
      this.excerpt := excerpt;
      this.tags := tags;
      this.visibility := visibility;
      this.coverImage := coverImage;
      this.inlineImages := inlineImages;
      this.attachments := attachments;
      this.updatedAt := now;
    }
  }
}
