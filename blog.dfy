/**
  The blog service: request validation, slug derivation and the create, read,
  update, delete and list operations over the key-value store, each write
  followed by an audit entry for the acting user. The store is written first
  and the audit call comes second, so a failing audit call is reported after
  the post has already been stored or deleted.

  Fresh UUIDs, the clock and the audit row id are parameters.
 */
module Blog {
  import opened Common
  import opened Time
  import opened Models
  import opened Store
  import opened Errors
  import opened Kv
  import opened Audit
  import opened AuditService
  import Slug

  datatype CreateBlogPostRequest = CreateBlogPostRequest(
    title: string,
    summary: Option<string>,
    bodyHtml: string,
    tags: seq<string>,
    visibility: string,
    coverImage: Option<string>,
    attachments: seq<string>)

  // ---------------------------------------------------------------------------
  // Validation

  const MaxTitleBytes: nat := 200
  const MaxBodyBytes: nat := 1_000_000
  const MaxTags: nat := 10
  const MaxTagBytes: nat := 50

  const TitleEmpty: string := "Title cannot be empty"
  const TitleTooLong: string := "Title cannot exceed 200 characters"
  const BodyEmpty: string := "Content cannot be empty"
  const BodyTooLong: string := "Content cannot exceed 1MB"
  const BadVisibility: string := "Visibility must be 'public' or 'private'"
  const TooManyTags: string := "Cannot have more than 10 tags"
  const TagEmpty: string := "Tags cannot be empty"
  const TagTooLong: string := "Tag cannot exceed 50 characters"

  predicate TitleOk(p: CreateBlogPostRequest) {
    !Blank(p.title) && Utf8Len(p.title) <= MaxTitleBytes
  }

  predicate BodyOk(p: CreateBlogPostRequest) {
    !Blank(p.bodyHtml) && Utf8Len(p.bodyHtml) <= MaxBodyBytes
  }

  predicate VisibilityOk(p: CreateBlogPostRequest) {
    p.visibility == "public" || p.visibility == "private"
  }

  /** The checks made before the tags are looked at one by one. */
  predicate HeadOk(p: CreateBlogPostRequest) {
    TitleOk(p) && BodyOk(p) && VisibilityOk(p) && |p.tags| <= MaxTags
  }

  predicate TagOk(t: string) {
    !Blank(t) && Utf8Len(t) <= MaxTagBytes
  }

  /** Tag `i` is the first one that fails its checks. */
  predicate FirstBadTag(tags: seq<string>, i: int) {
    0 <= i < |tags| && !TagOk(tags[i]) && forall j :: 0 <= j < i ==> TagOk(tags[j])
  }

  predicate Acceptable(p: CreateBlogPostRequest) {
    HeadOk(p) && forall i :: 0 <= i < |p.tags| ==> TagOk(p.tags[i])
  }

  lemma FirstBadTagUnique(tags: seq<string>, i: int, k: int)
    requires FirstBadTag(tags, i) && FirstBadTag(tags, k)
    ensures i == k
  {
  }

  /**
    `validate_blog_post_request`: the checks run in a fixed order and the
    first that fails names the error. Lengths are UTF-8 byte lengths.
   */
  method ValidateBlogPostRequest(p: CreateBlogPostRequest) returns (r: Result<()>)
    ensures r.Ok? <==> Acceptable(p)
    ensures r.Err? ==> r.error.Validation?
    ensures r == Err(Validation(TitleEmpty)) <==> Blank(p.title)
    ensures r == Err(Validation(TitleTooLong)) <==> !Blank(p.title) && Utf8Len(p.title) > MaxTitleBytes
    ensures r == Err(Validation(BodyEmpty)) <==> TitleOk(p) && Blank(p.bodyHtml)
    ensures r == Err(Validation(BodyTooLong)) <==>
      TitleOk(p) && !Blank(p.bodyHtml) && Utf8Len(p.bodyHtml) > MaxBodyBytes
    ensures r == Err(Validation(BadVisibility)) <==> TitleOk(p) && BodyOk(p) && !VisibilityOk(p)
    ensures r == Err(Validation(TooManyTags)) <==>
      TitleOk(p) && BodyOk(p) && VisibilityOk(p) && |p.tags| > MaxTags
    ensures r == Err(Validation(TagEmpty)) <==>
      HeadOk(p) && exists i :: FirstBadTag(p.tags, i) && Blank(p.tags[i])
    ensures r == Err(Validation(TagTooLong)) <==>
      HeadOk(p) && exists i :: FirstBadTag(p.tags, i) && !Blank(p.tags[i])
  {
    TrimEmptyIffBlank(p.title);
    TrimEmptyIffBlank(p.bodyHtml);
    if Trim(p.title) == [] {
      return Err(Validation(TitleEmpty));
    }
    if Utf8Len(p.title) > MaxTitleBytes {
      return Err(Validation(TitleTooLong));
    }
    if Trim(p.bodyHtml) == [] {
      return Err(Validation(BodyEmpty));
    }
    if Utf8Len(p.bodyHtml) > MaxBodyBytes {
      return Err(Validation(BodyTooLong));
    }
    if p.visibility !in ["public", "private"] {
      return Err(Validation(BadVisibility));
    }
    if |p.tags| > MaxTags {
      return Err(Validation(TooManyTags));
    }
    var i := 0;
    while i < |p.tags|
      invariant 0 <= i <= |p.tags|
      invariant forall j :: 0 <= j < i ==> TagOk(p.tags[j])
    {
      TrimEmptyIffBlank(p.tags[i]);
      if Trim(p.tags[i]) == [] {
        assert FirstBadTag(p.tags, i);
        forall k | FirstBadTag(p.tags, k) ensures Blank(p.tags[k]) {
          FirstBadTagUnique(p.tags, i, k);
        }
        return Err(Validation(TagEmpty));
      }
      if Utf8Len(p.tags[i]) > MaxTagBytes {
        assert FirstBadTag(p.tags, i);
        forall k | FirstBadTag(p.tags, k) ensures !Blank(p.tags[k]) {
          FirstBadTagUnique(p.tags, i, k);
        }
        return Err(Validation(TagTooLong));
      }
      i := i + 1;
    }
    return Ok(());
  }

  // ---------------------------------------------------------------------------
  // Posts

  /** `Option::unwrap_or_default` on a string. */
  function OrEmpty(s: Option<string>): (r: string)
    ensures s.Some? ==> r == s.value
    ensures s.None? ==> r == []
  {
    match s
    case Some(v) => v
    case None => []
  }

  /** The post `create_post` stores, published now. */
  function NewKvPost(p: CreateBlogPostRequest, slug: string, authorId: string, id: string, now: DateTime): BlogPostKv
    requires Valid(now)
  {
    BlogPostKv(id, p.title, slug, OrEmpty(p.summary), p.bodyHtml, authorId, p.tags, Rfc3339(now),
               p.visibility, p.coverImage, p.attachments, None)
  }

  function ConflictError(slug: string): AppError {
    Conflict("A blog post with slug '" + slug + "' already exists")
  }

  const PostNotFound: AppError := NotFound("Blog post not found")

  /** The database after at most one `log_action` call made at `now`: only the month's audit table may differ. */
  predicate AuditOnly(db: Db, db': Db, now: DateTime)
    requires Valid(now)
  {
    db'.users == db.users && db'.revocations == db.revocations && WellFormed(db')
    && db.audit.Keys <= db'.audit.Keys <= db.audit.Keys + {TableOf(now)}
    && forall t :: t in db.audit && t != TableOf(now) ==> db'.audit[t] == db.audit[t]
  }

  /** `log_audit`: the blog's audit entries carry the post id and no details. */
  method LogAudit(db: Db, userId: string, action: string, postId: string, now: DateTime, auditId: string,
                  jsonLen: seq<AuditAction> -> nat)
    returns (db': Db, r: Result<()>)
    requires Valid(now) && WellFormed(db)
    ensures AuditOnly(db, db', now)
    ensures Sharded(db) ==> Sharded(db')
    ensures r.Ok? <==> LogSucceeds(db, userId, NewAuditAction(action, Some(postId), None, now), auditId, jsonLen)
    ensures r.Err? ==> r.error.Database? && RowsOf(db'.audit, TableOf(now)) == RowsOf(db.audit, TableOf(now))
    ensures r.Ok? ==> Recorded(db', userId, NewAuditAction(action, Some(postId), None, now))
  {
    db', r := LogAction(db, userId, action, Some(postId), None, now, auditId, jsonLen);
    if r.Ok? {
      LoggedActionRecorded(db, db', userId, NewAuditAction(action, Some(postId), None, now), auditId, jsonLen);
    }
  }

  /**
    `create_post`: validate, derive the slug, refuse a slug that is taken,
    store the post (and its index entry), then audit "create_blog_post".
   */
  method CreatePost(kv: KvConfig, sp: Space, db: Db, p: CreateBlogPostRequest, authorId: string,
                    postId: string, now: DateTime, auditId: string, jsonLen: seq<AuditAction> -> nat)
    returns (sp': Space, db': Db, r: Result<BlogPostKv>)
    requires Valid(now) && WellFormed(db)
    ensures AuditOnly(db, db', now)
    ensures
      var slug := Slug.CreateSlug(p.title);
      var existing := GetBlogPost(kv, sp, slug);
      var post := NewKvPost(p, slug, authorId, postId, now);
      && (!Acceptable(p) ==> r.Err? && r.error.Validation? && sp' == sp && db' == db)
      && (Acceptable(p) && existing.Err? ==> r == Err(existing.error) && sp' == sp && db' == db)
      && (Acceptable(p) && existing.Ok? && existing.value.Some? ==>
            r == Err(ConflictError(slug)) && sp' == sp && db' == db)
      && (Acceptable(p) && existing == Ok(None) ==> GetBlogPost(kv, sp', slug) == Ok(Some(post)))
      && (r.Err? && r.error.Database? ==> GetBlogPost(kv, sp', slug) == Ok(Some(post)))
      && (r.Ok? ==>
            r.value == post && GetBlogIndex(kv, sp).Ok?
            && GetBlogIndex(kv, sp') == Ok(UpdatedIndex(GetBlogIndex(kv, sp).value, post))
            && Recorded(db', authorId, NewAuditAction("create_blog_post", Some(postId), None, now)))
    ensures r.Ok? <==>
      && Acceptable(p) && GetBlogPost(kv, sp, Slug.CreateSlug(p.title)) == Ok(None) && GetBlogIndex(kv, sp).Ok?
      && LogSucceeds(db, authorId, NewAuditAction("create_blog_post", Some(postId), None, now), auditId, jsonLen)
  {
    var checked := ValidateBlogPostRequest(p);
    if checked.Err? {
      return sp, db, Err(checked.error);
    }
    var slug := Slug.CreateSlug(p.title);
    var existing := GetBlogPost(kv, sp, slug);
    if existing.Err? {
      return sp, db, Err(existing.error);
    }
    if existing.value.Some? {
      return sp, db, Err(ConflictError(slug));
    }
    var post := NewKvPost(p, slug, authorId, postId, now);
    var stored;
    sp', stored := PutBlogPost(kv, sp, slug, post);
    if stored.Err? {
      return sp', db, Err(stored.error);
    }
    var logged;
    db', logged := LogAudit(db, authorId, "create_blog_post", post.id, now, auditId, jsonLen);
    if logged.Err? {
      return sp', db', Err(logged.error);
    }
    r := Ok(post);
  }

  /** `get_public_post`: a private post reads as absent. */
  function GetPublicPost(kv: KvConfig, sp: Space, slug: string): (r: Result<Option<BlogPostKv>>)
    ensures r.Err? <==> GetBlogPost(kv, sp, slug).Err?
    ensures forall q: BlogPostKv :: r == Ok(Some(q)) <==> GetBlogPost(kv, sp, slug) == Ok(Some(q)) && q.visibility == "public"
  {
    match GetBlogPost(kv, sp, slug)
    case Err(e) => Err(e)
    case Ok(Some(q)) => if q.visibility == "public" then Ok(Some(q)) else Ok(None)
    case Ok(None) => Ok(None)
  }

  /** `q` is `prev` with the seven fields of the request replaced and the rest kept. */
  predicate RevisedFrom(q: BlogPostKv, prev: BlogPostKv, p: CreateBlogPostRequest) {
    q.title == p.title && q.summary == OrEmpty(p.summary) && q.bodyHtml == p.bodyHtml && q.tags == p.tags
    && q.visibility == p.visibility && q.coverImage == p.coverImage && q.attachments == p.attachments
    && q.id == prev.id && q.slug == prev.slug && q.authorId == prev.authorId
    && q.datePublished == prev.datePublished && q.meta == prev.meta
  }

  /** The post stored under `slug` is a revision of `prev` by `p`. */
  predicate StoredRevision(kv: KvConfig, sp: Space, slug: string, prev: BlogPostKv, p: CreateBlogPostRequest) {
    var got := GetBlogPost(kv, sp, slug);
    got.Ok? && got.value.Some? && RevisedFrom(got.value.value, prev, p)
  }

  /**
    `update_post`: no validation; a missing post is NotFound; the fields are
    replaced and the post is stored under the same slug before the audit.
   */
  method UpdatePost(kv: KvConfig, sp: Space, db: Db, slug: string, p: CreateBlogPostRequest, authorId: string,
                    now: DateTime, auditId: string, jsonLen: seq<AuditAction> -> nat)
    returns (sp': Space, db': Db, r: Result<BlogPostKv>)
    requires Valid(now) && WellFormed(db)
    ensures AuditOnly(db, db', now)
    ensures
      var existing := GetBlogPost(kv, sp, slug);
      && (existing.Err? ==> r == Err(existing.error) && sp' == sp && db' == db)
      && (existing == Ok(None) ==> r == Err(PostNotFound) && sp' == sp && db' == db)
      && (existing.Ok? && existing.value.Some? ==> StoredRevision(kv, sp', slug, existing.value.value, p))
      && (r.Ok? ==>
            existing.Ok? && existing.value.Some? && RevisedFrom(r.value, existing.value.value, p)
            && GetBlogPost(kv, sp', slug) == Ok(Some(r.value))
            && Recorded(db', authorId, NewAuditAction("update_blog_post", Some(r.value.id), None, now)))
    ensures r.Ok? <==>
      var existing := GetBlogPost(kv, sp, slug);
      && existing.Ok? && existing.value.Some? && GetBlogIndex(kv, sp).Ok?
      && LogSucceeds(db, authorId, NewAuditAction("update_blog_post", Some(existing.value.value.id), None, now),
                     auditId, jsonLen)
  {
    var existing := GetBlogPost(kv, sp, slug);
    if existing.Err? {
      return sp, db, Err(existing.error);
    }
    if existing.value.None? {
      return sp, db, Err(PostNotFound);
    }
    var post := existing.value.value;
    post := post.(title := p.title);
    post := post.(summary := OrEmpty(p.summary));
    post := post.(bodyHtml := p.bodyHtml);
    post := post.(tags := p.tags);
    post := post.(visibility := p.visibility);
    post := post.(coverImage := p.coverImage);
    post := post.(attachments := p.attachments);
    var stored;
    sp', stored := PutBlogPost(kv, sp, slug, post);
    if stored.Err? {
      return sp', db, Err(stored.error);
    }
    var logged;
    db', logged := LogAudit(db, authorId, "update_blog_post", post.id, now, auditId, jsonLen);
    if logged.Err? {
      return sp', db', Err(logged.error);
    }
    r := Ok(post);
  }

  /** `delete_post`: a missing post is NotFound; the post is removed before the audit. */
  method DeletePost(kv: KvConfig, sp: Space, db: Db, slug: string, authorId: string,
                    now: DateTime, auditId: string, jsonLen: seq<AuditAction> -> nat)
    returns (sp': Space, db': Db, r: Result<BlogPostKv>)
    requires Valid(now) && WellFormed(db)
    ensures AuditOnly(db, db', now)
    ensures
      var existing := GetBlogPost(kv, sp, slug);
      && (existing.Err? ==> r == Err(existing.error) && sp' == sp && db' == db)
      && (existing == Ok(None) ==> r == Err(PostNotFound) && sp' == sp && db' == db)
      && (existing.Ok? && existing.value.Some? ==> GetBlogPost(kv, sp', slug) == Ok(None))
      && (r.Ok? ==>
            existing == Ok(Some(r.value)) && GetBlogIndex(kv, sp).Ok?
            && GetBlogIndex(kv, sp') == Ok(WithoutSlug(GetBlogIndex(kv, sp).value, slug))
            && Recorded(db', authorId, NewAuditAction("delete_blog_post", Some(r.value.id), None, now)))
    ensures r.Ok? <==>
      var existing := GetBlogPost(kv, sp, slug);
      && existing.Ok? && existing.value.Some? && GetBlogIndex(kv, sp).Ok?
      && LogSucceeds(db, authorId, NewAuditAction("delete_blog_post", Some(existing.value.value.id), None, now),
                     auditId, jsonLen)
  {
    var existing := GetBlogPost(kv, sp, slug);
    if existing.Err? {
      return sp, db, Err(existing.error);
    }
    if existing.value.None? {
      return sp, db, Err(PostNotFound);
    }
    var post := existing.value.value;
    var removed;
    sp', removed := DeleteBlogPost(kv, sp, slug);
    if removed.Err? {
      return sp', db, Err(removed.error);
    }
    var logged;
    db', logged := LogAudit(db, authorId, "delete_blog_post", post.id, now, auditId, jsonLen);
    if logged.Err? {
      return sp', db', Err(logged.error);
    }
    r := Ok(post);
  }

  // ---------------------------------------------------------------------------
  // Listing

  /** The public entries of the index, in index order. */
  function PublicOnly(index: seq<BlogIndexEntry>): (r: seq<BlogIndexEntry>)
    ensures forall e :: e in r <==> e in index && e.visibility == "public"
    ensures |r| <= |index|
  {
    if index == [] then []
    else
      var rest := PublicOnly(index[..|index| - 1]);
      var last := index[|index| - 1];
      assert index == index[..|index| - 1] + [last];
      if last.visibility == "public" then rest + [last] else rest
  }

  /** Filtering keeps the index order newest first. */
  lemma {:induction false} PublicOnlySorted(index: seq<BlogIndexEntry>)
    requires Sorting.Sorted(index, NewerFirst)
    ensures Sorting.Sorted(PublicOnly(index), NewerFirst)
  {
    if index != [] {
      var init, last := index[..|index| - 1], index[|index| - 1];
      assert Sorting.Sorted(init, NewerFirst);
      PublicOnlySorted(init);
      var rest := PublicOnly(init);
      forall i | 0 <= i < |rest| ensures NewerFirst(rest[i], last) {
        assert rest[i] in init;
        var k :| 0 <= k < |init| && init[k] == rest[i];
        assert index[k] == rest[i];
      }
    }
  }

  /** An index of public entries only is listed unchanged. */
  lemma {:induction false} PublicOnlyOfPublic(index: seq<BlogIndexEntry>)
    requires forall i :: 0 <= i < |index| ==> index[i].visibility == "public"
    ensures PublicOnly(index) == index
  {
    if index != [] {
      PublicOnlyOfPublic(index[..|index| - 1]);
      assert index == index[..|index| - 1] + [index[|index| - 1]];
    }
  }

  /** `list_posts`: the whole index, or only its public entries. */
  function ListPosts(kv: KvConfig, sp: Space, includePrivate: bool): (r: Result<seq<BlogIndexEntry>>)
    ensures r.Err? <==> GetBlogIndex(kv, sp).Err?
    ensures includePrivate ==> r == GetBlogIndex(kv, sp)
    ensures !includePrivate && r.Ok? ==>
      forall e :: e in r.value <==> e in GetBlogIndex(kv, sp).value && e.visibility == "public"
  {
    match GetBlogIndex(kv, sp)
    case Err(e) => Err(e)
    case Ok(index) => if includePrivate then Ok(index) else Ok(PublicOnly(index))
  }

  // ---------------------------------------------------------------------------
  // The BlogPost-model variants

  /** The stored form of a post model: the excerpt is the summary, the creation time the publication date. */
  function KvOf(b: BlogPost): (q: BlogPostKv)
    reads b
    requires Valid(b.createdAt)
  {
    BlogPostKv(b.id, b.title, b.slug, b.excerpt, b.content, b.authorId, b.tags, Rfc3339(b.createdAt),
               b.visibility, b.coverImage, b.attachments, None)
  }

  /**
    `create_post_with_model`: build the model (which derives the slug), refuse
    a taken slug, store it, audit "create_blog_post_with_model". Nothing is
    validated.
   */
  method CreatePostWithModel(kv: KvConfig, sp: Space, db: Db, title: string, content: string, excerpt: string,
                             authorId: string, tags: seq<string>, visibility: string,
                             coverImage: Option<string>, inlineImages: seq<string>, attachments: seq<string>,
                             postId: string, now: DateTime, auditId: string, jsonLen: seq<AuditAction> -> nat)
    returns (sp': Space, db': Db, r: Result<BlogPost>)
    requires Valid(now) && WellFormed(db)
    ensures AuditOnly(db, db', now)
    ensures
      var slug := Slug.CreateSlug(title);
      var existing := GetBlogPost(kv, sp, slug);
      var stored := BlogPostKv(postId, title, slug, excerpt, content, authorId, tags, Rfc3339(now),
                               visibility, coverImage, attachments, None);
      && (existing.Err? ==> r == Err(existing.error) && sp' == sp && db' == db)
      && (existing.Ok? && existing.value.Some? ==> r == Err(ConflictError(slug)) && sp' == sp && db' == db)
      && (existing == Ok(None) ==> GetBlogPost(kv, sp', slug) == Ok(Some(stored)))
      && (r.Ok? ==>
            fresh(r.value) && r.value.slug == slug && r.value.id == postId && r.value.createdAt == now
            && r.value.inlineImages == inlineImages
            && Recorded(db', authorId, NewAuditAction("create_blog_post_with_model", Some(postId), None, now)))
    ensures r.Ok? <==>
      && GetBlogPost(kv, sp, Slug.CreateSlug(title)) == Ok(None) && GetBlogIndex(kv, sp).Ok?
      && LogSucceeds(db, authorId, NewAuditAction("create_blog_post_with_model", Some(postId), None, now),
                     auditId, jsonLen)
  {
    var post := new BlogPost(postId, title, content, excerpt, authorId, tags, visibility, coverImage,
                             inlineImages, attachments, now);
    var existing := GetBlogPost(kv, sp, post.slug);
    if existing.Err? {
      return sp, db, Err(existing.error);
    }
    if existing.value.Some? {
      return sp, db, Err(ConflictError(post.slug));
    }
    var stored;
    sp', stored := PutBlogPost(kv, sp, post.slug, KvOf(post));
    if stored.Err? {
      return sp', db, Err(stored.error);
    }
    var logged;
    db', logged := LogAudit(db, authorId, "create_blog_post_with_model", post.id, now, auditId, jsonLen);
    if logged.Err? {
      return sp', db', Err(logged.error);
    }
    r := Ok(post);
  }

  /**
    `update_post_with_model`: rebuild the model from the stored post (no
    inline images; the creation time parsed back from the publication date,
    or now if it does not parse), apply `BlogPost::update`, store it under the
    same slug, audit "update_blog_post_with_model". The stored `meta` is
    dropped.
   */
  method UpdatePostWithModel(kv: KvConfig, sp: Space, db: Db, slug: string, title: string, content: string,
                             excerpt: string, tags: seq<string>, visibility: string, coverImage: Option<string>,
                             inlineImages: seq<string>, attachments: seq<string>, authorId: string,
                             now: DateTime, parseRfc3339: string -> Option<DateTime>, auditId: string,
                             jsonLen: seq<AuditAction> -> nat)
    returns (sp': Space, db': Db, r: Result<BlogPost>)
    requires Valid(now) && WellFormed(db)
    requires forall s :: parseRfc3339(s).Some? ==> Valid(parseRfc3339(s).value)
    ensures AuditOnly(db, db', now)
    ensures
      var existing := GetBlogPost(kv, sp, slug);
      && (existing.Err? ==> r == Err(existing.error) && sp' == sp && db' == db)
      && (existing == Ok(None) ==> r == Err(PostNotFound) && sp' == sp && db' == db)
      && (existing.Ok? && existing.value.Some? ==>
            var e := existing.value.value;
            var created := if parseRfc3339(e.datePublished).Some? then parseRfc3339(e.datePublished).value else now;
            GetBlogPost(kv, sp', slug)
            == Ok(Some(BlogPostKv(e.id, title, e.slug, excerpt, content, e.authorId, tags, Rfc3339(created),
                                  visibility, coverImage, attachments, None))))
      && (r.Ok? ==>
            fresh(r.value) && existing.Ok? && existing.value.Some?
            && r.value.id == existing.value.value.id && r.value.slug == existing.value.value.slug
            && r.value.inlineImages == inlineImages && r.value.updatedAt == now
            && Recorded(db', authorId, NewAuditAction("update_blog_post_with_model", Some(r.value.id), None, now)))
    ensures r.Ok? <==>
      var existing := GetBlogPost(kv, sp, slug);
      && existing.Ok? && existing.value.Some? && GetBlogIndex(kv, sp).Ok?
      && LogSucceeds(db, authorId,
                     NewAuditAction("update_blog_post_with_model", Some(existing.value.value.id), None, now),
                     auditId, jsonLen)
  {
    var existing := GetBlogPost(kv, sp, slug);
    if existing.Err? {
      return sp, db, Err(existing.error);
    }
    if existing.value.None? {
      return sp, db, Err(PostNotFound);
    }
    var e := existing.value.value;
    var created := if parseRfc3339(e.datePublished).Some? then parseRfc3339(e.datePublished).value else now;
    var post := new BlogPost.FromFields(e.id, e.slug, e.title, e.bodyHtml, e.summary, e.authorId, e.tags,
                                        e.visibility, e.coverImage, [], e.attachments, created, now);
    post.Update(title, content, excerpt, tags, visibility, coverImage, inlineImages, attachments, now);
    var stored;
    sp', stored := PutBlogPost(kv, sp, slug, KvOf(post));
    if stored.Err? {
      return sp', db, Err(stored.error);
    }
    var logged;
    db', logged := LogAudit(db, authorId, "update_blog_post_with_model", post.id, now, auditId, jsonLen);
    if logged.Err? {
      return sp', db', Err(logged.error);
    }
    r := Ok(post);
  }
}
