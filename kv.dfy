/**
  The key-value store behind the blog: in development every key is a JSON
  file in the storage directory, named after the key with ':' replaced by
  '_'; in production (all three Cloudflare settings present) keys go to a
  Cloudflare KV namespace, which behaves as a map from the raw key. On top of
  it sit the blog records: one value per post under "blog:post:<slug>" and
  one index of all posts under "blog:index", kept newest first.

  Stored values are JSON text. The model keeps what that text parses as: a
  post, an index, or text that parses as neither.
 */
module Kv {
  import opened Common
  import opened Errors
  import Sorting

  datatype BlogPostKv = BlogPostKv(
    id: string,
    title: string,
    slug: string,
    summary: string,
    bodyHtml: string,
    authorId: string,
    tags: seq<string>,
    datePublished: string,
    visibility: string,
    coverImage: Option<string>,
    attachments: seq<string>,
    meta: Option<string>)

  datatype BlogIndexEntry = BlogIndexEntry(
    slug: string,
    title: string,
    summary: string,
    coverImage: Option<string>,
    datePublished: string,
    tags: seq<string>,
    visibility: string)

  /** The JSON text of a stored value, by what it parses as. */
  datatype Value = PostJson(post: BlogPostKv) | IndexJson(entries: seq<BlogIndexEntry>) | OtherText(text: string)

  /** The Cloudflare settings a store was built with. */
  datatype KvConfig = KvConfig(apiToken: Option<string>, accountId: Option<string>, namespaceId: Option<string>)

  /** The two places values can live: the local files by file name, and the remote namespace by key. */
  datatype Space = Space(files: map<string, Value>, remote: map<string, Value>)

  predicate IsProduction(kv: KvConfig) {
    kv.apiToken.Some? && kv.accountId.Some? && kv.namespaceId.Some?
  }

  /** The local file that holds `key`. */
  function FileName(key: string): (name: string)
    ensures |name| == |key| + 5 && ':' !in name
  {
    ReplaceChar(key, ':', '_') + ".json"
  }

  /** Where `key` is stored: its file name locally, the key itself remotely. */
  function Slot(kv: KvConfig, key: string): string {
    if IsProduction(kv) then key else FileName(key)
  }

  /** The map the store reads and writes under `kv`. */
  function Active(kv: KvConfig, sp: Space): map<string, Value> {
    if IsProduction(kv) then sp.remote else sp.files
  }

  function Get(kv: KvConfig, sp: Space, key: string): (r: Option<Value>)
    ensures r.Some? <==> Slot(kv, key) in Active(kv, sp)
    ensures r.Some? ==> r.value == Active(kv, sp)[Slot(kv, key)]
  {
    var m := Active(kv, sp);
    if Slot(kv, key) in m then Some(m[Slot(kv, key)]) else None
  }

  method Put(kv: KvConfig, sp: Space, key: string, v: Value) returns (sp': Space)
    ensures Get(kv, sp', key) == Some(v)
    ensures forall k :: Slot(kv, k) != Slot(kv, key) ==> Get(kv, sp', k) == Get(kv, sp, k)
    ensures IsProduction(kv) ==> sp'.files == sp.files && sp'.remote == sp.remote[key := v]
    ensures !IsProduction(kv) ==> sp'.remote == sp.remote && sp'.files == sp.files[FileName(key) := v]
  {
    if IsProduction(kv) {
      sp' := sp.(remote := sp.remote[key := v]);
    } else {
      sp' := sp.(files := sp.files[FileName(key) := v]);
    }
  }

  /** Deleting an absent key succeeds and changes nothing. */
  method Delete(kv: KvConfig, sp: Space, key: string) returns (sp': Space)
    ensures Get(kv, sp', key) == None
    ensures forall k :: Slot(kv, k) != Slot(kv, key) ==> Get(kv, sp', k) == Get(kv, sp, k)
    ensures Get(kv, sp, key) == None ==> sp' == sp
    ensures IsProduction(kv) ==> sp'.files == sp.files && sp'.remote == sp.remote - {key}
    ensures !IsProduction(kv) ==> sp'.remote == sp.remote && sp'.files == sp.files - {FileName(key)}
  {
    if IsProduction(kv) {
      sp' := sp.(remote := sp.remote - {key});
    } else if FileName(key) in sp.files {
      sp' := sp.(files := sp.files - {FileName(key)});
    } else {
      sp' := sp;
    }
  }

  /** Locally, keys that differ only in ':' versus '_' share one file; remotely they do not. */
  lemma LocalKeysCollide(kv: KvConfig, sp: Space)
    ensures !IsProduction(kv) ==> Slot(kv, "a:b") == Slot(kv, "a_b") && Get(kv, sp, "a:b") == Get(kv, sp, "a_b")
    ensures IsProduction(kv) ==> Slot(kv, "a:b") != Slot(kv, "a_b")
  {
    assert ReplaceChar("a:b", ':', '_') == "a_b";
    assert ReplaceChar("a_b", ':', '_') == "a_b";
    assert "a:b"[1] != "a_b"[1];
  }

  // ---------------------------------------------------------------------------
  // Blog records

  function PostKey(slug: string): string { "blog:post:" + slug }

  const IndexKey: string := "blog:index"

  /** No post key shares a slot with the index, in either mode. */
  lemma PostSlotNotIndexSlot(kv: KvConfig, slug: string)
    ensures Slot(kv, PostKey(slug)) != Slot(kv, IndexKey)
  {
    var p, q := Slot(kv, PostKey(slug)), Slot(kv, IndexKey);
    assert PostKey(slug)[5] == 'p' && IndexKey[5] == 'i';
    if !IsProduction(kv) {
      assert p[5] == ReplaceChar(PostKey(slug), ':', '_')[5];
      assert q[5] == ReplaceChar(IndexKey, ':', '_')[5];
    }
    assert p[5] != q[5];
  }

  function GetBlogPost(kv: KvConfig, sp: Space, slug: string): (r: Result<Option<BlogPostKv>>)
    ensures r == Ok(None) <==> Get(kv, sp, PostKey(slug)) == None
    ensures forall p :: r == Ok(Some(p)) <==> Get(kv, sp, PostKey(slug)) == Some(PostJson(p))
    ensures r.Err? ==> r.error.Anyhow?
  {
    match Get(kv, sp, PostKey(slug))
    case None => Ok(None)
    case Some(PostJson(p)) => Ok(Some(p))
    case Some(_) => Err(Anyhow("stored blog post is not valid JSON for a post"))
  }

  /** An absent index reads as the empty index. */
  function GetBlogIndex(kv: KvConfig, sp: Space): (r: Result<seq<BlogIndexEntry>>)
    ensures Get(kv, sp, IndexKey) == None ==> r == Ok([])
    ensures forall es :: Get(kv, sp, IndexKey) == Some(IndexJson(es)) ==> r == Ok(es)
    ensures r.Err? <==> Get(kv, sp, IndexKey).Some? && !Get(kv, sp, IndexKey).value.IndexJson?
    ensures r.Err? ==> r.error.Anyhow?
  {
    match Get(kv, sp, IndexKey)
    case None => Ok([])
    case Some(IndexJson(es)) => Ok(es)
    case Some(_) => Err(Anyhow("stored blog index is not valid JSON for an index"))
  }

  function EntryOf(post: BlogPostKv): (e: BlogIndexEntry) {
    BlogIndexEntry(post.slug, post.title, post.summary, post.coverImage, post.datePublished,
                   post.tags, post.visibility)
  }

  /** The index order: `a` may come before `b` when `a` was published no earlier (string order). */
  predicate NewerFirst(a: BlogIndexEntry, b: BlogIndexEntry) {
    StrLe(b.datePublished, a.datePublished)
  }

  lemma NewerFirstTotal()
    ensures Sorting.TotalPreorder(NewerFirst)
  {
    forall a: BlogIndexEntry, b: BlogIndexEntry, c: BlogIndexEntry ensures NewerFirst(a, b) || NewerFirst(b, a)
      ensures NewerFirst(a, b) && NewerFirst(b, c) ==> NewerFirst(a, c)
    {
      StrLeTotal(a.datePublished, b.datePublished);
      if NewerFirst(a, b) && NewerFirst(b, c) {
        StrLeTrans(c.datePublished, b.datePublished, a.datePublished);
      }
    }
  }

  function SlugIs(slug: string): BlogIndexEntry -> bool {
    (e: BlogIndexEntry) => e.slug == slug
  }

  /** `retain(|e| e.slug != slug)`: the entries for other slugs, in order. */
  function WithoutSlug(index: seq<BlogIndexEntry>, slug: string): (r: seq<BlogIndexEntry>)
    ensures forall e :: e in r <==> e in index && e.slug != slug
    ensures |r| <= |index|
  {
    if index == [] then []
    else
      var rest := WithoutSlug(index[..|index| - 1], slug);
      var last := index[|index| - 1];
      assert index == index[..|index| - 1] + [last];
      if last.slug != slug then rest + [last] else rest
  }

  lemma {:induction false} CountIfNone<T>(s: seq<T>, p: T -> bool)
    requires forall i :: 0 <= i < |s| ==> !p(s[i])
    ensures Sorting.CountIf(s, p) == 0
  {
    if s != [] {
      CountIfNone(s[..|s| - 1], p);
    }
  }

  /** Retaining keeps the index order. */
  lemma {:induction false} WithoutSlugSorted(index: seq<BlogIndexEntry>, slug: string)
    requires Sorting.Sorted(index, NewerFirst)
    ensures Sorting.Sorted(WithoutSlug(index, slug), NewerFirst)
  {
    if index != [] {
      var init, last := index[..|index| - 1], index[|index| - 1];
      assert Sorting.Sorted(init, NewerFirst);
      WithoutSlugSorted(init, slug);
      var rest := WithoutSlug(init, slug);
      forall i | 0 <= i < |rest| ensures NewerFirst(rest[i], last) {
        assert rest[i] in init;
        var k :| 0 <= k < |init| && init[k] == rest[i];
        assert index[k] == rest[i];
      }
    }
  }

  /** Retaining an index that has no entry for `slug` gives it back unchanged. */
  lemma {:induction false} WithoutAbsentSlug(index: seq<BlogIndexEntry>, slug: string)
    requires forall i :: 0 <= i < |index| ==> index[i].slug != slug
    ensures WithoutSlug(index, slug) == index
  {
    if index != [] {
      WithoutAbsentSlug(index[..|index| - 1], slug);
      assert index == index[..|index| - 1] + [index[|index| - 1]];
    }
  }

  /** The index after a post is written: its old entry replaced by a fresh one, re-sorted newest first. */
  function UpdatedIndex(index: seq<BlogIndexEntry>, post: BlogPostKv): seq<BlogIndexEntry> {
    Sorting.SortBy(WithoutSlug(index, post.slug) + [EntryOf(post)], NewerFirst)
  }

  /** The updated index is sorted, holds the post's entry, and keeps exactly the entries for other slugs. */
  lemma UpdatedIndexMembers(index: seq<BlogIndexEntry>, post: BlogPostKv)
    ensures Sorting.Sorted(UpdatedIndex(index, post), NewerFirst)
    ensures forall e :: e in UpdatedIndex(index, post) <==> e == EntryOf(post) || (e in index && e.slug != post.slug)
  {
    var appended := WithoutSlug(index, post.slug) + [EntryOf(post)];
    var u := UpdatedIndex(index, post);
    NewerFirstTotal();
    Sorting.SortBySortedPermutation(appended, NewerFirst);
    forall e ensures e in u <==> e in appended {
      assert e in u <==> e in multiset(u);
      assert e in appended <==> e in multiset(appended);
    }
  }

  /** Exactly one entry of the updated index has the post's slug, and it is the post's entry. */
  lemma UpdatedIndexUniqueSlug(index: seq<BlogIndexEntry>, post: BlogPostKv)
    ensures Sorting.CountIf(UpdatedIndex(index, post), SlugIs(post.slug)) == 1
    ensures forall i :: 0 <= i < |UpdatedIndex(index, post)| && UpdatedIndex(index, post)[i].slug == post.slug ==>
      UpdatedIndex(index, post)[i] == EntryOf(post)
  {
    var kept := WithoutSlug(index, post.slug);
    var u := UpdatedIndex(index, post);
    Sorting.SortByCountIf(kept + [EntryOf(post)], NewerFirst, SlugIs(post.slug));
    Sorting.CountIfConcat(kept, [EntryOf(post)], SlugIs(post.slug));
    CountIfNone(kept, SlugIs(post.slug));
    assert Sorting.CountIf([EntryOf(post)], SlugIs(post.slug)) == 1;
    forall i | 0 <= i < |u| && u[i].slug == post.slug ensures u[i] == EntryOf(post) {
      UpdatedIndexMembers(index, post);
      assert u[i] in u;
    }
  }

  /** Entries published at the same time keep their relative order, with the new entry after them. */
  lemma UpdatedIndexStable(index: seq<BlogIndexEntry>, post: BlogPostKv, y: BlogIndexEntry)
    ensures Sorting.Ties(UpdatedIndex(index, post), y, NewerFirst)
         == Sorting.Ties(WithoutSlug(index, post.slug) + [EntryOf(post)], y, NewerFirst)
  {
    NewerFirstTotal();
    Sorting.SortByStable(WithoutSlug(index, post.slug) + [EntryOf(post)], y, NewerFirst);
  }

  /** Re-writing a post that is already newest in a sorted index leaves the other entries in place. */
  lemma UpdatedIndexOfSortedTail(index: seq<BlogIndexEntry>, post: BlogPostKv)
    requires Sorting.Sorted(index, NewerFirst)
    requires forall i :: 0 <= i < |index| ==> index[i].slug != post.slug && NewerFirst(index[i], EntryOf(post))
    ensures UpdatedIndex(index, post) == index + [EntryOf(post)]
  {
    WithoutAbsentSlug(index, post.slug);
    var appended := index + [EntryOf(post)];
    assert Sorting.Sorted(appended, NewerFirst) by {
      forall i, j | 0 <= i < j < |appended| ensures NewerFirst(appended[i], appended[j]) {
        if j == |index| {
          assert appended[j] == EntryOf(post);
        } else {
          assert appended[i] == index[i] && appended[j] == index[j];
        }
      }
    }
    Sorting.SortBySorted(appended, NewerFirst);
  }

  /** The `retain` loop. */
  method Retain(index: seq<BlogIndexEntry>, slug: string) returns (kept: seq<BlogIndexEntry>)
    ensures kept == WithoutSlug(index, slug)
  {
    kept := [];
    var i := 0;
    while i < |index|
      invariant 0 <= i <= |index|
      invariant kept == WithoutSlug(index[..i], slug)
    {
      assert index[..i + 1][..i] == index[..i];
      if index[i].slug != slug {
        kept := kept + [index[i]];
      }
      i := i + 1;
    }
    assert index[..|index|] == index;
  }

  method UpdateBlogIndex(kv: KvConfig, sp: Space, post: BlogPostKv) returns (sp': Space, r: Result<()>)
    ensures GetBlogIndex(kv, sp).Err? ==> sp' == sp && r == Err(GetBlogIndex(kv, sp).error)
    ensures GetBlogIndex(kv, sp).Ok? ==>
      r.Ok? && GetBlogIndex(kv, sp') == Ok(UpdatedIndex(GetBlogIndex(kv, sp).value, post))
    ensures forall k :: Slot(kv, k) != Slot(kv, IndexKey) ==> Get(kv, sp', k) == Get(kv, sp, k)
  {
    var loaded := GetBlogIndex(kv, sp);
    if loaded.Err? {
      return sp, Err(loaded.error);
    }
    var index := Retain(loaded.value, post.slug);
    index := index + [EntryOf(post)];
    // `sort_by` sorts in place; SortBy is the stable sort it performs
    index := Sorting.SortBy(index, NewerFirst);
    sp' := Put(kv, sp, IndexKey, IndexJson(index));
    r := Ok(());
  }

  method RemoveFromBlogIndex(kv: KvConfig, sp: Space, slug: string) returns (sp': Space, r: Result<()>)
    ensures GetBlogIndex(kv, sp).Err? ==> sp' == sp && r == Err(GetBlogIndex(kv, sp).error)
    ensures GetBlogIndex(kv, sp).Ok? ==>
      r.Ok? && GetBlogIndex(kv, sp') == Ok(WithoutSlug(GetBlogIndex(kv, sp).value, slug))
    ensures forall k :: Slot(kv, k) != Slot(kv, IndexKey) ==> Get(kv, sp', k) == Get(kv, sp, k)
  {
    var loaded := GetBlogIndex(kv, sp);
    if loaded.Err? {
      return sp, Err(loaded.error);
    }
    var index := Retain(loaded.value, slug);
    sp' := Put(kv, sp, IndexKey, IndexJson(index));
    r := Ok(());
  }

  /**
    The post is stored under `slug` before the index is touched, so it reads
    back even when the index cannot be updated. The index entry is keyed by
    the post's own slug field.
   */
  method PutBlogPost(kv: KvConfig, sp: Space, slug: string, post: BlogPostKv) returns (sp': Space, r: Result<()>)
    ensures GetBlogPost(kv, sp', slug) == Ok(Some(post))
    ensures r.Ok? <==> GetBlogIndex(kv, sp).Ok?
    ensures r.Ok? ==> GetBlogIndex(kv, sp') == Ok(UpdatedIndex(GetBlogIndex(kv, sp).value, post))
    ensures r.Err? ==> r.error.Anyhow? && Get(kv, sp', IndexKey) == Get(kv, sp, IndexKey)
    ensures forall k :: Slot(kv, k) != Slot(kv, PostKey(slug)) && Slot(kv, k) != Slot(kv, IndexKey) ==>
      Get(kv, sp', k) == Get(kv, sp, k)
  {
    PostSlotNotIndexSlot(kv, slug);
    var written := Put(kv, sp, PostKey(slug), PostJson(post));
    assert GetBlogIndex(kv, written) == GetBlogIndex(kv, sp);
    sp', r := UpdateBlogIndex(kv, written, post);
  }

  /** After a delete the post is gone and no index entry names its slug. */
  method DeleteBlogPost(kv: KvConfig, sp: Space, slug: string) returns (sp': Space, r: Result<()>)
    ensures GetBlogPost(kv, sp', slug) == Ok(None)
    ensures r.Ok? <==> GetBlogIndex(kv, sp).Ok?
    ensures r.Ok? ==> GetBlogIndex(kv, sp') == Ok(WithoutSlug(GetBlogIndex(kv, sp).value, slug))
    ensures r.Ok? ==> forall e :: e in GetBlogIndex(kv, sp').value ==> e.slug != slug
    ensures r.Err? ==> r.error.Anyhow? && Get(kv, sp', IndexKey) == Get(kv, sp, IndexKey)
    ensures forall k :: Slot(kv, k) != Slot(kv, PostKey(slug)) && Slot(kv, k) != Slot(kv, IndexKey) ==>
      Get(kv, sp', k) == Get(kv, sp, k)
  {
    PostSlotNotIndexSlot(kv, slug);
    var removed := Delete(kv, sp, PostKey(slug));
    assert GetBlogIndex(kv, removed) == GetBlogIndex(kv, sp);
    sp', r := RemoveFromBlogIndex(kv, removed, slug);
  }
}
