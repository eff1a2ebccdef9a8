/**
  Media uploads: classifying a content type, choosing a file extension,
  and sending a file either to Cloudflare (Images for pictures, R2 for
  other files) when both Cloudflare credentials are set, or to the local
  upload directory otherwise. The upload directory is a map from path to
  bytes; Cloudflare Images' reply is a parameter. Fresh ids (UUIDs) are
  parameters.
 */
module Storage {
  import opened Common
  import opened Time
  import opened Errors
  import opened Config

  newtype Byte = x: int | 0 <= x < 256

  /** The upload directory: file path to contents. */
  type Files = map<string, seq<Byte>>

  datatype MediaType = Image | Document | Video | Other

  datatype MediaUploadResult = MediaUploadResult(url: string, fileId: string, fileType: MediaType)

  // ---------------------------------------------------------------------------
  // Classification and extensions

  /** Prefix tests come first, then the exact PDF type, then the substrings. */
  function FromContentType(ct: string): (t: MediaType)
    ensures t == Image <==> StartsWith(ct, "image/")
    ensures t == Video <==> !StartsWith(ct, "image/") && StartsWith(ct, "video/")
    ensures t == Document <==>
      && !StartsWith(ct, "image/") && !StartsWith(ct, "video/")
      && (ct == "application/pdf" || Contains(ct, "document") || Contains(ct, "zip"))
  {
    if StartsWith(ct, "image/") then Image
    else if StartsWith(ct, "video/") then Video
    else if ct == "application/pdf" then Document
    else if Contains(ct, "document") then Document
    else if Contains(ct, "zip") then Document
    else Other
  }

  /** The prefix wins over the substrings: an image type naming a zip is still an image. */
  lemma PrefixBeatsSubstring()
    ensures FromContentType("image/zip") == Image
    ensures FromContentType("video/x-document") == Video
    ensures FromContentType("application/x-zip-compressed") == Document
  {
    assert StartsWith("image/zip", "image/");
    assert StartsWith("video/x-document", "video/") && !StartsWith("video/x-document", "image/");
    var ct := "application/x-zip-compressed";
    assert !StartsWith(ct, "image/") && !StartsWith(ct, "video/");
    assert ct[14..][..3] == "zip";
    assert StartsWith(ct[14..], "zip");
  }

  predicate NoUpperAscii(s: string) {
    forall i :: 0 <= i < |s| ==> !('A' <= s[i] <= 'Z')
  }

  /** The extension for a content type when the file name gives none. */
  function ContentTypeExtension(ct: string): (e: string)
    ensures 0 < |e| <= 4 && '.' !in e && NoUpperAscii(e)
  {
    match ct
    case "image/jpeg" => "jpg"
    case "image/png" => "png"
    case "image/gif" => "gif"
    case "image/webp" => "webp"
    case "application/pdf" => "pdf"
    case "video/mp4" => "mp4"
    case "video/webm" => "webm"
    case "application/zip" => "zip"
    case _ => "bin"
  }

  function LastSegment(filename: string): (last: string)
    ensures '.' !in last
  {
    var parts := Split(filename, '.');
    parts[|parts| - 1]
  }

  /**
    `get_file_extension`: the last `.`-separated segment, lower-cased, when
    the name has a dot and the segment is at most 4 bytes; otherwise the
    content type's extension. Either way it is short, has no dot and no
    upper-case ASCII letter.
   */
  function GetFileExtension(filename: string, ct: string): (ext: string)
    ensures |ext| <= 4 && '.' !in ext && NoUpperAscii(ext)
  {
    var last := LastSegment(filename);
    if Utf8Len(last) <= 4 && last != filename then AsciiLower(last) else ContentTypeExtension(ct)
  }

  lemma {:induction false} SplitLastSegment(a: string, b: string)
    requires '.' !in b
    ensures LastSegment(a + "." + b) == b
    decreases |a|
  {
    var s := a + "." + b;
    assert s[|a|] == '.';
    var i := IndexOf(s, '.');
    if i == |a| {
      assert s[i + 1..] == b;
      assert Split(s, '.') == [s[..i]] + Split(b, '.');
    } else {
      assert i < |a|;
      assert s[i + 1..] == a[i + 1..] + "." + b;
      SplitLastSegment(a[i + 1..], b);
    }
  }

  /** A name ending in a dot and a short segment takes that segment, lower-cased. */
  lemma ExtensionFromName(stem: string, e: string, ct: string)
    requires '.' !in e && Utf8Len(e) <= 4
    ensures GetFileExtension(stem + "." + e, ct) == AsciiLower(e)
  {
    SplitLastSegment(stem, e);
  }

  /** A trailing dot gives the empty extension, not the content type's. */
  lemma TrailingDotGivesEmptyExtension(stem: string, ct: string)
    ensures GetFileExtension(stem + ".", ct) == ""
  {
    ExtensionFromName(stem, "", ct);
    assert stem + "." + "" == stem + ".";
  }

  /** A name without a dot falls back to the content type. */
  lemma NoDotUsesContentType(filename: string, ct: string)
    requires '.' !in filename
    ensures GetFileExtension(filename, ct) == ContentTypeExtension(ct)
  {
  }

  /** A segment longer than 4 bytes falls back to the content type. */
  lemma LongSegmentUsesContentType(stem: string, e: string, ct: string)
    requires '.' !in e && Utf8Len(e) > 4
    ensures GetFileExtension(stem + "." + e, ct) == ContentTypeExtension(ct)
  {
    SplitLastSegment(stem, e);
  }

  // ---------------------------------------------------------------------------
  // Where a file goes

  /** Both Cloudflare credentials are set. */
  predicate UsesCloudflare(cfg: AppConfig) {
    cfg.cloudflareAccountId.Some? && cfg.cloudflareApiToken.Some?
  }

  /** `<kind>-<id>.<ext>`, the name a local save gives a file. */
  function LocalName(kind: string, fileId: string, filename: string, ct: string): string {
    kind + "-" + fileId + "." + GetFileExtension(filename, ct)
  }

  /** The saved file's path under `<upload dir>/<folder>/` and the URL it is served at. */
  function LocalPath(cfg: AppConfig, folder: string, name: string): string {
    cfg.uploadDir + "/" + folder + "/" + name
  }

  function LocalUrl(cfg: AppConfig, folder: string, name: string): string {
    "http://localhost:" + NatStr(cfg.serverPort) + "/uploads/" + folder + "/" + name
  }

  /** The path and the URL of a local save end in the same file name. */
  lemma LocalUrlServesPath(cfg: AppConfig, folder: string, name: string)
    ensures EndsWith(LocalPath(cfg, folder, name), "/" + folder + "/" + name)
    ensures EndsWith(LocalUrl(cfg, folder, name), "/uploads/" + folder + "/" + name)
  {
    var p := LocalPath(cfg, folder, name);
    assert p == cfg.uploadDir + ("/" + folder + "/" + name);
    var u := LocalUrl(cfg, folder, name);
    assert u == "http://localhost:" + NatStr(cfg.serverPort) + ("/uploads/" + folder + "/" + name);
  }

  /** `save_image_locally`: `images/img-<id>.<ext>`, always an image. */
  method SaveImageLocally(cfg: AppConfig, files: Files, data: seq<Byte>, filename: string, ct: string, fileId: string)
    returns (files': Files, r: MediaUploadResult)
    ensures var name := LocalName("img", fileId, filename, ct);
      && files' == files[LocalPath(cfg, "images", name) := data]
      && r == MediaUploadResult(LocalUrl(cfg, "images", name), fileId, Image)
  {
    var name := LocalName("img", fileId, filename, ct);
    files' := files[LocalPath(cfg, "images", name) := data];
    r := MediaUploadResult(LocalUrl(cfg, "images", name), fileId, Image);
  }

  /** `save_file_locally`: `files/file-<id>.<ext>`, typed by its content type. */
  method SaveFileLocally(cfg: AppConfig, files: Files, data: seq<Byte>, filename: string, ct: string, fileId: string)
    returns (files': Files, r: MediaUploadResult)
    ensures var name := LocalName("file", fileId, filename, ct);
      && files' == files[LocalPath(cfg, "files", name) := data]
      && r == MediaUploadResult(LocalUrl(cfg, "files", name), fileId, FromContentType(ct))
  {
    var name := LocalName("file", fileId, filename, ct);
    files' := files[LocalPath(cfg, "files", name) := data];
    r := MediaUploadResult(LocalUrl(cfg, "files", name), fileId, FromContentType(ct));
  }

  /** What Cloudflare Images answers: success with the id it may carry, a refusal with its text, or a transport failure. */
  datatype ImagesReply = Accepted(imageId: Option<string>) | Refused(text: string) | Unreachable(reason: string)

  /** `upload_to_cloudflare_images`, given the service's reply. */
  function CloudflareImagesResult(cfg: AppConfig, reply: ImagesReply): (r: Result<MediaUploadResult>)
    ensures r.Ok? <==> UsesCloudflare(cfg) && reply.Accepted? && reply.imageId.Some?
    ensures r.Ok? ==> r.value == MediaUploadResult("https://" + cfg.mediaDomain + "/cf_images/" + reply.imageId.value,
                                                   reply.imageId.value, Image)
    ensures UsesCloudflare(cfg) && reply.Refused? ==> r == Err(Internal("Cloudflare Images upload failed: " + reply.text))
  {
    if cfg.cloudflareAccountId.None? then Err(Internal("Cloudflare account ID not configured"))
    else if cfg.cloudflareApiToken.None? then Err(Internal("Cloudflare API token not configured"))
    else match reply
      case Unreachable(reason) => Err(Reqwest(reason))
      case Refused(text) => Err(Internal("Cloudflare Images upload failed: " + text))
      case Accepted(id) =>
        if id.None? then Err(Internal("Invalid Cloudflare Images response"))
        else Ok(MediaUploadResult("https://" + cfg.mediaDomain + "/cf_images/" + id.value, id.value, Image))
  }

  /** The R2 object path: reports and videos are filed by year, everything else under docs/. */
  function R2Path(ct: string, fileId: string, ext: string, year: string): (path: string)
    ensures FromContentType(ct) == Document ==> StartsWith(path, "reports/" + year + "/")
    ensures FromContentType(ct) == Video ==> StartsWith(path, "events/" + year + "/")
    ensures FromContentType(ct) in {Image, Other} ==> StartsWith(path, "docs/")
    ensures EndsWith(path, fileId + "." + ext)
  {
    var tail := fileId + "." + ext;
    var path := match FromContentType(ct)
      case Document => "reports/" + year + "/" + tail
      case Video => "events/" + year + "/" + tail
      case _ => "docs/" + tail;
    assert path == path[..|path| - |tail|] + tail;
    path
  }

  /** `upload_to_cloudflare_r2`: the file is not sent; the result is the object's URL on the media domain. */
  function UploadToR2(cfg: AppConfig, filename: string, ct: string, fileId: string, now: DateTime): (r: Result<MediaUploadResult>)
    ensures r.Ok? <==> UsesCloudflare(cfg)
    ensures r.Ok? ==>
      && r.value.fileId == fileId && r.value.fileType == FromContentType(ct)
      && r.value.url == "https://" + cfg.mediaDomain + "/r2/" + R2Path(ct, fileId, GetFileExtension(filename, ct), YearStr(now.year))
  {
    if cfg.cloudflareAccountId.None? then Err(Internal("Cloudflare account ID not configured"))
    else if cfg.cloudflareApiToken.None? then Err(Internal("Cloudflare API token not configured"))
    else
      var path := R2Path(ct, fileId, GetFileExtension(filename, ct), YearStr(now.year));
      Ok(MediaUploadResult("https://" + cfg.mediaDomain + "/r2/" + path, fileId, FromContentType(ct)))
  }

  /** `upload_image`: Cloudflare Images when configured, else a local save; the result is always typed Image. */
  method UploadImage(cfg: AppConfig, files: Files, data: seq<Byte>, filename: string, ct: string, fileId: string,
                     reply: ImagesReply)
    returns (files': Files, r: Result<MediaUploadResult>)
    ensures UsesCloudflare(cfg) ==> files' == files && r == CloudflareImagesResult(cfg, reply)
    ensures !UsesCloudflare(cfg) ==>
      var name := LocalName("img", fileId, filename, ct);
      && files' == files[LocalPath(cfg, "images", name) := data]
      && r == Ok(MediaUploadResult(LocalUrl(cfg, "images", name), fileId, Image))
    ensures r.Ok? ==> r.value.fileType == Image
  {
    if UsesCloudflare(cfg) {
      files' := files;
      r := CloudflareImagesResult(cfg, reply);
    } else {
      var saved;
      files', saved := SaveImageLocally(cfg, files, data, filename, ct, fileId);
      r := Ok(saved);
    }
  }

  /** `upload_file`: R2 when configured, else a local save; it never fails, and the type follows the content type. */
  method UploadFile(cfg: AppConfig, files: Files, data: seq<Byte>, filename: string, ct: string, fileId: string,
                    now: DateTime)
    returns (files': Files, r: Result<MediaUploadResult>)
    ensures UsesCloudflare(cfg) ==> files' == files && r == UploadToR2(cfg, filename, ct, fileId, now)
    ensures !UsesCloudflare(cfg) ==>
      var name := LocalName("file", fileId, filename, ct);
      && files' == files[LocalPath(cfg, "files", name) := data]
      && r == Ok(MediaUploadResult(LocalUrl(cfg, "files", name), fileId, FromContentType(ct)))
    ensures r.Ok? && r.value.fileId == fileId && r.value.fileType == FromContentType(ct)
  {
    if UsesCloudflare(cfg) {
      files' := files;
      r := UploadToR2(cfg, filename, ct, fileId, now);
    } else {
      var saved;
      files', saved := SaveFileLocally(cfg, files, data, filename, ct, fileId);
      r := Ok(saved);
    }
  }

  // ---------------------------------------------------------------------------
  // Multipart uploads

  /** A part's body as read from the request: its bytes, or the error reading them gave. */
  datatype Body = Bytes(data: seq<Byte>) | Unreadable(reason: string)

  datatype Field = Field(filename: Option<string>, contentType: Option<string>, body: Body)

  /** What asking the request for its next part gives: a part, or a malformed-stream error. */
  datatype Part = Next(field: Field) | Broken(reason: string)

  function ContentTypeOf(f: Field): string {
    if f.contentType.Some? then f.contentType.value else "application/octet-stream"
  }

  predicate IsFile(p: Part) {
    p.Next? && p.field.filename.Some?
  }

  /** The file parts of a stream, in order (parts without a file name are skipped). */
  function FileFields(parts: seq<Part>): seq<Field> {
    if parts == [] then []
    else
      var init := FileFields(parts[..|parts| - 1]);
      if IsFile(parts[|parts| - 1]) then init + [parts[|parts| - 1].field] else init
  }

  /** No part fails to arrive, and every file part's body can be read. */
  predicate Readable(parts: seq<Part>) {
    forall j :: 0 <= j < |parts| ==> parts[j].Next? && (IsFile(parts[j]) ==> parts[j].field.body.Bytes?)
  }

  /** Every field kept has a file name, and there are no more of them than parts. */
  lemma {:induction false} FileFieldsNamed(parts: seq<Part>)
    ensures |FileFields(parts)| <= |parts|
    ensures forall j :: 0 <= j < |FileFields(parts)| ==> FileFields(parts)[j].filename.Some?
  {
    if parts != [] {
      var n := |parts| - 1;
      FileFieldsNamed(parts[..n]);
    }
  }

  lemma FileFieldsStep(parts: seq<Part>, i: nat)
    requires i < |parts|
    ensures FileFields(parts[..i + 1]) == FileFields(parts[..i]) + (if IsFile(parts[i]) then [parts[i].field] else [])
  {
    assert parts[..i + 1][..i] == parts[..i];
  }

  lemma ReadableStep(parts: seq<Part>, i: nat)
    requires i < |parts|
    ensures Readable(parts[..i + 1]) <==>
      Readable(parts[..i]) && parts[i].Next? && (IsFile(parts[i]) ==> parts[i].field.body.Bytes?)
    ensures !Readable(parts[..i + 1]) ==> !Readable(parts)
  {
    assert parts[..i + 1] == parts[..i] + [parts[i]];
    assert forall j :: 0 <= j <= i ==> parts[..i + 1][j] == parts[j];
  }

  /** The bytes of a readable body (an unreadable one is never uploaded). */
  function BodyData(f: Field): seq<Byte> {
    if f.body.Bytes? then f.body.data else []
  }

  /** A field's file name, empty for a field that has none. */
  function FileNameOf(f: Field): string {
    if f.filename.Some? then f.filename.value else ""
  }

  /** Where a local save puts a file part: `images/img-…` for an image type, `files/file-…` otherwise. */
  function SavedPath(cfg: AppConfig, f: Field, fileId: string): string {
    var ct := ContentTypeOf(f);
    if FromContentType(ct) == Image then LocalPath(cfg, "images", LocalName("img", fileId, FileNameOf(f), ct))
    else LocalPath(cfg, "files", LocalName("file", fileId, FileNameOf(f), ct))
  }

  /**
    The result of uploading one file part: an image type goes the way of
    `upload_image` (Cloudflare Images, or a local save under images/), any
    other type the way of `upload_file` (R2, or a local save under files/).
   */
  function ExpectedUpload(cfg: AppConfig, f: Field, fileId: string, reply: ImagesReply, now: DateTime)
    : (r: Result<MediaUploadResult>)
    ensures r.Ok? ==> r.value.fileType == FromContentType(ContentTypeOf(f))
    ensures !UsesCloudflare(cfg) ==> r.Ok? && r.value.fileId == fileId
  {
    var ct := ContentTypeOf(f);
    var name := FileNameOf(f);
    if FromContentType(ct) == Image then
      if UsesCloudflare(cfg) then CloudflareImagesResult(cfg, reply)
      else Ok(MediaUploadResult(LocalUrl(cfg, "images", LocalName("img", fileId, name, ct)), fileId, Image))
    else
      if UsesCloudflare(cfg) then UploadToR2(cfg, name, ct, fileId, now)
      else Ok(MediaUploadResult(LocalUrl(cfg, "files", LocalName("file", fileId, name, ct)), fileId, FromContentType(ct)))
  }

  /** `files` after saving the body of each of `fs` in turn, the `k`-th at path `at(f, k)`. */
  function SaveAll(files: Files, fs: seq<Field>, at: (Field, nat) -> string): Files {
    if fs == [] then files
    else
      var n := |fs| - 1;
      SaveAll(files, fs[..n], at)[at(fs[n], n) := BodyData(fs[n])]
  }

  lemma SaveAllSnoc(files: Files, fs: seq<Field>, f: Field, at: (Field, nat) -> string)
    ensures SaveAll(files, fs + [f], at) == SaveAll(files, fs, at)[at(f, |fs|) := BodyData(f)]
  {
    assert (fs + [f])[..|fs|] == fs;
  }

  /** The path of the `k`-th file part's local save, with id `idOf(k)`. */
  function SavedAt(cfg: AppConfig, idOf: nat -> string): (Field, nat) -> string {
    (f: Field, k: nat) => SavedPath(cfg, f, idOf(k))
  }

  /** The local store after saving each of `fs` in turn, the `k`-th under id `idOf(k)`. */
  function LocalWrites(cfg: AppConfig, files: Files, fs: seq<Field>, idOf: nat -> string): Files {
    SaveAll(files, fs, SavedAt(cfg, idOf))
  }

  /** One file part's upload, dispatched on whether its type is an image type. */
  method UploadPart(cfg: AppConfig, files: Files, field: Field, fileId: string, reply: ImagesReply, now: DateTime)
    returns (files': Files, r: Result<MediaUploadResult>)
    requires field.filename.Some? && field.body.Bytes?
    ensures var ct, name := ContentTypeOf(field), field.filename.value;
      FromContentType(ct) == Image ==>
        && (UsesCloudflare(cfg) ==> files' == files && r == CloudflareImagesResult(cfg, reply))
        && (!UsesCloudflare(cfg) ==>
              var local := LocalName("img", fileId, name, ct);
              && files' == files[LocalPath(cfg, "images", local) := field.body.data]
              && r == Ok(MediaUploadResult(LocalUrl(cfg, "images", local), fileId, Image)))
    ensures var ct, name := ContentTypeOf(field), field.filename.value;
      FromContentType(ct) != Image ==>
        && (UsesCloudflare(cfg) ==> files' == files && r == UploadToR2(cfg, name, ct, fileId, now))
        && (!UsesCloudflare(cfg) ==>
              var local := LocalName("file", fileId, name, ct);
              && files' == files[LocalPath(cfg, "files", local) := field.body.data]
              && r == Ok(MediaUploadResult(LocalUrl(cfg, "files", local), fileId, FromContentType(ct))))
    ensures r == ExpectedUpload(cfg, field, fileId, reply, now)
    ensures !UsesCloudflare(cfg) ==> files' == files[SavedPath(cfg, field, fileId) := BodyData(field)]
  {
    var ct := ContentTypeOf(field);
    if FromContentType(ct) == Image {
      files', r := UploadImage(cfg, files, field.body.data, field.filename.value, ct, fileId, reply);
    } else {
      files', r := UploadFile(cfg, files, field.body.data, field.filename.value, ct, fileId, now);
    }
  }

  /**
    Each of `xs` in turn through `f` (the `k`-th with index `k`): the first
    error ends the lot, otherwise all the values in order.
   */
  function TryAll<A, B>(xs: seq<A>, f: (A, nat) -> Result<B>): Result<seq<B>> {
    if xs == [] then Ok([])
    else
      var n := |xs| - 1;
      var init := TryAll(xs[..n], f);
      if init.Err? then init
      else
        var last := f(xs[n], n);
        if last.Err? then Err(last.error) else Ok(init.value + [last.value])
  }

  lemma TryAllSnoc<A, B>(xs: seq<A>, x: A, f: (A, nat) -> Result<B>)
    ensures var init, last := TryAll(xs, f), f(x, |xs|);
      TryAll(xs + [x], f) == if init.Err? then init else if last.Err? then Err(last.error) else Ok(init.value + [last.value])
  {
    assert (xs + [x])[..|xs|] == xs;
  }

  /** `TryAll` succeeds exactly when every element does, and then holds each element's value at its index. */
  lemma {:induction false} TryAllPointwise<A, B>(xs: seq<A>, f: (A, nat) -> Result<B>)
    ensures TryAll(xs, f).Ok? <==> forall j :: 0 <= j < |xs| ==> f(xs[j], j).Ok?
    ensures TryAll(xs, f).Ok? ==>
      |TryAll(xs, f).value| == |xs| && forall j :: 0 <= j < |xs| ==> f(xs[j], j) == Ok(TryAll(xs, f).value[j])
  {
    if xs != [] {
      var n := |xs| - 1;
      TryAllPointwise(xs[..n], f);
      assert forall j :: 0 <= j < n ==> xs[..n][j] == xs[j];
    }
  }

  /** An error among the first `k` elements is the error of the whole. */
  lemma {:induction false} TryAllErrorSticks<A, B>(xs: seq<A>, f: (A, nat) -> Result<B>, k: nat)
    requires k <= |xs|
    requires TryAll(xs[..k], f).Err?
    ensures TryAll(xs, f) == TryAll(xs[..k], f)
  {
    if k < |xs| {
      var n := |xs| - 1;
      assert xs[..n][..k] == xs[..k];
      TryAllErrorSticks(xs[..n], f, k);
    } else {
      assert xs[..k] == xs;
    }
  }

  /** The `k`-th file part's upload, with id `idOf(k)` and reply `replyOf(k)`. */
  function UploadOf(cfg: AppConfig, idOf: nat -> string, replyOf: nat -> ImagesReply, now: DateTime)
    : (Field, nat) -> Result<MediaUploadResult>
  {
    (f: Field, k: nat) => ExpectedUpload(cfg, f, idOf(k), replyOf(k), now)
  }

  /** The reference result of a request's uploads: each file field's upload in order, the first error ending the lot. */
  function Uploads(cfg: AppConfig, fs: seq<Field>, idOf: nat -> string, replyOf: nat -> ImagesReply, now: DateTime)
    : Result<seq<MediaUploadResult>>
  {
    TryAll(fs, UploadOf(cfg, idOf, replyOf, now))
  }

  lemma {:induction false} FileFieldsAppend(a: seq<Part>, b: seq<Part>)
    ensures FileFields(a + b) == FileFields(a) + FileFields(b)
  {
    if b == [] {
      assert a + b == a;
    } else {
      var n := |b| - 1;
      FileFieldsAppend(a, b[..n]);
      assert (a + b)[..|a| + n] == a + b[..n];
    }
  }

  /** The file fields of a prefix of the stream are a prefix of its file fields. */
  lemma FileFieldsPrefix(parts: seq<Part>, i: nat)
    requires i <= |parts|
    ensures |FileFields(parts[..i])| <= |FileFields(parts)|
    ensures FileFields(parts)[..|FileFields(parts[..i])|] == FileFields(parts[..i])
  {
    assert parts == parts[..i] + parts[i..];
    FileFieldsAppend(parts[..i], parts[i..]);
  }

  /** A file field that fails after the ones before it succeeded ends the whole fold with its error. */
  lemma ErrorIsFinal<B>(parts: seq<Part>, i: nat, fs: seq<Field>, x: Field, f: (Field, nat) -> Result<B>)
    requires i < |parts|
    requires FileFields(parts[..i + 1]) == fs + [x]
    requires TryAll(fs, f).Ok? && f(x, |fs|).Err?
    ensures TryAll(FileFields(parts), f) == Err(f(x, |fs|).error)
  {
    TryAllSnoc(fs, x, f);
    FileFieldsPrefix(parts, i + 1);
    TryAllErrorSticks(FileFields(parts), f, |FileFields(parts[..i + 1])|);
  }

  /** `UploadPart` for the `k`-th file part, seen through `up` and `at`. */
  method UploadNth(cfg: AppConfig, files: Files, field: Field, k: nat, idOf: nat -> string,
                   replyOf: nat -> ImagesReply, now: DateTime,
                   ghost up: (Field, nat) -> Result<MediaUploadResult>, ghost at: (Field, nat) -> string)
    returns (files': Files, r: Result<MediaUploadResult>)
    requires field.filename.Some? && field.body.Bytes?
    requires forall g: Field, k: nat {:trigger ExpectedUpload(cfg, g, idOf(k), replyOf(k), now)} ::
      up(g, k) == ExpectedUpload(cfg, g, idOf(k), replyOf(k), now)
    requires forall g: Field, k: nat {:trigger SavedPath(cfg, g, idOf(k))} :: at(g, k) == SavedPath(cfg, g, idOf(k))
    ensures r == up(field, k)
    ensures !UsesCloudflare(cfg) ==> r.Ok?
    ensures UsesCloudflare(cfg) ==> files' == files
    ensures !UsesCloudflare(cfg) ==> files' == files[at(field, k) := BodyData(field)]
  {
    files', r := UploadPart(cfg, files, field, idOf(k), replyOf(k), now);
  }

  /**
    The loop of `process_multipart_upload`, stated over `up` and `at`, which
    stand for the `k`-th file part's upload and local path: each file part in
    turn goes to `upload_image` when its type is an image type and to
    `upload_file` otherwise; the first error ends the whole request, keeping
    what was already saved.
   */
  method UploadFileParts(cfg: AppConfig, files: Files, parts: seq<Part>, idOf: nat -> string,
                         replyOf: nat -> ImagesReply, now: DateTime,
                         ghost up: (Field, nat) -> Result<MediaUploadResult>, ghost at: (Field, nat) -> string)
    returns (files': Files, r: Result<seq<MediaUploadResult>>)
    requires forall g: Field, k: nat {:trigger ExpectedUpload(cfg, g, idOf(k), replyOf(k), now)} ::
      up(g, k) == ExpectedUpload(cfg, g, idOf(k), replyOf(k), now)
    requires forall g: Field, k: nat {:trigger SavedPath(cfg, g, idOf(k))} :: at(g, k) == SavedPath(cfg, g, idOf(k))
    ensures Readable(parts) ==> r == TryAll(FileFields(parts), up)
    ensures !Readable(parts) ==> r.Err?
    ensures !UsesCloudflare(cfg) ==> (r.Ok? <==> Readable(parts))
    ensures r.Ok? && !UsesCloudflare(cfg) ==> files' == SaveAll(files, FileFields(parts), at)
    ensures UsesCloudflare(cfg) ==> files' == files
    ensures r.Err? && !UsesCloudflare(cfg) ==> r.error.Multipart?
    ensures r.Err? && !UsesCloudflare(cfg) ==>
      exists i :: 0 <= i < |parts| && Readable(parts[..i]) && !Readable(parts[..i + 1])
        && files' == SaveAll(files, FileFields(parts[..i]), at)
  {
    var results: seq<MediaUploadResult> := [];
    ghost var fs: seq<Field> := [];
    files' := files;
    var i := 0;
    while i < |parts|
      invariant 0 <= i <= |parts|
      invariant Readable(parts[..i])
      invariant fs == FileFields(parts[..i]) && |results| == |fs|
      invariant TryAll(fs, up) == Ok(results)
      invariant UsesCloudflare(cfg) ==> files' == files
      invariant !UsesCloudflare(cfg) ==> files' == SaveAll(files, fs, at)
    {
      ReadableStep(parts, i);
      if parts[i].Broken? {
        assert !Readable(parts[..i + 1]);
        return files', Err(Multipart(parts[i].reason));
      }
      var field := parts[i].field;
      FileFieldsStep(parts, i);
      if field.filename.Some? {
        if field.body.Unreadable? {
          assert !Readable(parts[..i + 1]);
          return files', Err(Multipart(field.body.reason));
        }
        var uploaded;
        files', uploaded := UploadNth(cfg, files', field, |results|, idOf, replyOf, now, up, at);
        if uploaded.Err? {
          ErrorIsFinal(parts, i, fs, field, up);
          return files', Err(uploaded.error);
        }
        TryAllSnoc(fs, field, up);
        SaveAllSnoc(files, fs, field, at);
        fs, results := fs + [field], results + [uploaded.value];
      }
      i := i + 1;
    }
    assert parts[..|parts|] == parts;
    r := Ok(results);
  }

  /**
    `process_multipart_upload`: the `k`-th file part's upload draws id
    `idOf(k)` and, for Cloudflare Images, reply `replyOf(k)`.
   */
  method ProcessMultipartUpload(cfg: AppConfig, files: Files, parts: seq<Part>, idOf: nat -> string,
                                replyOf: nat -> ImagesReply, now: DateTime)
    returns (files': Files, r: Result<seq<MediaUploadResult>>)
    ensures Readable(parts) ==> r == Uploads(cfg, FileFields(parts), idOf, replyOf, now)
    ensures !Readable(parts) ==> r.Err?
    ensures !UsesCloudflare(cfg) ==> (r.Ok? <==> Readable(parts))
    ensures r.Ok? ==> |r.value| == |FileFields(parts)|
    ensures r.Ok? ==> forall j :: 0 <= j < |r.value| ==>
      ExpectedUpload(cfg, FileFields(parts)[j], idOf(j), replyOf(j), now) == Ok(r.value[j])
    ensures r.Ok? ==> forall j :: 0 <= j < |r.value| ==> r.value[j].fileType == FromContentType(ContentTypeOf(FileFields(parts)[j]))
    ensures r.Ok? && !UsesCloudflare(cfg) ==> forall j :: 0 <= j < |r.value| ==> r.value[j].fileId == idOf(j)
    ensures r.Ok? && !UsesCloudflare(cfg) ==> files' == LocalWrites(cfg, files, FileFields(parts), idOf)
    ensures UsesCloudflare(cfg) ==> files' == files
    ensures r.Err? && !UsesCloudflare(cfg) ==> r.error.Multipart?
    ensures r.Err? && !UsesCloudflare(cfg) ==>
      exists i :: 0 <= i < |parts| && Readable(parts[..i]) && !Readable(parts[..i + 1])
        && files' == LocalWrites(cfg, files, FileFields(parts[..i]), idOf)
  {
    files', r := UploadFileParts(cfg, files, parts, idOf, replyOf, now, UploadOf(cfg, idOf, replyOf, now), SavedAt(cfg, idOf));
    if r.Ok? {
      ProcessedUploadsPointwise(cfg, parts, r.value, idOf, replyOf, now);
    }
  }

  /** A successful request holds, at each index, the dispatched upload of the file field there. */
  lemma ProcessedUploadsPointwise(cfg: AppConfig, parts: seq<Part>, rs: seq<MediaUploadResult>, idOf: nat -> string,
                                  replyOf: nat -> ImagesReply, now: DateTime)
    requires Uploads(cfg, FileFields(parts), idOf, replyOf, now) == Ok(rs)
    ensures |rs| == |FileFields(parts)|
    ensures forall j :: 0 <= j < |rs| ==> ExpectedUpload(cfg, FileFields(parts)[j], idOf(j), replyOf(j), now) == Ok(rs[j])
    ensures forall j :: 0 <= j < |rs| ==> rs[j].fileType == FromContentType(ContentTypeOf(FileFields(parts)[j]))
    ensures !UsesCloudflare(cfg) ==> forall j :: 0 <= j < |rs| ==> rs[j].fileId == idOf(j)
  {
    var up := UploadOf(cfg, idOf, replyOf, now);
    TryAllPointwise(FileFields(parts), up);
  }

  /** A request's uploads succeed exactly when each file field's upload does; in local mode they always do. */
  lemma UploadsSucceedIff(cfg: AppConfig, fs: seq<Field>, idOf: nat -> string, replyOf: nat -> ImagesReply, now: DateTime)
    ensures Uploads(cfg, fs, idOf, replyOf, now).Ok? <==>
      forall j :: 0 <= j < |fs| ==> ExpectedUpload(cfg, fs[j], idOf(j), replyOf(j), now).Ok?
    ensures !UsesCloudflare(cfg) ==> Uploads(cfg, fs, idOf, replyOf, now).Ok?
  {
    TryAllPointwise(fs, UploadOf(cfg, idOf, replyOf, now));
  }

}
