# edufy CMS back end: a verified model of its core

This project models the decision logic of the edufy content-management
back end (a Rust/axum service over SQLite and a key-value store) and proves
properties of it in Dafny.

- **Audit log.** The centre is the audit log. It is sharded by month into
  tables `audit_logs_YYYY_MM`. For each user and day it keeps one open row
  and appends to that row until 50 actions or 1 MiB of JSON. It answers
  range queries across shards and drops tables older than 90 days. The
  model covers `log_action`, the rotation rule, the month walk, the query
  and the retention cleanup.
- **Around it.**
  - The blog store: local or remote key-value slots, posts, and an index
    kept newest first.
  - Blog validation, slugs and visibility.
  - The models' constructors and role names.
  - The error-to-response mapping.
  - Session tokens: revocation, cookies, and the OAuth stub's
    find-or-create rule.
  - The two request gates.
  - Media classification and storage naming.
  - Backup naming and retention.
  - The decision logic of the HTTP handlers.

**State.** The database, the key-value space, the upload directory and the
backup directory are values. Each operation that writes takes the old value
and returns the new one (`returns (db', r)`). The one object the source
changes in place through `&mut self`, `BlogPost`, is a class.

**Panics.** A Rust `unwrap` or `expect` that can fail is an explicit
`Panicked` outcome, not a precondition. This covers the month walk of the
audit query, the byte slice of the OAuth code and the 30-day subtraction
of the admin audit window.

**Parameters.** The model reads none of these itself; each is passed in:
- the clock, as one `now` read per call;
- fresh UUIDs;
- the JWT codec;
- the JSON length of an action list;
- the base64 decoder;
- RFC 3339 parsing;
- replies of the Cloudflare and Microsoft Graph services;
- the outcome of a SharePoint upload.

Modules, one per source file, plus shared definitions:

- **Shared definitions**
  - `Common`: strings, UTF-8 byte lengths, integer formatting and parsing. Its integer parsing follows `str::parse` for `i32` and `u32`.
  - `Sorting`: a stable insertion sort used as the specification of `sort_by`.
  - `Time`: calendar dates in chrono's range with day and month stepping.
  - `Store`: the SQLite tables as sequences.
  - `Config`: the configuration record.
- **One module per source file**
  - `Errors`: `src/error.rs`.
  - `Models`: `src/models.rs`.
  - `Slug`: the slug transformation shared by `src/blog.rs` and `src/models.rs`.
  - `Audit`: the month walk of `src/audit.rs`.
  - `AuditService`: the rest of `src/audit.rs`.
  - `Kv`: `src/kv.rs`.
  - `Blog`: `src/blog.rs`.
  - `Auth`: `src/auth.rs`.
  - `Middleware`: `src/middleware.rs`.
  - `Storage`: `src/storage.rs`.
  - `Backup`: `src/backup.rs`.
  - `Handlers`: `src/handlers.rs`.

## Model

| member | source | states |
|---|---|---|
| Errors.Status | src/error.rs:62-79 | Validation and Multipart give 400; Auth and Jwt give 401; NotFound gives 404; Conflict gives 409; every other variant gives 500 (each an if-and-only-if) |
| Errors.Message | src/error.rs:62-79 | Validation, NotFound, Conflict and Internal expose their own text as the message |
| Errors.IntoResponse | src/error.rs:61-89 | the status is one of 400/401/404/409/500, an exposing variant's message is its text, and the "type" field is the Display text |
| Errors.Display | src/error.rs:9-57 | each variant's Display text: its prefix ("Database error: ", "Not found: ", ...) followed by its payload, and "Internal server error" for Internal |
| Errors.MessageIndependentOfPayload | src/error.rs:47-89 | the status never depends on the error's text; the wrapping variants' message does not either; Internal's type is always "Internal server error" |
| Models.FromStr | src/models.rs:24-32 | a parsed role's name is the input string |
| Models.AsStr | src/models.rs:15-22 | the lower-case name of each of the four roles (inverted by Models.FromStr, see Models.RoleRoundTrip) |
| Models.RoleRoundTrip | src/models.rs:15-32 | `from_str(as_str(r)) == Some(r)`; exactly the four lower-case names parse (so parsing is case-sensitive); a string parses to r iff it is r's name |
| Models.GetRole | src/models.rs:74-76 | a role read back from a user has the stored name |
| Models.NewUser | src/models.rs:47-56 | the given fields are stored, google_id is None and get_role gives back the role |
| Models.NewUserWithGoogle | src/models.rs:58-72 | as NewUser, with google_id Some(the given id) |
| Models.NewAuditAction | src/models.rs:133-144 | the action is stamped now and carries the given action, resource and details |
| Models.Decode | src/audit.rs:44-45 | stored actions that fail to parse read as the empty list |
| Models.NewAuditLog | src/models.rs:111-120 | a new row has no actions and is created and updated now, with the given ids |
| Models.BlogPost.constructor | src/models.rs:165-206 | a new post's slug is `create_slug(title)`; the other fields are stored as given, with both timestamps now |
| Models.BlogPost.FromFields | src/blog.rs:297-313 | a post rebuilt from stored fields holds exactly those fields |
| Models.BlogPost.Update | src/models.rs:208-228 | the eight content fields are replaced and updated_at is set to now; id, slug, author and created_at are unchanged |
| Slug.Dashify | src/blog.rs:205-212 | same length; each alphanumeric or '-' is kept, every other character becomes '-' |
| Slug.TrimMatches | src/blog.rs:209-215 | the result is no longer, neither starts nor ends with the character, and uses only characters of the input |
| Slug.CreateSlug | src/blog.rs:201-216 | the slug has only lower-case letters, digits and '-', no leading or trailing '-', and is no longer than the title |
| Slug.CreateSlugIdempotent | src/blog.rs:201-216 | applying create_slug to a slug gives it back |
| Slug.CreateSlugKeepsRuns | src/blog.rs:201-216 | runs of separators are not collapsed: "a  b" gives "a--b" |
| Slug.CreateSlugNotInjective | src/blog.rs:201-216 | "Hello World" and "hello-world!" share the slug "hello-world" |
| Slug.TrimMatchesNoop | src/blog.rs:209-215 | trimming a string whose ends differ from the character leaves it unchanged |
| Store.FirstUser | src/auth.rs:88-96 | the user found is in the table and matches; none is found iff no row matches |
| Store.UserById | src/auth.rs:136-143 | a found user has the id and is in the table; None iff no row has the id |
| Time.DaysInMonth | src/audit.rs:246-254 | every month has 28 to 31 days; only February has fewer than 30; exactly the seven long months have 31 |
| Time.LeTotalOrder | src/audit.rs:239 | the order on instants is reflexive, total, antisymmetric and transitive |
| Time.IndexOfMonth | src/audit.rs:240 | a (year, month) pair survives the trip through its month index |
| Time.MonthOfIndex | src/audit.rs:240 | the month of any month index lies in 1..12 |
| Time.IndexRoundTrip | src/audit.rs:240 | a month index survives the trip through (year, month) |
| Time.LeByMonthIndex | src/audit.rs:239-255 | comparing instants is comparing month indexes first, then day and time of day |
| Time.WithYear | src/audit.rs:247-249 | chrono's with_year: Some iff the day exists in the new year, leaving the other fields |
| Time.WithMonth | src/audit.rs:250-253 | chrono's with_month: Some iff the day exists in the new month, leaving the other fields |
| Time.MidnightOf | src/audit.rs:292 | `with_ymd_and_hms(y, m, d, 0, 0, 0)` exists iff the date exists in chrono's range, and is then that midnight |
| Time.PrevDay | src/audit.rs:263 | the previous calendar day is valid, strictly earlier, at the same time of day |
| Time.SubDays | src/audit.rs:263 | going back n days gives a valid instant at the same time of day, strictly earlier when n > 0 |
| Time.SubDaysAdd | src/handlers.rs:301 | going back a + b days is going back a days, then b more |
| Time.SubDaysWithinMonth | src/handlers.rs:301 | within a month, going back n days only lowers the day |
| Time.YearStr | src/backup.rs:42 | `%Y` gives at least four characters |
| Time.DateStr | src/audit.rs:25 | `%Y-%m-%d` |
| Time.CompactStampStr | src/backup.rs:42 | `%Y%m%d_%H%M%S` |
| Time.Rfc3339 | src/blog.rs:46 | `to_rfc3339` of a UTC instant: date, 'T', hours, minutes and seconds, the fraction when non-zero, then `+00:00` |
| Time.FracStr | src/blog.rs:46 | the fraction of `to_rfc3339` is empty for whole seconds, else '.' followed by digits |
| Audit.TableNameInjective | src/audit.rs:134 | distinct months in chrono's range get distinct table names |
| Audit.TableOfIndexInjective | src/audit.rs:240 | table names by month index are injective |
| Audit.TableOfIsTableOfIndex | src/audit.rs:134 | the table of an instant is the table of its month index |
| Audit.TableName | src/audit.rs:134 | the name `audit_logs_<year>_<month>`, the month padded to two digits (its injectivity is Audit.TableNameInjective) |
| Audit.ParseTableDate | src/audit.rs:288-296 | splits on '_', reads parts 2 and 3 as an i32 year and a u32 month, and gives midnight on the 1st, None when there are fewer than four parts, a part does not parse or the date is outside chrono's range; a result is a valid in-range first-of-month midnight |
| Audit.SplitTableName | src/audit.rs:289 | a table name splits on '_' into "audit", "logs", the year and the two-digit month |
| Audit.ParseTableNameRoundTrip | src/audit.rs:288-296 | parse_table_date inverts the naming: midnight on the 1st of that month |
| Audit.ParseTableOfIndex | src/audit.rs:288-296 | parsing the table of month index k gives the first midnight of that month |
| Audit.FirstOfMonthIndexMonotone | src/audit.rs:288-296 | later months start at later first midnights |
| Audit.TablesFrom | src/audit.rs:239-255 | n consecutive months give n tables, the i-th that of month base + i |
| Audit.MonthTables | src/audit.rs:239-255 | the first n months from start's give n tables |
| Audit.OtherMonthsDiffer | src/audit.rs:241 | a month outside the n months from base has a table name different from each of theirs |
| Audit.InTablesFrom | src/audit.rs:241 | a month's table is among n consecutive months' tables iff the month is among them |
| Audit.ShiftLeEnd | src/audit.rs:239 | the walk's j-th instant is not after end iff j is below the walk's count |
| Audit.NextMonth | src/audit.rs:246-254 | the month step gives a valid instant when it succeeds |
| Audit.NextMonthIsShift | src/audit.rs:246-254 | the step succeeds iff the day exists in the next month, and then lands on the next shifted instant |
| Audit.GetTableNamesForRange | src/audit.rs:231-258 | the loop panics iff some step lands on a missing day; otherwise it returns the first WalkCount months' tables from start's month |
| Audit.NextTableIsNew | src/audit.rs:240-243 | each visited month's table is new, so the contains check never skips one |
| Audit.MonthTablesYears | src/audit.rs:239-255 | every visited month lies in chrono's year range |
| Audit.WalkStartsAtStartMonth | src/audit.rs:236-257 | the result is empty when start is after end, and otherwise begins with start's month |
| Audit.WalkDistinct | src/audit.rs:241-243 | the listed tables are pairwise distinct |
| Audit.WalkIncludesEndMonthIff | src/audit.rs:239-255 | end's month is listed iff end's day and time are not before start's |
| Audit.WalkPanicFreeForEarlyDays | src/audit.rs:246-254 | a start on or before the 28th never panics |
| Audit.WalkSkipsEndMonthExample | src/audit.rs:239-255 | from Jan 15 noon to Feb 10, February's table is missing |
| Audit.WalkPanicsExample | src/audit.rs:246-254 | a start on Mar 31 with end Apr 1 panics |
| Audit.WalkPanicsOnSingleInstant | src/audit.rs:246-254 | even start == end == Jan 31 panics, since the loop steps once |
| Audit.MonthSpan | src/audit.rs:239-255 | the corrected range lists end's month index minus start's, plus one, months |
| Audit.MonthSpanCovers | src/audit.rs:239-255 | the corrected range lists the table of every instant between start and end |
| AuditService.ShouldRotateRow | src/audit.rs:108-129 | no rotation iff fewer than 50 actions and the appended list's JSON is at most 1,048,576 bytes; the count is checked first |
| AuditService.ActionCountBound | src/audit.rs:48-66 | in bounded rows, one user's day holds at most 50 actions per row |
| AuditService.ManyActionsNeedManyRows | src/audit.rs:48-66 | more than 50 actions for one user's day lie in at least two rows |
| AuditService.ActionCountReplace | src/audit.rs:57-65 | replacing one row shifts the day's action count by the rows' difference |
| AuditService.ActionCountAppend | src/audit.rs:91-102 | appending a row adds its actions to the day's count |
| AuditService.EnsureAuditTable | src/audit.rs:143-174 | the table exists afterwards; others are unchanged; a new table is empty; an existing one is kept |
| AuditService.EnsureAuditTableIdempotent | src/audit.rs:146 | creating the table twice is creating it once |
| AuditService.OpenRow | src/audit.rs:32-39 | the open row is one of the user's day rows whose updated_at is greatest, the first in table order among ties; None iff there is no such row |
| AuditService.CreateNewAuditRow | src/audit.rs:79-105 | the insert succeeds iff the table exists, the user exists and the id is fresh; it then appends one singleton row; on failure nothing changes |
| AuditService.UpdateRowById | src/audit.rs:57-65 | the update by id rewrites the actions and updated_at of the rows with that id and no others |
| AuditService.LogAction | src/audit.rs:18-76 | only the current month's table may change, and it is created if missing; ids stay unique, rows stay bounded and actions stay in their month's table; the open row is appended to iff ShouldRotateRow is false, else one singleton row is inserted; Ok iff LogSucceeds: the append applies, or the user exists and the fresh id is not taken |
| AuditService.LoggedActionRecorded | src/audit.rs:41-73 | after a successful call, some row of the user's day in the month's table ends with the action |
| AuditService.AppendToRow | src/audit.rs:53-65 | the append writes exactly the checked list into the open row |
| AuditService.AppendTouchesOneRow | src/audit.rs:57-65 | with unique ids the update changes the open row only |
| AuditService.AppendKeepsInvariants | src/audit.rs:53-65 | an append keeps ids unique and rows bounded (the written list is the one checked), and keeps actions in their month |
| AuditService.InsertKeepsInvariants | src/audit.rs:79-105 | an inserted singleton row keeps ids unique and rows bounded, and keeps actions in their month |
| AuditService.CreatedLeTotal | src/audit.rs:202 | ORDER BY created_at is a total preorder |
| AuditService.ActionLeTotal | src/audit.rs:225 | ordering actions by timestamp is a total preorder |
| AuditService.KeptRows | src/audit.rs:201-209 | the kept rows are exactly the user's rows created within the window |
| AuditService.SelectRows | src/audit.rs:201-209 | the selected rows are the kept rows, ordered by created_at |
| AuditService.WindowActions | src/audit.rs:216-220 | the pushed actions are exactly those with timestamp in [start, end] |
| AuditService.InRowsActions | src/audit.rs:211-221 | an action is collected from the rows iff some row decodes to contain it within the window |
| AuditService.InTableActions | src/audit.rs:189-221 | one table contributes an action iff the action lies in the window and the table exists with a kept row holding it |
| AuditService.InTablesActions | src/audit.rs:188-222 | an action is collected iff it lies in the window, in a kept row of an existing listed table; missing tables are skipped |
| AuditService.GetUserAuditLogs | src/audit.rs:177-228 | panics iff the month walk does; otherwise returns the collected actions stably sorted by timestamp |
| AuditService.CollectRows | src/audit.rs:211-221 | the loop over the rows collects each row's in-window actions in turn |
| AuditService.CollectWindow | src/audit.rs:216-220 | the loop over one row's actions keeps exactly the in-window ones, in order |
| AuditService.QuerySortedPermutation | src/audit.rs:224-225 | the result is sorted by timestamp and is a permutation of the collected actions |
| AuditService.QueryStable | src/audit.rs:225 | actions with equal timestamps keep their collection order |
| AuditService.QueryMembers | src/audit.rs:188-225 | a returned action lies in [start, end], in a row created in [start, end], in an existing listed table |
| AuditService.CorrectedQueryExact | src/audit.rs:202 | the corrected query, with no created_at filter over every month of the range, returns exactly the user's stored actions in the window |
| AuditService.MissedActionExample | src/audit.rs:202 | a row created 2024-01-10 holding an action of 2024-01-20: a query for 2024-01-15..2024-01-31 misses that action |
| AuditService.MissedActionFoundWhenCorrected | src/audit.rs:202 | the corrected query returns the action of the same example |
| AuditService.CorrectedQueryFinds | src/audit.rs:188-222 | every stored action of the user in the window is found by the corrected query |
| AuditService.SingleRowSharded | src/audit.rs:134 | a singleton row in its action's month table is sharded |
| AuditService.CleanupOldAuditTables | src/audit.rs:261-285 | panics iff now minus 90 days leaves chrono's range; a failed listing is a Database error that drops nothing; Ok iff no expired listed table fails to drop, and then exactly the expired listed tables are gone; on a failed drop the error is that table's, it is expired and still present, every expired table listed before it is gone and the rest are unchanged; users and revocations never change |
| AuditService.DropExpiredTables | src/audit.rs:272-282 | the loop over the listed names: Ok iff no expired name fails to drop, and then every expired listed table is gone and nothing else changes; otherwise the error is the first failing expired name's, that name is still present, and exactly the expired names before it are gone |
| AuditService.FullListingKeepsUnexpired | src/audit.rs:266-283 | when the listing names exactly the stored tables, a complete run keeps exactly the tables that are not expired, and unparseable names are kept |
| AuditService.ExpiredTableName | src/audit.rs:273-274 | a month's table expires iff the month's first midnight is before the cutoff |
| AuditService.Expired | src/audit.rs:273-274 | a table expires iff its name parses to a date before the cutoff |
| AuditService.CurrentTableSurvivesCleanup | src/audit.rs:261-285 | cleanup never drops the current month's table |
| Kv.FileName | src/kv.rs:75 | the local file name is five characters longer than the key and holds no ':' |
| Kv.IsProduction | src/kv.rs:60-64 | the API token, account id and namespace id are all set |
| Kv.Get | src/kv.rs:106-150 | a value is found iff the key's slot is in the active store, and it is that slot's value |
| Kv.Put | src/kv.rs:66-104 | afterwards the key reads back the value; keys in other slots are unchanged; only the active store changes |
| Kv.Delete | src/kv.rs:152-190 | afterwards the key reads None; other slots are unchanged; deleting an absent key changes nothing |
| Kv.LocalKeysCollide | src/kv.rs:114-123 | locally "a:b" and "a_b" share one slot; remotely they do not |
| Kv.PostSlotNotIndexSlot | src/kv.rs:193-225 | no post key shares a slot with "blog:index", in either mode |
| Kv.GetBlogPost | src/kv.rs:204-212 | the read is Ok(None) iff the slot is empty, and Some(p) iff the slot holds p's JSON; otherwise a parse error |
| Kv.GetBlogIndex | src/kv.rs:224-231 | an absent index reads as empty; a stored index reads back; anything else is a parse error |
| Kv.NewerFirstTotal | src/kv.rs:253 | ordering by date_published descending is a total preorder |
| Kv.WithoutSlug | src/kv.rs:237 | retain keeps exactly the entries for other slugs |
| Kv.WithoutSlugSorted | src/kv.rs:263 | retain keeps the newest-first order |
| Kv.WithoutAbsentSlug | src/kv.rs:263 | retaining a slug with no entry leaves the index unchanged |
| Kv.UpdatedIndexMembers | src/kv.rs:233-259 | the updated index is sorted newest first and holds exactly the post's entry and the other slugs' old entries |
| Kv.UpdatedIndex | src/kv.rs:233-252 | the index without the post's slug, with the post's entry appended, stably sorted newest first (see Kv.UpdatedIndexMembers, Kv.UpdatedIndexStable) |
| Kv.UpdatedIndexUniqueSlug | src/kv.rs:237-250 | exactly one entry has the post's slug, and it is built from the post's fields |
| Kv.UpdatedIndexStable | src/kv.rs:253 | entries published at the same time keep their relative order |
| Kv.UpdatedIndexOfSortedTail | src/kv.rs:250-253 | adding the post that sorts last to a sorted index appends its entry |
| Kv.Retain | src/kv.rs:237 | the retain loop computes WithoutSlug |
| Kv.UpdateBlogIndex | src/kv.rs:233-259 | an unreadable index fails and writes nothing; otherwise the stored index becomes the updated index; no other slot changes |
| Kv.RemoveFromBlogIndex | src/kv.rs:261-269 | an unreadable index fails and writes nothing; otherwise the stored index loses the slug's entries in order; no other slot changes |
| Kv.PutBlogPost | src/kv.rs:193-202 | the post reads back; the index is updated iff it was readable; other slots are unchanged |
| Kv.DeleteBlogPost | src/kv.rs:214-222 | the post reads None; on success no index entry has the slug and the others keep their order; other slots are unchanged |
| Blog.FirstBadTagUnique | src/blog.rs:189-196 | the first failing tag is unique, so one message is chosen |
| Blog.ValidateBlogPostRequest | src/blog.rs:160-199 | Ok iff every check passes; each message (blank title, title over 200 bytes, blank body, body over 1,000,000 bytes, bad visibility, over 10 tags, blank tag, tag over 50 bytes) is given iff its check is the first to fail in source order |
| Blog.OrEmpty | src/blog.rs:42 | unwrap_or_default gives the value, or the empty string |
| Blog.LogAudit | src/blog.rs:353-362 | only the month's audit table may change; Ok iff LogSucceeds for the action with the post id and no details, which is then recorded; a failure is a Database error and leaves the month's rows unchanged |
| Blog.CreatePost | src/blog.rs:21-61 | invalid requests and existing slugs fail before anything is written; otherwise the post is stored and indexed before the audit entry, so an audit failure leaves it stored; Ok iff the request is acceptable, the slug is free, the index reads and the audit write succeeds (LogSucceeds) |
| Blog.GetPublicPost | src/blog.rs:67-75 | Some(q) iff the stored post is q and q is public; read errors pass through |
| Blog.UpdatePost | src/blog.rs:77-106 | nothing is validated; a missing slug is NotFound and writes nothing; the seven request fields are replaced and the id, slug, author and publication date are kept; the store is written before the audit; Ok iff the post exists, the index reads and the audit write succeeds |
| Blog.DeletePost | src/blog.rs:108-123 | a missing slug is NotFound and writes nothing; otherwise the post is removed from the store and the index before the audit and returned; Ok iff the post exists, the index reads and the audit write succeeds |
| Blog.PublicOnly | src/blog.rs:133-135 | exactly the public entries |
| Blog.PublicOnlySorted | src/blog.rs:133-135 | the filter keeps the newest-first order |
| Blog.PublicOnlyOfPublic | src/blog.rs:133-135 | an index of public entries passes the filter unchanged |
| Blog.ListPosts | src/blog.rs:125-138 | with private posts it is the index unchanged; otherwise the index's public entries, in order |
| Blog.CreatePostWithModel | src/blog.rs:219-273 | nothing is validated; a taken slug is a Conflict and writes nothing; otherwise the model's post is stored, with its excerpt as summary and its creation time as publication date, before the audit; Ok iff the slug is free, the index reads and the audit write succeeds |
| Blog.UpdatePostWithModel | src/blog.rs:276-351 | a missing slug is NotFound and writes nothing; otherwise the stored post keeps its id, slug and author, takes the new content fields, keeps its publication date when that parses (else now), and loses its meta; the store is written before the audit; Ok iff the post exists, the index reads and the audit write succeeds |
| Auth.AsUsize | src/auth.rs:22-24 | the cast to usize is modulo 2^64 and exact in range |
| Auth.AsI64 | src/auth.rs:29-30 | the cast to i64 wraps into [-2^63, 2^63) and is exact below 2^63 |
| Auth.IssueClaims | src/auth.rs:21-31 | the claims carry the user id and jti, with iat and exp seven days later both cast to usize |
| Auth.IssuedExpiresInSevenDays | src/auth.rs:21-40 | issued claims have exp = iat + 604800, the user as subject and the given jti |
| Auth.IssuedBeforeEpochWraps | src/auth.rs:22-24 | a clock before the epoch wraps iat to 2^64 - 1 |
| Auth.CreateJwtToken | src/auth.rs:21-40 | the token is the encoding of the issued claims; a failed encoding is a Jwt error |
| Auth.Revoked | src/auth.rs:53-57 | a token id is revoked iff some revocation row has it |
| Auth.VerifyJwtToken | src/auth.rs:43-64 | Ok iff the token decodes and its jti is not revoked, giving the claims; "Invalid token" and "Token has been revoked" otherwise |
| Auth.ExpirySecs | src/auth.rs:76-78 | the revocation expiry is exp read as i64 when chrono can represent it, else now |
| Auth.RevokeToken | src/auth.rs:67-85 | a token that does not verify fails and inserts nothing; otherwise one revocation row is added, and the token no longer verifies |
| Auth.VerifySessionCookie | src/auth.rs:132-156 | a failed token gives its own error, a missing user "User not found" and an invalid stored role "Invalid user role", all Auth errors; a verified token for a stored user with a valid role gives exactly that user's public fields |
| Auth.UserHasRole | src/auth.rs:158-173 | true iff the user exists and the stored role is the role's name |
| Auth.ParseUserRole | src/auth.rs:176-179 | Ok iff one of the four names, giving that role; otherwise "Invalid user role: " + s |
| Auth.CreateCookieString | src/auth.rs:182-196 | the cookie starts with `session=<token>; ` and ends with `; Max-Age=604800` (seven days); in development the attributes are `Path=/; HttpOnly; SameSite=Lax`, otherwise `Domain=.llacademy.ng; Path=/; Secure; HttpOnly; SameSite=None` |
| Auth.CreateLogoutCookieString | src/auth.rs:199-206 | the logout cookie is `session=; ` with the same per-environment attributes and `; Max-Age=0` |
| Auth.LogoutCookieClearsSession | src/auth.rs:199-206 | the logout cookie is the session cookie with an empty value and Max-Age=0 |
| Auth.CookieCarriesToken | src/auth.rs:182-196 | the first ';' segment of the cookie is `session=<token>` |
| Auth.SessionCookieFirstPair | src/auth.rs:182-206 | for any value without ';' and any Max-Age, the first ';' segment of the session cookie is `session=<value>` |
| Auth.LogoutWithCookie | src/auth.rs:209-217 | always returns the logout cookie; afterwards the token does not verify; users and audit are untouched |
| Auth.AsciiCodeHasGoogleId | src/auth.rs:246 | for an ASCII code the google id is "google_user_" + the first min(8, n) characters |
| Auth.GetUserByEmail | src/auth.rs:88-96 | the user found has the email; None iff no user has it |
| Auth.GetUserByGoogleId | src/auth.rs:99-107 | the user found has the google id; None iff no user has it |
| Auth.CreateUserWithGoogle | src/auth.rs:110-129 | appends one Student user with the google id, which is then found by it |
| Auth.SetGoogleId | src/auth.rs:259-265 | the rows with the id get the google id; all else is unchanged |
| Auth.GoogleOauthLogin | src/auth.rs:220-291 | an empty code or an explicitly empty state is an Auth error; the slice of the code panics iff its first 8 bytes split a character; otherwise the user is found by google id, else linked by email, else created, and a token and cookie are issued for them |
| Auth.GoogleIdOf | src/auth.rs:246 | `google_user_` followed by the first min(8, len) bytes of the code, None where that byte count falls inside a character |
| Auth.FloorBytePrefix | src/auth.rs:246 | the longest prefix of at most n UTF-8 bytes |
| Auth.CorrectedGoogleIdOf | src/auth.rs:246 | "google_user_" + a prefix of the code of at most 8 bytes, equal to the source's id where that one exists |
| Auth.BytePrefixSplitsChar | src/auth.rs:246 | a byte count that ends inside a character has no exact prefix, and the floor prefix stops before it |
| Auth.OAuthCodePanics | src/auth.rs:236-246 | seven ASCII characters then a multi-byte one: the source's slice panics, while the corrected id keeps the seven |
| Auth.OAuthCodePanicsExample | src/auth.rs:246 | the code "abcdefgé" makes the slice panic |
| Auth.Login | src/auth.rs:294-308 | always an Auth error, "Email is required" iff the email is blank |
| Middleware.HeaderStr | src/middleware.rs:25-27 | the header reads as text iff it is visible ASCII or tab |
| Middleware.BearerToken | src/middleware.rs:25-29 | a token iff the text header starts with "Bearer ", and the header is "Bearer " + token |
| Middleware.FirstSessionValue | src/middleware.rs:44-55 | None iff no trimmed segment starts with "session="; otherwise the value of the first one |
| Middleware.CookieSession | src/middleware.rs:42-57 | the session value of a Cookie header that reads as a string, None otherwise |
| Middleware.AuthDecision | src/middleware.rs:15-62 | a Bearer token decides alone; otherwise the first session cookie value; with neither, 401 |
| Middleware.Admit | src/middleware.rs:29-36 | forwards iff the session verifies, with its user; otherwise 401 |
| Middleware.FindSessionCookie | src/middleware.rs:44-55 | the scan loop returns the first session value |
| Middleware.AuthMiddleware | src/middleware.rs:15-62 | Bearer first, then the first session cookie, else 401; a forwarded user is one some token verifies to |
| Middleware.AdminMiddleware | src/middleware.rs:65-74 | passes iff a user is present with role "admin"; otherwise 403 |
| Middleware.BearerDecidesAlone | src/middleware.rs:28-35 | with a Bearer token the cookie is ignored, and a failing token gives 401 |
| Middleware.NonBearerFallsThrough | src/middleware.rs:27-42 | any other Authorization header is as good as none |
| Middleware.FirstSessionPairDecides | src/middleware.rs:44-55 | only the first session pair is verified, whatever follows |
| Middleware.NoCredentialIsUnauthorized | src/middleware.rs:61 | no Bearer token and no session cookie gives 401 |
| Middleware.UnverifiedTokenIsRejected | src/middleware.rs:15-62 | a token that fails verification is rejected in either credential form |
| Middleware.AdminGateIffAdminRole | src/middleware.rs:65-74 | behind the auth gate, the admin gate passes iff the stored user has the admin role |
| Storage.FromContentType | src/storage.rs:24-33 | an "image/" prefix gives Image, checked first; otherwise "video/" gives Video; otherwise "application/pdf" or containing "document" or "zip" gives Document; else Other |
| Storage.PrefixBeatsSubstring | src/storage.rs:24-33 | "image/zip" is Image; "video/x-document" is Video; "application/x-zip-compressed" is Document |
| Storage.ContentTypeExtension | src/storage.rs:213-224 | the table gives a non-empty lower-case extension of at most 4 characters |
| Storage.LastSegment | src/storage.rs:206-207 | the last '.' segment contains no '.' |
| Storage.UsesCloudflare | src/storage.rs:46-62 | both the Cloudflare account id and the API token are set: the condition upload_image and upload_file branch on |
| Storage.LocalName | src/storage.rs:66-95 | `<kind>-<id>.<ext>` with the extension from GetFileExtension |
| Storage.GetFileExtension | src/storage.rs:205-225 | the extension has at most 4 characters, no '.' and no ASCII upper case |
| Storage.ExtensionFromName | src/storage.rs:206-211 | a last segment of at most 4 bytes is used, lower-cased |
| Storage.TrailingDotGivesEmptyExtension | src/storage.rs:206-211 | a trailing dot gives the empty extension |
| Storage.NoDotUsesContentType | src/storage.rs:213-224 | a name without a dot uses the content-type table |
| Storage.LongSegmentUsesContentType | src/storage.rs:213-224 | a last segment over 4 bytes falls back to the table |
| Storage.LocalUrlServesPath | src/storage.rs:66-109 | the saved file's path and its URL end in the same folder and name |
| Storage.SaveImageLocally | src/storage.rs:66-86 | writes `img-<id>.<ext>` under images/, returns its URL with type Image |
| Storage.SaveFileLocally | src/storage.rs:89-109 | writes `file-<id>.<ext>` under files/, returns its URL with the content type's media type |
| Storage.CloudflareImagesResult | src/storage.rs:112-148 | Ok iff configured and the reply carries an id, giving the delivery URL; refusals and missing ids give their errors |
| Storage.R2Path | src/storage.rs:162-166 | Document goes under reports/<year>/, Video under events/<year>/, anything else under docs/; the name ends in `<id>.<ext>` |
| Storage.UploadToR2 | src/storage.rs:151-180 | Ok iff configured, with the R2 path under the media domain and the content type's media type |
| Storage.UploadImage | src/storage.rs:46-53 | Cloudflare iff both the account id and the token are set, else a local save; an uploaded image is always Image |
| Storage.UploadFile | src/storage.rs:56-63 | R2 iff configured, else a local save; always Ok with the given id and the content type's media type |
| Storage.FileFieldsNamed | src/storage.rs:186-199 | every kept field has a file name, and there are no more kept fields than parts |
| Storage.FileFieldsStep | src/storage.rs:186-199 | each step adds the part iff it has a file name |
| Storage.FileFieldsPrefix | src/storage.rs:186-199 | the file fields of a prefix of the stream are a prefix of its file fields |
| Storage.ReadableStep | src/storage.rs:186-190 | the stream read so far stays readable iff the next part arrives and, when it is a file part, its body reads; a failure there makes the whole stream unreadable |
| Storage.ExpectedUpload | src/storage.rs:190-197 | a file part's upload result has the content type's media type; in local mode it is always Ok with the given id |
| Storage.UploadPart | src/storage.rs:188-197 | with the content type defaulting to application/octet-stream: an image type goes to upload_image (the Cloudflare Images result, or a write of `images/img-<id>.<ext>` returning its URL with type Image), any other type to upload_file (the R2 result, or a write of `files/file-<id>.<ext>` returning its URL with the content type's media type); with Cloudflare the local store is untouched |
| Storage.TryAllPointwise | src/storage.rs:192-198 | a sequence of fallible uploads, the first error ending it, succeeds iff each one does, and then holds one value per element, each that element's result |
| Storage.TryAllErrorSticks | src/storage.rs:192-198 | an error among the first uploads is the error of the whole request |
| Storage.ErrorIsFinal | src/storage.rs:192-198 | the first file part whose upload fails ends the request with its error |
| Storage.UploadNth | src/storage.rs:190-197 | the upload of the k-th file part with id idOf(k) and reply replyOf(k); locally always Ok and writing one file |
| Storage.UploadFileParts | src/storage.rs:183-203 | on a readable stream the result is the in-order fold of the file parts' uploads, the first error ending it; a broken stream or unreadable body is an error; local mode is Ok iff the stream is readable, saves each file part in order and reports errors as Multipart, keeping the saves made before the failing part; with Cloudflare the local store is untouched |
| Storage.ProcessMultipartUpload | src/storage.rs:183-203 | on a readable stream the result is Uploads of the file parts, else an error; Ok iff readable in local mode; on success one result per file part, the j-th being that part's dispatched upload with id idOf(j) (so its URL, its media type and, locally, its id and saved file), and the local store is exactly the saves of all file parts in order; a local-mode error is Multipart and keeps exactly the saves of the file parts before the unreadable part; with Cloudflare nothing is stored locally |
| Storage.ProcessedUploadsPointwise | src/storage.rs:183-203 | a successful request has one result per file part, the j-th the upload of the j-th file part with its media type, and locally the id idOf(j) |
| Storage.UploadsSucceedIff | src/storage.rs:183-203 | the uploads succeed iff each file part's upload does; without Cloudflare they always succeed |
| Backup.TestConfigHasNoSharepoint | src/backup.rs:105-111 | the test configuration has backups off and SharePoint unconfigured |
| Backup.IsSharepointConfigured | src/backup.rs:105-111 | all five SharePoint settings (tenant, client id, client secret, site, drive) are set |
| Backup.BackupFileName | src/backup.rs:42-43 | `cms_backup_<YYYYmmdd_HHMMSS>.db` |
| Backup.CompressedName | src/backup.rs:53 | the backup file name followed by `.gz` |
| Backup.Stale | src/backup.rs:211-216 | a `cms_backup_*.db.gz` entry whose creation time is known and before the cutoff |
| Backup.Expired | src/backup.rs:262-270 | a listed file with a `cms_backup_*.db.gz` name, a creation time that parses as RFC 3339 and is before the cutoff, and an id |
| Backup.CompressedNameIsBackupName | src/backup.rs:42-53 | the compressed name matches `cms_backup_*.db.gz` |
| Backup.RemoveStale | src/backup.rs:208-223 | the loop over the directory removes exactly the stale backups for the given cutoff and leaves every other entry as it was |
| Backup.CleanupOldLocalBackups | src/backup.rs:204-226 | a name is kept iff it is not a `cms_backup_*.db.gz` created before now - 7 days; kept entries are unchanged |
| Backup.FreshBackupIsNotStale | src/backup.rs:53-83 | the backup just written survives the cleanup at the end of the run |
| Backup.StageBackup | src/backup.rs:46-79 | the .db copy is gone, the .db.gz is present iff no successful upload removed it (an earlier .gz of the same second keeps its creation time), and no other file changes |
| Backup.BackupDatabase | src/backup.rs:29-87 | disabled is a no-op; an existing target fails; otherwise the .db is gone, a new .db.gz remains iff the upload was not made or failed, stamped now; a .db.gz of the same second that already existed keeps its creation time and remains iff the upload was not made or failed and the local cleanup does not find it stale; every other file is kept iff the local cleanup keeps it |
| Backup.ExpiredIds | src/backup.rs:262-291 | the ids requested for deletion are at most one per listed file |
| Backup.ExpiredIdsAreExpired | src/backup.rs:262-291 | each requested id is a backup file created before the cutoff |
| Backup.FailedDeleteIsExpired | src/backup.rs:262-280 | the request that fails to send is for the next expired file, after the requests for all earlier ones, so not every delete succeeded |
| Backup.DeleteExpired | src/backup.rs:262-291 | deletes the expired ids in order, stopping at the first failed request |
| Backup.ExpiredIdsPrefix | src/backup.rs:262-291 | the ids of a prefix of the listing are a prefix of the ids |
| Backup.CleanupOldSharepointBackups | src/backup.rs:229-294 | unconfigured, a failed token or listing, or a missing folder request nothing; otherwise it deletes the expired backups with cutoff now - backup_retention_days |
| Backup.RestoreDatabase | src/backup.rs:297-313 | Ok iff the path exists; otherwise "Backup file not found: " + path |
| Handlers.StrField | src/handlers.rs:334-336 | Some iff the field is present and a string, giving that string |
| Handlers.Excerpt | src/handlers.rs:388-392 | the summary when given; otherwise the first min(150, n) characters of the body followed by "..." |
| Handlers.ShortBodyExcerpt | src/handlers.rs:431-435 | a body of at most 150 characters appears whole, followed by "..." |
| Handlers.GetPublicBlogPost | src/handlers.rs:259-275 | Ok iff the post exists and is public; a private post gives the same NotFound as a missing one |
| Handlers.PublicEndpointsAgree | src/handlers.rs:278-289 | the direct public endpoint answers every request as get_public_blog_post does |
| Handlers.GetPublicPostDirect | src/handlers.rs:278-289 | get_public_post's post, NotFound("Blog post not found") when it gives none, and its errors |
| Handlers.AdminGetPost | src/handlers.rs:209-222 | any existing post regardless of visibility; NotFound when missing; agrees with the public endpoint where that one succeeds |
| Handlers.AdminGetUser | src/handlers.rs:351-363 | Ok iff a user has the id; otherwise NotFound "User not found" |
| Handlers.AdminGetUserByEmail | src/handlers.rs:365-377 | Ok iff a user has the email; otherwise NotFound "User not found" |
| Handlers.AdminCheckUserRole | src/handlers.rs:467-485 | an unknown role name is an Auth error; otherwise true iff the stored role is that name |
| Handlers.Logout | src/handlers.rs:161-184 | always 204; the clearing cookie is sent iff a session cookie is present, and then it no longer authenticates; otherwise nothing changes |
| Handlers.UploadRequest | src/handlers.rs:494-513 | filename, then data, then base64 are required in that order, each failure a 400 Validation error; content_type defaults as given |
| Handlers.AdminUploadImage | src/handlers.rs:488-526 | field errors write nothing and are returned; the type defaults to image/jpeg; with Cloudflare the store is unchanged and the result is the Cloudflare Images result; locally `images/img-<id>.<ext>` is written and its URL returned with type Image |
| Handlers.AdminUploadFile | src/handlers.rs:528-566 | Ok iff the fields are valid, else the field error with nothing written; the type defaults to application/octet-stream; with Cloudflare the store is unchanged and the result is the R2 upload's; locally `files/file-<id>.<ext>` is written and its URL returned with the content type's media type |
| Handlers.DefaultFileTypeIsOther | src/handlers.rs:542 | the default content type classifies as Other, with extension "bin" for a name without a dot |
| Handlers.AdminRestoreDatabase | src/handlers.rs:326-348 | a missing or non-string backup_path is a Validation error; otherwise Ok iff the file exists |
| Handlers.AdminGetUserAuditLogs | src/handlers.rs:292-307 | queries [now - 30 days, now]; panics iff the subtraction leaves chrono's range or the month walk panics |
| Handlers.AdminAuditWindowPanicsOnApril30 | src/handlers.rs:300-305 | on 30 April the window starts on 31 March, and the query panics |

## Left out

- **Not part of this model.**
  - Routing, CORS, extractors and response plumbing.
  - Startup, migrations and the scheduler (`src/main.rs`).
  - Configuration loading (`src/config.rs`); the configuration is a plain record.
  - The legacy handlers that only forward to the services.
- **SQL.**
  - SQL text, the SQLite engine and indexes are not modelled. Tables are sequences of rows, and the `LIKE 'audit_logs_%'` listing is every table name.
  - The users table's unique constraints are not enforced on insert.
  - Row order: SQLite's order for rows with equal `updated_at` is unspecified. The model picks the first in table order. For equal `created_at` it keeps table order.
- **Failures of the store and the network.** These are not modelled except where an outcome is a parameter:
  - failed SQL statements, file writes, gzip and KV requests;
  - so the local backup cleanup never stops at a failing removal.
- **Opaque pieces.** Each is a parameter or a value:
  - JWT signing and decoding, serde_json and base64;
  - the Cloudflare, R2 and Microsoft Graph clients;
  - UUIDs and the clock.
- **Concurrency.** The read-modify-write race in `log_action` is not modelled; each call is atomic.
- **One clock reading per call.** A call reads the clock once (`now`, and `nowSecs` for tokens), where the source reads it several times.
- **Timestamps in tokens.** Token timestamps are integer seconds. The model does not relate them to `DateTime` values.
- AuditService.LogAction: a stored row that fails to parse is overwritten by the new action alone, as the source does. The model does not reproduce what serde_json would accept.
- Storage.GetFileExtension: lower-cases ASCII letters only; Rust's `to_lowercase` also maps non-ASCII letters.
- Storage.ExtensionFromName: lower-cases ASCII letters only; Rust's `to_lowercase` also maps non-ASCII letters. The 4-byte bound is measured in UTF-8 bytes, as `len` does.
- Slug.CreateSlug: treats ASCII letters and digits as alphanumeric; Rust's `is_alphanumeric` also accepts other Unicode letters and digits.
- Slug.Dashify: keeps ASCII letters and digits only; Rust's `is_alphanumeric` also keeps other Unicode letters and digits, which the model turns into '-'.
- Storage.ProcessMultipartUpload: the stream's own error text is abstracted to the part's reason; `text()` errors on non-file fields and network upload failures are not modelled.
- Storage.CloudflareImagesResult: the HTTP exchange is a reply value; JSON response bodies are reduced to the image id.
- Backup.BackupDatabase: the SharePoint upload, gzip and `VACUUM INTO` are reduced to their effect on the directory. A target file that already exists, which `VACUUM INTO` refuses, is the one modelled failure.
- Backup.CleanupOldSharepointBackups: a `backup_retention_days` so large that chrono's subtraction overflows (a panic) is not modelled. Delete responses are not checked, as in the source.
- Kv.Put: remote and local write failures are not modelled; the remote store behaves like the local map.
- Handlers.Logout: the `unwrap` that parses the cookie into a header value always succeeds here, since the cookie text is visible ASCII.
- Blog.UpdatePostWithModel: the stored RFC 3339 timestamps are parsed by a parameter that is assumed to yield valid dates.
- **Tests.** The integration tests are not modelled; they served as evidence only.

## Findings

| source | as written | input that shows it | evidently intended | confidence | as-written member | corrected member |
|---|---|---|---|---|---|---|
| src/audit.rs:239-255 | the month walk keeps start's day and time, so it stops before end's month when end lies earlier in its month than start did in its month | start 2024-01-15 12:00, end 2024-02-10 00:00 lists only audit_logs_2024_01 | every month from start's to end's | not executed | Audit.WalkSkipsEndMonthExample | Audit.MonthSpanCovers |
| src/audit.rs:246-254 | `with_month(..).unwrap()` panics when start's day does not exist in the next month | start 2024-03-31, end 2024-04-01 (and the admin window on any 30 April) | step by month without keeping the day | not executed | Audit.WalkPanicsExample | Audit.MonthSpan |
| src/audit.rs:202 | the row filter `created_at BETWEEN start AND end` drops a row created before start, with the actions appended to it inside the window | row created 2024-01-10 holding an action of 2024-01-20, query 2024-01-15..2024-01-31 | every stored action of the user inside the window | not executed | AuditService.MissedActionExample | AuditService.CorrectedQueryExact |
| src/auth.rs:246 | `&code[..8.min(code.len())]` slices by bytes and panics when byte 8 falls inside a character | code "abcdefgé" | take at most 8 bytes without splitting a character | not executed | Auth.OAuthCodePanics | Auth.CorrectedGoogleIdOf |
