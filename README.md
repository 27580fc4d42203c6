# reddit-database, modelled in Dafny

This project models the two record-processing scripts of the reddit-database
repository and proves what they do with the data they handle.

- **The dump importer** (`reddit_import_script.py`) reads Pushshift
  `*_submissions.zst` and `*_comments.zst` archives line by line. It strips
  each line and skips blank ones. Each line is decoded as JSON and turned
  into a row of `submissions` or `comments`:
  - `has_image` and `image_url` are derived;
  - the selftext falls back to the link url;
  - "t3_" is removed from a comment's `link_id`.
  
  Rows are written with `INSERT OR REPLACE` in batches of `batch_size`
  (100000), with one commit per batch and a final flush of the rest.
- **The user fetcher** (`fetch_users.py`) collects the distinct authors
  except `[deleted]`. It skips every name already in `reddit_users` or
  `reddit_users_failed`, and resolves the rest one by one through the
  Reddit API. Each resolved name gives a profile row, or a failure row with
  the reason `suspended_or_none` or the exception text. The two lists are
  written together whenever a profile or an error brings them to 100 or
  more outcomes, and once more at the end if either list is non-empty. A
  name without an id skips the size check, so a batch can hold more than
  100 outcomes.

Modules, one per file:

| file | module | contents |
|---|---|---|
| `json.dfy` | `Json` | JSON values as `json.loads` returns them, Python truthiness, `dict.get`, the parse result |
| `pystr.dfy` | `PyStr` | `str.strip` as CPython's two index scans over the `str.isspace` characters; `startswith`, `endswith`, `replace(pat, "")` |
| `schema.dfy` | `Schema` | the four row types and their primary-key columns |
| `store.dfy` | `Store` | a table under `INSERT OR REPLACE`; the `Connection` class holding the four tables and the commit count |
| `batching.dfy` | `Batching` | how many flushes a threshold writer performs, and the rows left pending |
| `transform.dfy` | `Transform` | the per-record derivations of both import functions |
| `importer.dfy` | `Importer` | `decompress_zst_file`'s line filter, the two import loops, the suffix classification and the file loops of `main` |
| `fetch_users.dfy` | `FetchUsers` | `get_unique_users`, the skip filter, the classification of one API answer, the batch loop and `main` |

A table is a map from a non-NULL key to the row last written under it,
plus a list of rows whose key is NULL. SQLite lets a TEXT PRIMARY KEY hold
NULL, and two NULL keys never conflict, so each such row is kept on its own.
A submission without an `id`, for example, is stored as a new row on every
import.

The loops are methods over the `Connection`. Each one is proved against a
specification function of its inputs:
- `SubmissionRows`/`CommentRows` give the rows appended;
- `Written` and `ImportCommits` give what reaches the table and how many
  commits it takes;
- `Outcomes`, `Successes`, `Failures` and `BatchCount` do the same for the
  fetcher.

Properties of those functions are proved as lemmas. The code of the two
flush blocks appears twice in each source loop; here it is written once
(`FlushSubmissions`, `FlushComments`, `WriteBatch`). Each loop's body is
also split out as a method (`ImportSubmissionLine`, `ImportCommentLine`,
`FetchUser`) whose contract is the loop invariant's step.

Inputs the scripts get from outside become parameters:
- the decoded lines of an archive (`Archive.raw`), and whether the reader
  raised after them (`Archive.truncated`);
- the JSON decoder (`parse`);
- the API (`lookup`, which gives the profile's attributes or the
  exception's text);
- the clock (`clock(i)` is the `int(time.time())` of the `i`-th fetched
  name).

## Model

| member | source | states |
|---|---|---|
| `PyStr.SkipSpace` | reddit_import_script.py:71 | the forward scan of `strip()` stops at the first non-whitespace position at or after its start, everything it passed being whitespace |
| `PyStr.SkipSpaceBack` | reddit_import_script.py:71 | the backward scan stops just after the last non-whitespace character, never before the forward scan's stop, everything it passed being whitespace |
| `PyStr.Strip` | reddit_import_script.py:71 | `strip()` never lengthens the line, and what it returns neither starts nor ends with whitespace |
| `PyStr.StripSpec` | reddit_import_script.py:71 | `strip()` returns a contiguous piece of the line with only whitespace before and after it |
| `PyStr.StripStripped` | reddit_import_script.py:71 | the stripped line neither starts nor ends with whitespace |
| `PyStr.StripEmpty` | reddit_import_script.py:71-72 | a line strips to the empty string exactly when it is all whitespace |
| `PyStr.StripFixedPoint` | reddit_import_script.py:71 | `strip()` leaves a string unchanged exactly when it has no whitespace at either end |
| `PyStr.StripIdempotent` | reddit_import_script.py:71 | stripping twice gives the same as stripping once |
| `PyStr.SkipAllSpace` | reddit_import_script.py:71-72 | over an all-whitespace line the forward scan runs to the end |
| `PyStr.RemoveAll` | reddit_import_script.py:174 | `replace(pat, "")` never lengthens a string and never brings in a character the string lacks |
| `PyStr.RemoveAllLength` | reddit_import_script.py:174 | `replace(pat, "")` never lengthens a string, and keeps its length only when it removes nothing |
| `PyStr.RemoveAllUnchanged` | reddit_import_script.py:174 | `replace(pat, "")` leaves a string unchanged exactly when the pattern occurs nowhere in it |
| `Store.Upsert` | reddit_import_script.py:130-133 | `INSERT OR REPLACE` of one row: a non-NULL key ends up holding that row, a NULL-keyed row is appended as a row of its own, and the table grows by at most one row |
| `Store.UpsertAll` | reddit_import_script.py:130-133 | `executemany` over a batch grows the table by at most one row per row written and never shrinks it |
| `Store.Writes` | reddit_import_script.py:130-133 | the last-write-wins reference: never holds a NULL key, and each key holds a row carrying that key |
| `Store.NullKeyed` | reddit_import_script.py:14 | the rows with a NULL primary key, each kept: never more than were written, all with NULL keys |
| `Store.UpsertAllSplit` | reddit_import_script.py:130-133 | `executemany` of `INSERT OR REPLACE` leaves the old keyed rows overlaid by the last write per key, plus every NULL-keyed row appended |
| `Store.UpsertAllKeyed` | reddit_import_script.py:130-133 | the keyed part of a run of upserts is the old map overlaid with the last write per key |
| `Store.UpsertAllUnkeyed` | reddit_import_script.py:14 | the NULL-keyed part of a run of upserts is the old list followed by the NULL-keyed rows, in order |
| `Store.UpsertAllAppend` | reddit_import_script.py:129-154 | writing one batch after another is the same as writing their concatenation |
| `Store.WritesLastWins` | reddit_import_script.py:130-133 | a key is stored with the last row written under it |
| `Store.WritesMissing` | reddit_import_script.py:130-133 | a key that no written row carries is not created |
| `Store.WritesHas` | reddit_import_script.py:130-133 | every non-NULL key that some row carries ends up in the table |
| `Store.NullKeyedHas` | reddit_import_script.py:14 | every row with a NULL key is kept |
| `Store.NullKeyedNone` | reddit_import_script.py:14 | writes without a NULL key add no keyless rows |
| `Store.NullKeyedSome` | reddit_import_script.py:14 | one NULL-keyed write adds a keyless row |
| `Store.ReplayIdempotent` | reddit_import_script.py:130-133 | applying the same rows twice gives the table one application gives, exactly when none of them has a NULL key |
| `Store.UpsertAllCount` | reddit_import_script.py:130-133 | N rows with distinct, non-NULL keys that are new to the table grow it by exactly N rows |
| `Store.Connection.constructor` | reddit_import_script.py:8 | a fresh connection to a new database file: every table empty and no commits yet |
| `Store.Connection.ReplaceIntoSubmissions` | reddit_import_script.py:130-133 | the submissions table becomes the old one upserted with the batch; nothing else changes |
| `Store.Connection.ReplaceIntoComments` | reddit_import_script.py:195-197 | the comments table becomes the old one upserted with the batch; nothing else changes |
| `Store.Connection.ReplaceIntoUsers` | fetch_users.py:119-123 | `reddit_users` becomes the old table upserted with the batch, keyed by `id` |
| `Store.Connection.ReplaceIntoUsersFailed` | fetch_users.py:124-129 | `reddit_users_failed` becomes the old table upserted with the batch, keyed by `username` |
| `Store.Connection.Commit` | reddit_import_script.py:134 | one more transaction is committed |
| `Batching.Remainder` | reddit_import_script.py:129-136 | between appends the pending batch holds fewer than `batch_size` rows, and never more than were appended |
| `Batching.Step` | reddit_import_script.py:127-136 | one append either grows the batch by one or fills it, which flushes it and empties it |
| `Batching.DivMod` | reddit_import_script.py:129-136 | after `n` appends the threshold has flushed `n / batch_size` times and `n % batch_size` rows are pending |
| `Batching.FlushesCeiling` | reddit_import_script.py:129-154 | a complete run flushes `ceil(n / batch_size)` times: enough batches to hold every row, and one fewer would not do |
| `Batching.Ceiling` | reddit_import_script.py:149-154 | rounding the quotient up when rows remain gives the ceiling of the division |
| `Transform.DomainText` | reddit_import_script.py:90 | `str(domain or "")`: a falsy domain gives "", a string domain is kept as it is |
| `Transform.HasImage` | reddit_import_script.py:89-96 | a post hint of "image" makes a post an image post; otherwise only a non-empty string domain can |
| `Transform.ImageUrl` | reddit_import_script.py:93-97 | `image_url` is NULL, or the truthy url of an image post |
| `Transform.Selftext` | reddit_import_script.py:99-104 | the stored selftext is NULL, or a truthy value taken from the record's `selftext` or `url` |
| `Transform.SubmissionOf` | reddit_import_script.py:86-125 | a line gives a submission row exactly when it decodes to a JSON object, and the row's key is the record's `id` (NULL when absent) |
| `Transform.SubmissionFrom` | reddit_import_script.py:106-125 | the row's key is the record's `id`; a non-NULL `image_url` comes with `has_image` set and is the record's url; the stored selftext is never "" |
| `Transform.HasImageSpec` | reddit_import_script.py:89-96 | `has_image` holds exactly for a post hint of "image" or a string domain starting with "i.redd.it" or "i.imgur.com"; a missing or falsy domain counts as "" |
| `Transform.ImageUrlSpec` | reddit_import_script.py:93-97 | `image_url` is set only on image posts, and then is the truthy url; an image post whose url is falsy gets NULL |
| `Transform.ImageFields` | reddit_import_script.py:89-97 | `has_image` and `image_url` read only `post_hint`, `domain` and `url`: records that agree on those get the same values |
| `Transform.ImageOtherField` | reddit_import_script.py:89-97 | changing any other field of a record leaves `has_image` and `image_url` as they were |
| `Transform.SelftextSpec` | reddit_import_script.py:99-104 | a truthy selftext is kept; otherwise a non-self post with a truthy url stores the url; otherwise NULL; the result is never an empty string |
| `Transform.SelftextStable` | reddit_import_script.py:99-104 | deriving again from a record that already carries the derived selftext gives the same selftext, image flag and image url |
| `Transform.SubmissionAccepted` | reddit_import_script.py:86-125 | every line that decodes to a JSON object becomes a submission row, and an object without `id` gets a NULL id instead of an error |
| `Transform.LinkId` | reddit_import_script.py:174 | the link id is defined exactly when `link_id` is absent or a string; an absent one gives "", and the result is never longer than the raw value |
| `Transform.CommentOf` | reddit_import_script.py:172-190 | a comment row comes only from a decoded object with an `id`, is keyed by that `id`, and carries the cleaned link id |
| `Transform.CommentAccepted` | reddit_import_script.py:172-190 | a comment line becomes a row exactly when it decodes to an object with an `id` whose `link_id` is absent or a string |
| `Transform.CommentReferences` | reddit_import_script.py:174-178 | `link_id` is the raw value with every "t3_" removed ("" when absent), `parent_id` is stored unchanged ("" when absent), and `id` is the record's |
| `Transform.LinkPrefixStripped` | reddit_import_script.py:174 | for `t3_<id>` with no other "t3_", the stored link id is `<id>` |
| `Transform.LinkIdUnchanged` | reddit_import_script.py:174 | a link id is stored unchanged exactly when it contains no "t3_" |
| `Transform.LinkIdNotPrefixOnly` | reddit_import_script.py:174 | `replace` removes a "t3_" anywhere, not only a leading one |
| `Transform.LinkIdNotIdempotent` | reddit_import_script.py:174 | removing "t3_" can join a new "t3_", so the removal is not idempotent |
| `Transform.DerivationExamples` | reddit_import_script.py:89-104 | an i.redd.it image post keeps its url as `image_url`; an empty link post stores its url as text; an empty self post stores NULL |
| `Importer.ReadLines` | reddit_import_script.py:70-73 | the reader yields no more lines than the decoded text has |
| `Importer.ReadLinesStripped` | reddit_import_script.py:70-73 | only non-empty, stripped lines reach the parser |
| `Importer.ReadLinesKeepsContent` | reddit_import_script.py:70-73 | every decoded line that is not all whitespace reaches the parser, stripped |
| `Importer.SubmissionRows` | reddit_import_script.py:84-147 | each line adds at most one submission row |
| `Importer.CommentRows` | reddit_import_script.py:170-211 | each line adds at most one comment row |
| `Importer.SubmissionRowsStep` | reddit_import_script.py:84-127 | one more line appends its row, if it has one, to the rows of the lines before it |
| `Importer.CommentRowsStep` | reddit_import_script.py:170-192 | one more line appends its row, if it has one, to the rows of the lines before it |
| `Importer.SubmissionRowsAppend` | reddit_import_script.py:84-147 | lines are handled independently: the rows of a concatenation are the rows of its parts |
| `Importer.CommentRowsAppend` | reddit_import_script.py:170-211 | lines are handled independently: the rows of a concatenation are the rows of its parts |
| `Importer.BadSubmissionLineDropped` | reddit_import_script.py:138-147 | a submission line that fails is dropped without stopping the import or changing any other row |
| `Importer.BadCommentLineDropped` | reddit_import_script.py:202-211 | a comment line that fails (bad JSON, no `id`, non-string `link_id`) is dropped without stopping the import or changing any other row |
| `Importer.Written` | reddit_import_script.py:149-159 | what reaches the table is a prefix of the appended rows: all of them after a complete read, and short of them by less than one batch after a reader failure |
| `Importer.ImportCommits` | reddit_import_script.py:129-159 | an import of no rows commits nothing, and a complete import of some rows commits at least once |
| `Importer.AppendKeeps` | reddit_import_script.py:127-129 | appending a row that does not fill the batch keeps the bookkeeping: the rows so far are the flushed ones followed by the pending batch |
| `Importer.AppendFlushes` | reddit_import_script.py:129-136 | appending a row that fills the batch moves the whole batch to the flushed rows with one more flush |
| `Importer.Finish` | reddit_import_script.py:149-159 | after the last line the final flush adds the pending batch, unless it is empty or the reader raised, and the commits add up to `ImportCommits` |
| `Importer.SubmissionLine` | reddit_import_script.py:106-136 | one line is dropped, appended to the pending batch, or appended and flushed with it, and the bookkeeping holds in each case |
| `Importer.CommentLine` | reddit_import_script.py:177-200 | one line is dropped, appended to the pending batch, or appended and flushed with it, and the bookkeeping holds in each case |
| `Importer.FlushSubmissions` | reddit_import_script.py:130-134 | a flush upserts the batch into `submissions` and commits once |
| `Importer.FlushComments` | reddit_import_script.py:195-198 | a flush upserts the batch into `comments` and commits once |
| `Importer.ImportSubmissionLine` | reddit_import_script.py:85-147 | one pass of the loop: the row joins the batch or the line counts as an error, and a full batch is written and committed |
| `Importer.ImportCommentLine` | reddit_import_script.py:171-211 | one pass of the loop: the row joins the batch or the line counts as an error, and a full batch is written and committed |
| `Importer.ImportSubmissions` | reddit_import_script.py:75-159 | `count` is the number of rows appended and `count + errors` the number of lines; the table receives every appended row (all but the partial batch when the reader raised), with one commit per flush |
| `Importer.ImportComments` | reddit_import_script.py:161-222 | `count` is the number of rows appended and `count + errors` the number of lines; the table receives every appended row (all but the partial batch when the reader raised), with one commit per flush |
| `Importer.CompleteImportWritesAll` | reddit_import_script.py:129-154 | a complete read writes every appended row in `ceil(count / batch_size)` commits; a reader failure writes only the full batches |
| `Importer.ReimportSubmissions` | reddit_import_script.py:130-133 | importing the same archive again leaves `submissions` as it was exactly when no written row has a NULL id |
| `Importer.ReimportComments` | reddit_import_script.py:195-197 | importing the same archive again leaves `comments` as it was exactly when no written row has a NULL id |
| `Importer.CreateDatabase` | reddit_import_script.py:7-61 | `create_database` gives a new connection whose tables are empty, with the one commit that ends the schema statements |
| `Importer.SuffixesExclusive` | reddit_import_script.py:244-247 | no name ends in both `_submissions.zst` and `_comments.zst` |
| `Importer.SubmissionArchives` | reddit_import_script.py:244-245 | the submission list holds only names ending in `_submissions.zst`, and no more files than the walk yields |
| `Importer.CommentArchives` | reddit_import_script.py:246-247 | the comment list holds only names taken by the `elif`, ending in `_comments.zst`, and no more files than the walk yields |
| `Importer.ArchivesSpec` | reddit_import_script.py:241-247 | a file is a submission archive exactly when its name ends in `_submissions.zst`, a comment archive exactly when it ends in `_comments.zst`, and otherwise ignored |
| `Importer.ClassifyArchives` | reddit_import_script.py:241-247 | the walk loop builds the two lists in walk order, as the classification says |
| `Importer.SubmissionArchivesStep` | reddit_import_script.py:250-253 | one more submission archive adds its written rows and its commits |
| `Importer.CommentArchivesStep` | reddit_import_script.py:256-259 | one more comment archive adds its written rows and its commits |
| `Importer.ImportSubmissionArchives` | reddit_import_script.py:250-253 | importing the submission archives in order writes the concatenation of what each import writes, with the sum of their commits |
| `Importer.ImportCommentArchives` | reddit_import_script.py:256-259 | importing the comment archives in order writes the concatenation of what each import writes, with the sum of their commits |
| `Importer.RunImport` | reddit_import_script.py:238-259 | `main` writes every submission archive into `submissions`, then every comment archive into `comments`, and ignores other files |
| `FetchUsers.UniqueUsers` | fetch_users.py:51-60 | each distinct author of submissions and comments is returned once, and `[deleted]` never is |
| `FetchUsers.ToFetch` | fetch_users.py:72-73 | a name is fetched exactly when it is neither in `reddit_users` nor in `reddit_users_failed`; the filter never adds names |
| `FetchUsers.ToFetchDistinct` | fetch_users.py:72 | distinct names stay distinct, so no name is fetched twice in one run |
| `FetchUsers.ToFetchAllNew` | fetch_users.py:72 | when no name is known yet, every name is fetched, in the original order |
| `FetchUsers.Classify` | fetch_users.py:84-115 | an exception gives a failure with its text; a profile without a truthy id gives the failure `suspended_or_none`; otherwise a profile row under the same name with that id; every row is stamped with the same time |
| `FetchUsers.Profile` | fetch_users.py:94-110 | the profile row is keyed by the fetched id, carries the name it was fetched under and the time stamp, has `is_suspended` false when absent, and has no display name or description without a subreddit |
| `FetchUsers.ClassifyDefaults` | fetch_users.py:94-107 | missing profile fields are stored as NULL, `is_suspended` as false, and a profile without a subreddit has no display name or description |
| `FetchUsers.Outcomes` | fetch_users.py:84-115 | each name gets one outcome, recorded under that name, and a profile is only ever added with a truthy id |
| `FetchUsers.OutcomesStep` | fetch_users.py:84 | the `i`-th name is classified with the `i`-th time stamp, counting from 1 |
| `FetchUsers.Partition` | fetch_users.py:84-115 | every fetched name is appended to exactly one of the two lists |
| `FetchUsers.AddedIds` | fetch_users.py:87-92 | every profile row has a truthy id |
| `FetchUsers.Advance` | fetch_users.py:89-138 | one outcome causes a flush exactly when it is a profile or an error that brings the lists to `BATCH_SIZE`; a flush empties them, otherwise the outcome only waits |
| `FetchUsers.Track` | fetch_users.py:84-138 | the outcomes waiting in the two lists are never more than the outcomes seen |
| `FetchUsers.BatchCount` | fetch_users.py:117-155 | a run with at least one fetched name writes at least one batch, and never more batches than names |
| `FetchUsers.TrackStep` | fetch_users.py:89-138 | appending one outcome flushes exactly when it is a profile or an error bringing the lists to `BATCH_SIZE`; that flush writes the pending outcomes and this one, at least `BATCH_SIZE` in all, and empties the lists; otherwise the pending count grows by one |
| `FetchUsers.TrackBound` | fetch_users.py:117-138 | over a whole run, `BATCH_SIZE` times the threshold flushes plus the outcomes still pending never exceed the outcomes seen |
| `FetchUsers.TrackPlain` | fetch_users.py:117-155 | when no name lacks an id, the batches are those of a plain threshold writer: `ceil(n / 100)` commits |
| `FetchUsers.TrackNoIdRun` | fetch_users.py:89-92 | a run of names without an id never triggers a flush; it only piles up in the pending lists |
| `FetchUsers.OversizedBatch` | fetch_users.py:89-117 | 150 names without an id are committed in a single batch of 150 rows, past `BATCH_SIZE` |
| `FetchUsers.Buffer` | fetch_users.py:89-115 | an outcome that does not flush waits in its list, and the bookkeeping holds |
| `FetchUsers.Flush` | fetch_users.py:117-137 | a profile or an error that brings the lists to `BATCH_SIZE` moves both of them to the written rows with one more batch |
| `FetchUsers.WriteBatch` | fetch_users.py:117-131 | a flush upserts the profiles into `reddit_users` and the failures into `reddit_users_failed`, then commits once |
| `FetchUsers.FetchUser` | fetch_users.py:84-138 | one pass of the loop keeps `additions == len(batch_success)` and `skipped + errors == len(batch_failed)`, resets all five at a flush, and keeps the tables equal to the outcomes so far minus the pending ones |
| `FetchUsers.FetchAndStoreUsers` | fetch_users.py:62-155 | `removed_count` is the number of names skipped; `reddit_users` receives every profile row and `reddit_users_failed` every failure row, in order; one commit per batch, counting the final flush only when a list is non-empty |
| `FetchUsers.FetchedOnRecord` | fetch_users.py:62-155 | after a run every fetched name is on record, so a later run skips it, provided no two profiles of the run share an id |
| `FetchUsers.OnRecord` | fetch_users.py:117-155 | a name carried by a written profile with a unique id, or by a written failure, is found in its table |
| `FetchUsers.ProfileOnRecord` | fetch_users.py:119-123 | a profile whose id no later profile reuses keeps its username in `reddit_users` |
| `FetchUsers.FailureOnRecord` | fetch_users.py:124-129 | every failure leaves its name in `reddit_users_failed`, even a NULL name |
| `FetchUsers.RunFetch` | fetch_users.py:157-163 | `main` commits the table creation, collects the authors and fetches every name not yet known |

## Left out

- `codebook_generator.py`: a wrapper around a language-model client with sleep-based retries and file I/O; nothing there is local logic.
- The decoders:
  - Zstandard decompression and UTF-8 decoding with `errors='ignore'` are not modelled. An archive is its decoded lines, plus a flag saying whether the reader raised after them.
  - JSON decoding is the parameter `parse`.
- SQLite itself:
  - `CREATE TABLE` and `CREATE INDEX` are left out, and so is the unenforced `FOREIGN KEY` on `comments.link_id`.
  - Column type affinity is left out: values are stored as the JSON values bound to them.
  - The `NOT NULL` constraint on `reddit_users.username` is left out. A profile row with a NULL username would make the insert raise, and that error is not caught.
  - Write failures inside `executemany` are left out: writes are total.
- Transform.DomainText: a truthy non-string `domain` is read as "", because what `str()` prints for it starts with neither image host. How Python prints it is not modelled.
- `NaN`, `Infinity` and `-Infinity`, which `json.loads` accepts by default, have no `Float` value here (a `Float` holds a real). A record holding one cannot be stated; where it could matter, as a `domain` printed as `nan` or `inf`, it starts with neither image host.
- Python's cross-type equality (`1 == 1.0 == True`) is left out: values compare structurally.
- FetchUsers.UniqueUsers: the order of `SELECT DISTINCT` is unspecified in SQL, and the model does not fix it. Its contract states membership and distinctness only.
- FetchUsers.Classify: praw's lazy attribute loading is one call to `lookup`, so an exception raised by a later `getattr` counts as one raised by the fetch itself.
- The environment:
  - credential checks and process exit;
  - the praw client, which is the parameter `lookup`;
  - `time.time()`, which is the parameter `clock`;
  - `time.sleep(SLEEP_SEC)`.
- Output:
  - every `print`, including the sample of the first error messages;
  - the final `SELECT COUNT(*)` reports;
  - `get_file_size_mb`, which is floating-point arithmetic used only for printing.
- `os.walk` and path joining: the walk is the given sequence of archives in walk order, with the name used for the suffix test.
- Importer.RunImport: it takes the open connection. The choice in `main` between opening an existing file and calling `create_database` (modelled as `CreateDatabase`) is left to the caller.
- Importer.RunImport: the two tables are separate, so the order "all submission files before any comment file" is visible only in the order of the method's calls. No contract relates the two tables' writes in time.
- FetchUsers.FetchedOnRecord: assumes no two profiles of a run share an id. Otherwise a later profile with the same id replaces the earlier one, and the earlier name is fetched again next time.
