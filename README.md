# PigFriends — a verified model of the server core and three page scripts

PigFriends is a small gallery where visitors draw a pig on a canvas, submit it
with a name, like other pigs and comment on them. The server is an Express
application over four SQLite tables (`pigs`, `comments`, `submissions`,
`comment_submissions`). A sliding-window limiter allows 3 submissions and 5
comments per address every ten minutes.

This project models the following in Dafny:

- **Server handlers.** The request handlers of `server/routes/pigs.js`,
  `server/routes/comments.js` and the older monolith `server/server.js`. The
  monolith repeats the same logic without `sort` and adds `/api/stats`.
- **Drawing page.** The undo/redo history of `public/js/draw.js`.
- **Gallery page.** The infinite-scroll and like state of `public/js/pen.js`,
  and its relative-time labels.
- **Admin page.** The pager, credential and HTML escaping of
  `public/js/admin.js`.

Modules, following the program's structure:

- `Wrappers`, `Text`, `Numbers`: `Option`, and JavaScript's `trim`,
  `startsWith`, `split(',')[0]`, global `replace` and `parseInt`. Also the
  `parseInt(x) || d` idiom, and `String(n)`.
- `Schema`: the four tables as sequences of records, with the AUTOINCREMENT
  counters. `Wellformed` is the invariant every handler keeps:
  - ids are increasing and fresh;
  - every comment is trimmed, 1..200 characters, and on an existing pig.
- `RateLimit`: the limiter. It sweeps expired rows of every address, then
  counts the caller's rows strictly inside the window.
- `Network`: `getClientIP`'s header chain, and `getLocation` with
  `geoip.lookup` as an oracle parameter.
- `Ordering`: `ORDER BY key DESC LIMIT ? OFFSET ?`. The contracts claim only
  sortedness and permutation.
- `Queries`: the read-only handlers:
  - the sorted and paged listing, and the older sort-less listing;
  - the detail read and `/api/stats`;
  - the comment listing.
- `Replies`, `Handlers`: the three state-changing handlers (submit, like,
  comment) as functions from the tables before a request to its reply and the
  tables after it.
- `Store`: class `Database`. Its methods change the tables statement by
  statement, in the source's order, and are proved to agree with `Handlers`
  and to keep `Wellformed`.
- `Requests`: the listing request both pages send, and what the server makes
  of it.
- `Draw`, `Gallery`, `Admin`: each page's module-level state as a class
  (`Board`, `Feed`, `AdminPage`). Each asynchronous handler is split into the
  request it sends and the handling of the response.

The comment handler checks the id, then the content (blank, then longer than
200), then the pig (404), then the limiter (429). `Handlers.CommentOn` has the
code's order.

## Model

| member | source | states |
|---|---|---|
| Text.TrimStart | server/routes/comments.js:75 | the result is a suffix of the input |
| Text.TrimStartLeads | server/routes/comments.js:75 | what remains after dropping leading whitespace starts with a non-space |
| Text.TrimStartDropsSpace | server/routes/comments.js:75 | every dropped leading character is ECMAScript whitespace |
| Text.TrimEnd | server/routes/comments.js:75 | the result is a prefix of the input |
| Text.TrimEndTrails | server/routes/comments.js:75 | what remains after dropping trailing whitespace ends with a non-space |
| Text.TrimEndDropsSpace | server/routes/comments.js:75 | every dropped trailing character is whitespace |
| Text.Trim | server/routes/comments.js:75 | `trim` never lengthens a string |
| Text.TrimTrimmed | server/routes/comments.js:75 | the trimmed string has no whitespace at either end |
| Text.TrimBlank | server/routes/comments.js:72 | `!content.trim()` holds exactly when the content is all whitespace (both directions) |
| Text.TrimFixed | server/routes/pigs.js:116 | a string with no whitespace at its ends is its own trim |
| Text.TrimIdempotent | server/routes/pigs.js:116 | trimming twice equals trimming once |
| Text.PrefixTrans | server/routes/pigs.js:76 | `startsWith` is transitive over prefixes |
| Text.ContainsIff | server/routes/pigs.js:123 | the recursive substring test holds iff the pattern occurs at some position |
| Text.ContainsEmpty | server/routes/pigs.js:137-138 | the empty pattern occurs in every name |
| Text.Lower | server/routes/pigs.js:123 | ASCII case folding keeps the length and maps each character independently; `Text.LowerFolds` proves the folded text has no ASCII capital and is fixed by folding |
| Text.LowerFolds | server/routes/pigs.js:123 | folded text holds no ASCII capital letter, and folding it again changes nothing |
| Text.FirstPiece | server/routes/pigs.js:8 | the first piece of `split(',')` is no longer than the header |
| Text.FirstPieceSpec | server/routes/pigs.js:8 | the first piece is a prefix, holds no separator, and is followed by the separator when shorter than the string |
| Text.ReplaceAll | public/js/admin.js:95-99 | a global replace of an absent character is the identity; a replacement text without the character leaves none behind |
| Text.ReplaceAllKeeps | public/js/admin.js:95-99 | a character neither replaced nor brought in by the replacement is in the output iff it is in the input |
| Text.ReplaceAllAppend | public/js/admin.js:95-99 | a global replace distributes over concatenation |
| Numbers.IntOr | server/routes/pigs.js:113-114 | `parseInt(x) \|\| d`: absent, NaN and 0 give `d`; any other parsed value is returned; the result is never 0 when `d` is not |
| Numbers.ParseInt | server/routes/pigs.js:113-114 | NaN exactly when no digit follows the whitespace, sign and `0x` prefix; the result is not negative without a minus sign and not positive with one; `Numbers.ParseDecimal` reads back what `Numbers.Decimal` writes |
| Numbers.Decimal | public/js/admin.js:114-117 | `String(n)` is a non-empty digit string, without a leading zero when `n > 0`, whose value is `n` |
| Numbers.ParseDecimal | server/routes/pigs.js:113-114 | `parseInt(String(n))` reads back `n`: page numbers and ids survive the trip through a URL |
| Schema.InsertPigKeepsWellformed | server/db.js:9-17 | inserting a pig under the next AUTOINCREMENT id keeps the table invariant |
| Schema.InsertCommentKeepsWellformed | server/db.js:32-39 | inserting trimmed 1..200-character content on an existing pig under the next id keeps the invariant |
| Schema.SameIdsKeepsWellformed | server/db.js:9-17 | changing pig rows in place with their ids kept keeps the invariant |
| Schema.EmptyWellformed | server/db.js:8-46 | freshly created tables are well formed |
| RateLimit.Sweep | server/routes/pigs.js:47-48 | after `DELETE ... WHERE timestamp < cutoff` no row older than the cutoff remains, for any address |
| RateLimit.SweepMembers | server/routes/pigs.js:47-48 | a row survives the sweep iff it was in the log and is not older than the cutoff |
| RateLimit.CountRecent | server/routes/pigs.js:51-52 | the count of the caller's rows after the cutoff is at most the log's size |
| RateLimit.Check | server/routes/pigs.js:43-55 | the request is allowed iff fewer than `max` of the caller's rows are strictly after `now - 600000`; the sweep only shrinks the log |
| RateLimit.CheckLog | server/routes/comments.js:15-24 | after a check the log holds exactly the rows at or after the cutoff, expired rows of every address gone |
| RateLimit.SweepKeepsCount | server/routes/pigs.js:47-52 | sweeping before counting does not change the count at the same cutoff |
| RateLimit.CountAppend | server/routes/pigs.js:58-61 | a recorded row adds one to the count exactly when it is the caller's and inside the window |
| RateLimit.SweepAppend | server/routes/pigs.js:47-48 | the sweep of a log with one more row is the old sweep plus that row unless it has expired |
| RateLimit.BoundaryRow | server/routes/pigs.js:44-52 | a row stamped exactly at `now - 600000` is neither deleted nor counted |
| RateLimit.AgedOutAdmitted | server/routes/pigs.js:43-55 | once all of an address's rows are at or before the cutoff, its count is 0 and it is admitted |
| RateLimit.RecordedRowCounts | server/routes/pigs.js:57-61 | a row recorded at `t` counts at every check before `t + 600000` |
| Network.ClientIp | server/routes/pigs.js:7-13 | the first truthy candidate among the first piece of `x-forwarded-for`, `x-real-ip`, the connection address and the socket address, else `127.0.0.1`; never empty |
| Network.ForwardedIpHasNoComma | server/routes/pigs.js:8 | an address taken from `x-forwarded-for` is a comma-free prefix of that header |
| Network.ForwardedForWins | server/server.js:58-64 | a non-empty first forwarded piece decides the address whatever the other headers say |
| Network.Location | server/routes/pigs.js:16-40 | local addresses give `本地`; no country gives `未知地区`; with a country, a non-blank city gives the trimmed city, and otherwise the mapped country name; never empty |
| Network.LocalIgnoresOracle | server/routes/pigs.js:18-22 | local addresses never reach the geo database: any two oracles agree on them |
| Network.CountryFallback | server/routes/pigs.js:25-33 | a mapped code gives its Chinese name, different from the code; an unmapped code is kept as is |
| Ordering.InsertDescSorted | server/routes/pigs.js:132 | inserting into a non-increasing list keeps it non-increasing |
| Ordering.InsertDescPermutes | server/routes/pigs.js:132 | insertion adds exactly the one element (multiset) |
| Ordering.SortDescCorrect | server/routes/pigs.js:132 | `ORDER BY key DESC` is non-increasing and a permutation of its input |
| Ordering.Start | server/routes/pigs.js:133 | SQLite's offset start never passes the end of the rows |
| Ordering.Window | server/routes/pigs.js:133 | `LIMIT/OFFSET`: at most `limit` rows, a prefix of the rows from the offset on; everything from the offset when the limit is negative; exactly `limit` rows when that many remain; none past the end |
| Ordering.WindowSorted | server/routes/pigs.js:132-133 | a window of a sorted list is sorted |
| Queries.LimitOf | server/routes/pigs.js:114 | the page size is never 0: `\|\| 20` replaces 0 and NaN |
| Queries.PageOf | server/routes/pigs.js:113 | the page is the parsed number when `page` parses, and 0 when it is absent or NaN |
| Queries.SearchTerm | server/routes/pigs.js:116 | the search term has no whitespace at either end |
| Queries.SortOf | server/routes/pigs.js:117-118 | sort by likes iff the trimmed parameter is `likes`; by comment count iff it is `comments`; anything else sorts by time |
| Queries.Matching | server/routes/pigs.js:122-125 | the filter never adds rows |
| Queries.MatchingMembers | server/routes/pigs.js:122-131 | a pig is kept iff its name matches the search (both directions) |
| Queries.NameMatchesIgnoresCase | server/routes/pigs.js:123-124 | folding the ASCII case of the name or of the search never changes whether the name matches |
| Queries.MatchingEmpty | server/routes/pigs.js:136-138 | an empty search lists every pig |
| Queries.CommentCount | server/routes/pigs.js:129 | the per-row comment count is at most the number of comments |
| Queries.Annotate | server/routes/pigs.js:128-129 | each listed row is its pig without `ip`, with the count of comments on that pig at read time |
| Queries.WindowOfSortedFrom | server/routes/pigs.js:132-135 | every row of a window of the sorted rows is one of the rows |
| Queries.AnnotatedRowFrom | server/routes/pigs.js:127-135 | every row of the page is a matching pig, without `ip`, with its live comment count |
| Queries.ListPigs | server/routes/pigs.js:111-162 | the header: `total` is the count of pigs matching the trimmed search (all pigs when it is empty), `page` is echoed, `search` is echoed only when non-empty; the rows are stated by `Queries.ListPigsRows`, `Queries.ListPigsIsWindow` and `Queries.ListPigsSpec` |
| Queries.ListPigsSpec | server/routes/pigs.js:111-162 | the filtered count; rows non-increasing by the chosen key; at most `limit` rows; each row a matching pig without `ip` and with its live comment count |
| Queries.ListPigsRows | server/routes/pigs.js:113-147 | the rows are the window at `page * limit` of the matching rows sorted by the chosen key |
| Queries.ListPigsIsWindow | server/routes/pigs.js:127-147 | there is a non-increasing ordering of exactly the matching rows whose window is the page |
| Queries.Views | server/server.js:230 | the older listing's columns are exactly the pig without its `ip`, row by row |
| Queries.LegacyRows | server/server.js:211-251 | the older listing's rows are the window at `page * limit` of the matching pigs, newest first |
| Queries.ListPigsLegacy | server/server.js:211-265 | the older listing's header: `total` is the filtered count, `page` is echoed, `search` is echoed only when non-empty; its rows are stated by `Queries.LegacyRows` and `Queries.ListPigsLegacySpec` |
| Queries.ViewRowFrom | server/server.js:229-236 | every row of the older listing is a matching pig without `ip` |
| Queries.ListPigsLegacySpec | server/server.js:211-259 | the older listing: filtered count, rows newest first, at most `limit`, each a matching pig without `ip` |
| Queries.FindPig | server/routes/pigs.js:199-200 | the lookup finds a row with that id iff one exists, and it is a table row |
| Queries.PigDetail | server/routes/pigs.js:195-217 | a reply iff the id parses and names a pig; the reply is that pig without `ip`; every error is 404 (no 400 branch) |
| Queries.Locations | server/server.js:332 | there are no more distinct locations than pigs, and the first pig's location is one of them |
| Queries.LocationsCover | server/server.js:332 | every pig's location is counted |
| Queries.LocationsOccur | server/server.js:332 | every counted location belongs to some pig |
| Queries.PigStats | server/server.js:328-335 | `total` is the row count; `SUM(likes)` is NULL exactly on the empty table and otherwise the sum; `countries` is at most `total` and 0 exactly on the empty table |
| Queries.CommentsOf | server/routes/comments.js:44-51 | the pig's comments, projected onto id, content and created_at; as many as `COUNT(*)` reports; each is a comment of that pig |
| Queries.ListComments | server/routes/comments.js:33-62 | 400 exactly when `!parseInt(id)`, with no check that the pig exists; otherwise `total` counts that pig's comments and `page` is echoed |
| Queries.ListCommentsSpec | server/routes/comments.js:44-51 | a listed page holds that pig's comments only, newest first, at most `limit` of them |
| Queries.CommentsOfComplete | server/routes/comments.js:44-47 | every comment with that `pig_id` is among the pig's listed comments |
| Queries.ListCommentsIsWindow | server/routes/comments.js:39-51 | for a valid id, the page is the window of `limit` rows at `page * limit` of a newest-first ordering of exactly the pig's comments |
| Handlers.Submit | server/routes/pigs.js:64-100 | the validation chain in order: missing name or image 400, name over 20 400, image not `data:image/` 400, each leaving the tables unchanged; then 429 iff the address already has 3 rows in the window, with only the sweep applied; success appends one pig (likes 0, `created_at = now`, location of the address) under the next id, plus one log row `(ip, now)` |
| Handlers.SubmitKeepsWellformed | server/routes/pigs.js:86-94 | every submission outcome keeps the tables well formed |
| Handlers.SubmitCounts | server/routes/pigs.js:82-94 | an accepted submission adds one to its address's count at every check inside its window |
| Handlers.FourthSubmissionRejected | server/routes/pigs.js:82-84 | three accepted submissions from one address, then a fourth inside the first's window gets 429 and changes only the sweep |
| Handlers.SubmitAfterWindow | server/routes/pigs.js:80-100 | a valid body from an address whose rows have all aged out is accepted under the next id |
| Handlers.SubmitThenDetail | server/routes/pigs.js:96-100 | the id in the reply, rendered into a URL, reads back the new pig without its address |
| Handlers.IncrementLikes | server/routes/pigs.js:173-174 | the update neither adds nor removes rows |
| Handlers.Bump | server/routes/pigs.js:173-174 | a row's like count goes up by exactly one when its id matches and stays put otherwise; no other column changes |
| Handlers.IncrementRows | server/routes/pigs.js:173-174 | `SET likes = likes + 1 WHERE id = ?` applies to each row on its own |
| Handlers.IncrementAbsent | server/routes/pigs.js:173-174 | an update matching no row changes nothing |
| Handlers.FindIncremented | server/routes/pigs.js:176-177 | the read-back after the update is the first matching row with one more like |
| Handlers.ReadBackLikes | server/routes/pigs.js:176-181 | the read-back finds a row iff the pig exists, and sees its likes one higher |
| Handlers.LikeById | server/routes/pigs.js:173-186 | a missing id gives 404 with the tables unchanged; an existing id gives the row's likes plus one, with the updated table |
| Handlers.Like | server/routes/pigs.js:165-192 | `!parseInt(id)` gives 400 with the tables unchanged; otherwise the update and the read-back |
| Handlers.IncrementUnique | server/routes/pigs.js:173-174 | with increasing ids the update changes exactly the one row with that id, by one like |
| Handlers.LikeOneRow | server/routes/pigs.js:167-186 | a like of an existing pig changes exactly that row's likes, by one, and replies with the new count |
| Handlers.SumLikesUpdate | server/server.js:331 | replacing one row changes `SUM(likes)` by the difference of the two rows' likes |
| Handlers.LocationsUpdate | server/server.js:332 | replacing a row by one with the same location keeps the distinct locations |
| Handlers.StatsAfterBump | server/server.js:328-335 | one more like on one row adds one to the like total and leaves the count and the locations |
| Handlers.IncrementStats | server/server.js:277-278 | with unique ids, the like update adds one to the like total and nothing else |
| Handlers.LikeRaisesStats | server/server.js:268-297 | a successful like raises `/api/stats`' like total by exactly one and leaves its other figures |
| Handlers.LikeKeepsWellformed | server/routes/pigs.js:173-174 | a like keeps the tables well formed |
| Handlers.CommentOn | server/routes/comments.js:71-101 | after the id check: blank content 400, trimmed length over 200 400, missing pig 404, each changing no table; then 429 iff the address has 5 rows in the window, with only the sweep applied; success stores the trimmed 1..200-character content under the next id and logs `(ip, now)`, and the reply echoes the id and the trimmed content |
| Handlers.Admit | server/routes/comments.js:85-101 | for checked content: the limiter decides on the count before the sweep; a refusal keeps only the sweep; an acceptance inserts the comment under the next id, logs the address and echoes the comment |
| Handlers.CommentOnAdmits | server/routes/comments.js:71-88 | content that passes the checks on an existing pig reaches the limiter as its trimmed text, in stored form |
| Handlers.AddComment | server/routes/comments.js:65-106 | `!parseInt(id)` gives 400 before the content is looked at; otherwise the rest of the chain |
| Handlers.AdmitKeepsWellformed | server/routes/comments.js:89-95 | the limiter and the insert keep the tables well formed |
| Handlers.CommentKeepsWellformed | server/routes/comments.js:72-95 | every comment outcome keeps the tables well formed, so every stored comment is trimmed, 1..200 characters and on an existing pig |
| Handlers.CommentCounts | server/routes/comments.js:86-95 | an accepted comment adds one to its address's comment count at every check inside its window |
| Handlers.SubmitLeavesCommentLog | server/server.js:117-135 | a submission never touches the comment log or the comments |
| Handlers.CommentLeavesSubmissionLog | server/server.js:137-153 | a comment never touches the submission log or the pigs |
| Handlers.CommentCountAppend | server/routes/comments.js:42-43 | one more comment row adds one to its own pig's count only |
| Handlers.CommentAppended | server/routes/comments.js:89-94 | an accepted comment is appended as the next row, with the trimmed content, the address and `now` |
| Handlers.ListedAfterAppend | server/routes/comments.js:35-43 | after one more comment on a pig, its listing total goes up by one and no other pig's count moves |
| Handlers.AddCommentThenList | server/routes/comments.js:89-101 | a posted comment is among its pig's listed comments, raises that pig's listing total by one and leaves other pigs' counts |
| Store.Database.constructor | server/db.js:8-46 | fresh tables: empty, counters at 1, well formed |
| Store.Database.CheckSubmissionLimit | server/routes/pigs.js:43-55 | sweeps the submissions log; allows iff the caller has fewer than 3 rows after the cutoff |
| Store.Database.RecordSubmission | server/routes/pigs.js:58-61 | appends exactly `(ip, now)` to `submissions` |
| Store.Database.CheckCommentLimit | server/routes/comments.js:15-24 | sweeps only `comment_submissions`; allows iff the caller has fewer than 5 rows after the cutoff |
| Store.Database.RecordCommentSubmission | server/routes/comments.js:27-30 | appends exactly `(ip, now)` to `comment_submissions` |
| Store.Database.SubmitPig | server/routes/pigs.js:64-100 | the statement sequence leaves the tables and returns the reply `Handlers.Submit` gives; tables stay well formed |
| Store.Database.LikePig | server/routes/pigs.js:165-186 | update then read-back, agreeing with `Handlers.Like`; tables stay well formed |
| Store.Database.CommentOnPig | server/routes/comments.js:71-88 | the content, length and pig checks, then the admission, agreeing with `Handlers.CommentOn` |
| Store.Database.AdmitComment | server/routes/comments.js:85-101 | the limiter, the insert under the next id and the log row, agreeing with `Handlers.Admit`; tables stay well formed |
| Store.Database.PostComment | server/routes/comments.js:65-101 | the id check first, then the comment handler, agreeing with `Handlers.AddComment` |
| Requests.ListRequest | public/js/pen.js:25-28 | the page and the page size are always sent, the keyword only when non-empty, and no sort order |
| Requests.RequestReadsPage | public/js/pen.js:25-28 | the server reads back the page's number, the page size 20, the offset `20 * page` and the trimmed keyword, and sorts by time |
| Requests.RequestedWindow | server/routes/pigs.js:113-147 | page `P` of the gallery is the window of 20 rows at `20 * P` of the matching pigs, newest first |
| Draw.Saved | public/js/draw.js:137-145 | after `saveState` the cursor is on the last entry, one past the old cursor, and everything past the old cursor is replaced by the snapshot |
| Draw.Undone | public/js/draw.js:148-153 | `undo` steps back only when the cursor is above 0, keeps the entries and keeps the cursor inside |
| Draw.Redone | public/js/draw.js:156-161 | `redo` steps forward only when the cursor is below the last entry, keeps the entries and keeps the cursor inside |
| Draw.ButtonsMatchActions | public/js/draw.js:175-181 | the undo (redo) button is disabled iff undo (redo) would do nothing |
| Draw.UndoThenRedo | public/js/draw.js:148-161 | an undo that moved, then a redo, returns to the same history; and the other way round |
| Draw.SaveThenRedoUndo | public/js/draw.js:137-161 | after a save redo is impossible and disabled, and one undo shows the snapshot the cursor was on |
| Draw.ShortcutOf | public/js/draw.js:191-203 | Ctrl/Cmd with key `z` undoes; Ctrl/Cmd with key `z` and Shift, or with key `y`, redoes; nothing without Ctrl or Cmd |
| Draw.CheckName | public/js/draw.js:226-237 | the name is accepted iff its trim has 1 to 20 characters, and then it is that trim; a blank name gets the "no name" message |
| Draw.AcceptedNamePassesServer | public/js/draw.js:226-240 | a name the page accepts, sent with a PNG data URL, passes every body check of the server's submission handler |
| Draw.Board.constructor | public/js/draw.js:133-184 | page load with its initial save: one white snapshot, cursor 0, buttons consistent |
| Draw.Board.UpdateUndoRedoButtons | public/js/draw.js:175-181 | the buttons show the history's state; nothing else changes |
| Draw.Board.SaveState | public/js/draw.js:137-145 | the history becomes `Saved` of the old history and the current picture; the buttons follow |
| Draw.Board.RestoreState | public/js/draw.js:164-172 | the canvas shows the snapshot under the cursor; the history is unchanged |
| Draw.Board.Undo | public/js/draw.js:148-153 | the history becomes `Undone`; the canvas is restored only when the cursor moved |
| Draw.Board.Redo | public/js/draw.js:156-161 | the history becomes `Redone`; the canvas is restored only when the cursor moved |
| Draw.Board.KeyDown | public/js/draw.js:191-203 | the shortcut's action is applied to the history; a moving undo or redo shows the snapshot under the new cursor, and one that cannot move keeps the picture; other keys change neither history nor picture; the drawing and eraser flags never change |
| Draw.Board.StartDrawing | public/js/draw.js:87-101 | a non-left mouse button never starts a stroke and leaves the canvas; anything else starts one and paints its first dot at once |
| Draw.Board.Stroke | public/js/draw.js:104-105 | the canvas changes only while a stroke is in progress |
| Draw.Board.StopDrawing | public/js/draw.js:206-212 | a stroke in progress is saved exactly once and the flag cleared; otherwise nothing changes |
| Draw.Board.ToggleEraser | public/js/draw.js:51-54 | the eraser flag flips and nothing else changes |
| Draw.Board.PickColor | public/js/draw.js:27-42 | picking a colour turns the eraser off |
| Draw.Board.Clear | public/js/draw.js:57-63 | a confirmed clear paints the canvas white and saves it; a cancelled one changes nothing |
| Gallery.FormatTime | public/js/pen.js:191-206 | the five buckets with their exact ranges (under 1 minute, minutes, hours, days, a calendar date from 7 days on), with `Math.floor` counts between the bucket's bounds |
| Gallery.FormatTimeMonotone | public/js/pen.js:196-203 | an older timestamp never shows a more recent bucket, nor fewer minutes |
| Gallery.Label | public/js/pen.js:200-205 | the count in a minutes, hours or days label reads back through `parseInt`; the just-now label holds no number |
| Gallery.LabelsDiffer | public/js/pen.js:200-204 | two different relative readings never show the same text |
| Gallery.SetLikes | public/js/pen.js:180-183 | the in-memory update keeps the number of rows |
| Gallery.SetLikesFirst | public/js/pen.js:180-183 | only the first row with the id (the one `find` returns) takes the server's count; every other row is unchanged |
| Gallery.Feed.constructor | public/js/pen.js:2-7 | the initial globals: no rows, page 0, not loading, more to load, no keyword |
| Gallery.Feed.StartLoad | public/js/pen.js:17-28 | no request while loading or after the last page; otherwise loading is set and the page's query sent |
| Gallery.Feed.FinishLoad | public/js/pen.js:30-75 | an empty page ends the list; a non-empty one is appended and the page counter advances by one; a short page ends the list; a failure changes nothing; loading ends |
| Gallery.Feed.ResetPigList | public/js/pen.js:281-290 | no rows, page 0, more to load, then a load from page 0 unless one is running |
| Gallery.Feed.StartSearch | public/js/pen.js:276-277 | the keyword is set, the list restarts for it, and a load is marked as running |
| Gallery.Feed.PerformSearch | public/js/pen.js:268-278 | a blank trimmed keyword changes no state; otherwise the list restarts for the trimmed keyword and a load is marked as running |
| Gallery.Feed.ClearSearch | public/js/pen.js:250-255 | the keyword is cleared, the unfiltered list restarts and a load is marked as running; no request goes out while an earlier load still runs |
| Gallery.Feed.SendLike | public/js/pen.js:151-159 | the liked list is read at the click: a pig already in it sends nothing; any other pig sends the POST and keeps that copy |
| Gallery.Feed.LikeDone | public/js/pen.js:165-183 | an accepted like writes back the copy read at the click plus the id, and the pig's row shows the server's count; a failed like changes nothing |
| Gallery.Feed.LikesInFlight | public/js/pen.js:151-177 | with two likes in flight, a second click on the first pig sends again, and the later answer leaves the first pig out of the liked list |
| Admin.EscapeHtml | public/js/admin.js:93-100 | the output holds no `<`, `>`, `"` or `'`; a missing value gives `''` |
| Admin.EscapeEachNoMarkup | public/js/admin.js:95-99 | per-character escaping leaves no markup character |
| Admin.EscapeAppend | public/js/admin.js:95-99 | the chain of replacements distributes over concatenation |
| Admin.ReplaceAbsent | public/js/admin.js:96-99 | replacing a character a string does not hold leaves it alone |
| Admin.ReplaceSingle | public/js/admin.js:95-99 | a replace on one character gives the replacement or the character |
| Admin.EscapeTail | public/js/admin.js:96-99 | a string free of the last four markup characters passes the last four replacements unchanged |
| Admin.AfterLt | public/js/admin.js:97-99 | a string free of `>`, `"` and `'` passes the last three replacements unchanged |
| Admin.AfterGt | public/js/admin.js:98-99 | a string free of `"` and `'` passes the last two replacements unchanged |
| Admin.EscapeLt | public/js/admin.js:96 | `<` becomes `&lt;` and nothing more |
| Admin.EscapeGt | public/js/admin.js:97 | `>` becomes `&gt;` and nothing more |
| Admin.EscapeQuot | public/js/admin.js:98 | `"` becomes `&quot;` and nothing more |
| Admin.EscapeApos | public/js/admin.js:99 | `'` becomes `&#39;` and nothing more |
| Admin.EscapeChar | public/js/admin.js:95-99 | one character passes the chain as its own entity |
| Admin.EscapeIsEachwise | public/js/admin.js:95-99 | because `&` goes first, the chain equals escaping each character on its own: no entity is escaped twice |
| Admin.UnescapeEntity | public/js/admin.js:95-99 | decoding reads each entity back as its character |
| Admin.EscapeRoundTrip | public/js/admin.js:95-99 | unescaping the per-character escape gives back the original string |
| Admin.EscapeHtmlRoundTrip | public/js/admin.js:93-100 | unescaping `escapeHtml(s)` gives back `s` |
| Admin.EntityAtShift | public/js/admin.js:95-99 | an entity stays an entity when text is put in front |
| Admin.EntityLeads | public/js/admin.js:95-99 | the only `&` in one character's entity is its first, and there it starts the entity |
| Admin.AmpersandsStartEntities | public/js/admin.js:95-99 | every `&` of the output begins one of the five entities |
| Admin.TotalPages | public/js/admin.js:103 | `max(1, ceil(total / 20))`: at least 1; 1 for no rows; otherwise the least `n` with `20 n >= total` |
| Admin.GetToken | public/js/admin.js:23-25 | the trimmed input if non-empty, else the stored token if non-empty, else `''` |
| Admin.ShownStats | public/js/admin.js:56-60 | the statistics line shows the row count, the like sum (0 rather than NULL for no rows) and the number of distinct locations |
| Admin.CardIds | public/js/admin.js:72-90 | one card per row, in order, carrying the row's id |
| Admin.Without | public/js/admin.js:153 | removing a card never adds one |
| Admin.WithoutMembers | public/js/admin.js:153 | exactly the other cards stay |
| Admin.AdminPage.constructor | public/js/admin.js:2-8 | the initial `state`: page 0, no search, total 0, not loading, the stored token |
| Admin.AdminPage.UpdatePager | public/js/admin.js:102-108 | prev is disabled iff `page <= 0` or loading; next iff `page >= totalPages - 1` or loading |
| Admin.AdminPage.BeginLoad | public/js/admin.js:110-119 | loading is set, both buttons disabled, and the page's query sent |
| Admin.AdminPage.FinishLoad | public/js/admin.js:120-128 | a response sets the total and the cards (the notice when empty); a failure shows the error; loading ends and the buttons follow |
| Admin.AdminPage.LoadStats | public/js/admin.js:56-64 | a response shows its statistics line; a failure shows none |
| Admin.AdminPage.Prev | public/js/admin.js:184-188 | ignored when disabled; otherwise one page back, a reload, and the loading flag set so a second click is ignored; the page stays in range |
| Admin.AdminPage.Next | public/js/admin.js:189-194 | ignored when disabled; otherwise one page on, never past the last page, a reload, and the loading flag set; the page stays in range |
| Admin.AdminPage.Search | public/js/admin.js:197-205 | the trimmed text becomes the search, the page goes back to 0 and the reload marks loading |
| Admin.AdminPage.RequestDelete | public/js/admin.js:131-147 | a request is sent iff there is a token and the user confirmed; it carries the token as query parameter, `x-admin-token` and `Bearer`; no token sets the error status |
| Admin.AdminPage.StepBackIfEmptied | public/js/admin.js:157-160 | an emptied list on a later page goes back exactly one page and reloads; otherwise nothing changes |
| Admin.AdminPage.DeleteDone | public/js/admin.js:148-164 | a failure shows the message as an error and changes neither cards, statistics, page nor loading; a success removes the card, refreshes the statistics, steps back as above, and reports success; with no reload the loading flag is kept |
| Admin.AdminPage.SaveToken | public/js/admin.js:168-176 | a blank input is refused as an error and nothing is stored; otherwise the trimmed input is stored and the status is not an error |
| Admin.AdminPage.ClearToken | public/js/admin.js:178-182 | the stored token and the input are cleared, so a delete is refused; the status is not an error |

## Left out

- One clock reading per request: the source calls `Date.now()` up to three times per request (the cutoff, `created_at`, the log row). The model reads a single `now` as a parameter.
- String lengths count Dafny characters, not UTF-16 code units. A name or comment with characters outside the Basic Multilingual Plane would be longer in JavaScript.
- `parseInt` is modelled for whitespace, sign, a `0x` prefix and the longest digit run. Numbers too large for a double and exponent or float syntax are not modelled.
- SQL `LIKE` is modelled as an ASCII case-insensitive substring test. `%` and `_` typed inside a search act as wildcards in SQLite and are not modelled.
- SQLite's order among rows with equal sort keys is unspecified. The model fixes one order, but its contracts claim only sortedness and permutation.
- JSON bodies whose `name`, `image` or `content` is not a string are not modelled. Fields are optional strings.
- The 500 paths (exceptions from the database or the runtime) are not modelled, nor concurrency between requests. In particular, the check-then-record race between two requests from one address is not modelled: requests run one after another.
- `geoip.lookup` is a foreign database and is the oracle parameter `geo`.
- `DELETE /api/pigs/:id` has no handler in the server files. Only the admin page's request is modelled, and no server-side credential check.
- `server/routes/ai.js` (a network client), `public/js/api.js` (fetch wrappers) and `public/js/home.js` (floating-point parallax) are not part of this model.
- Express routing, static files, JSON parsing, `console` logging and process signals are I/O plumbing and are not modelled.
- Rendering is not modelled: canvas strokes, pointer positions and pressure, the DOM cards and the modal. A drawing is represented only by the snapshot string it leaves.
- Draw.Board.RestoreState: the image load is asynchronous in the source. The model restores at once, so a second undo before the image loads is not modelled.
- Gallery.FormatTime: the date shown from seven days on (`toLocaleDateString`) is the abstract `Calendar` bucket.
- A response from an earlier request arriving after a new search in the gallery (stale listing responses) is not modelled. So is `localStorage` being changed from another tab between reading and writing `likedPigs`.
- Admin.AdminPage.Search: the 300 ms debounce is not modelled. The method is the timer's callback.
- `encodeURIComponent` of the keyword and the token is not modelled. The query is modelled as the decoded parameters the server sees.
- Admin.AdminPage.DeleteDone: `cardEl.remove()` is modelled as removing that pig's id from the list of cards. Two cards with the same id are not distinguished.
- The canvas data URL's validity beyond its `data:image/png` prefix is not modelled.
