# folio: a verified model of the bookmark app's core

folio is a read-it-later app. A React client lists saved bookmarks, filters them
by their archived flag, adds new ones and archives read ones; it also shows a
table of links imported from a Pocket export. A FastAPI server stores bookmarks
(fetching each page's title and description when it is saved) and serves the
imported Pocket links. A script reads a Pocket CSV export into the
`pocket_links` table.

This Dafny project models:

- the client controller `App` (App.tsx) as a class whose handlers run as one
  step each, given the reply the server sent;
- the two client API services (bookmarkService.ts, pocketService.ts): the
  record conversions, the request each call sends, and the mapping of a reply to
  a value or an `ApiError`;
- the Pocket table's render logic (PocketTable.tsx): row numbers, the tag
  summary with its "+N" badge, the status badge and the empty notice;
- the request handlers of server.py and of the older main.py, over an in-memory
  store class;
- the ingestion loop of ingest_pocket_data.py, against a session class that
  holds pending rows until it commits.

Modules: `Wrappers` (Option/Result), `Text` (trim, split, integer text), `Lists`
(filter/map/find), `Api`, `BookmarkService`, `PocketService`, `PocketTable`,
`AppState`, `Store`, `Server`, `LegacyServer`, `Ingest`.

The ingestion loop is specified by `Ingest.Replay`, a function that runs the
loop's decisions over the rows read so far. `IngestCsv` is proved to leave the
session in the state `Replay` describes: every added link committed, or on an
error only the full batches of 100 committed. Lemmas about `Replay` prove that,
when no row aborts the run, every row is either processed or skipped, and that
ids are consecutive. When the
stored URLs are unique beforehand, they also prove that a run adds no URL
already stored or added earlier, and that its URL lookup never raises.

## Model

| member | source | states |
|---|---|---|
| `Text.Trim` | server/ingest_pocket_data.py:36-40 | `strip()` in Python and `trim()` in JavaScript, each with its own runtime's whitespace set: the result starts and ends with a non-space character, or is empty |
| `Text.TrimIsSlice` | server/ingest_pocket_data.py:36-40 | trimming only cuts whitespace from the two ends: the result is a slice of the input, with whitespace on both sides |
| `Text.TrimEmptyIffAllSpace` | server/ingest_pocket_data.py:36 | a cell trims to "" (and so `or None` gives None) exactly when it is all whitespace |
| `Text.Split` | client/src/components/PocketTable.tsx:57 | `split(',')` gives at least one part, and no part contains the separator |
| `Text.SplitCount` | client/src/components/PocketTable.tsx:57 | the number of parts is the number of commas plus one, empty parts included |
| `Text.SplitJoin` | client/src/components/PocketTable.tsx:57 | joining the parts with the separator gives back the tag string |
| `Text.ParseInt` | server/ingest_pocket_data.py:48-53 | `int()` on a stripped string succeeds exactly on an optional sign followed by decimal digits |
| `Text.IntToString` | client/src/api/bookmarkService.ts:18 | `toString()`/`str()` of an integer: a '-' exactly when it is negative, then decimal digits with no leading zero whose value is its magnitude |
| `Text.IntToStringRoundTrip` | client/src/api/bookmarkService.ts:18 | `id.toString()` can be parsed back to the same id |
| `Text.IntToStringInjective` | client/src/api/pocketService.ts:28 | distinct numeric ids give distinct string ids |
| `Lists.Filter` | client/src/App.tsx:73 | `filter` keeps exactly the elements satisfying the predicate |
| `Lists.FilterAppend` | client/src/App.tsx:17 | filtering distributes over concatenation, so kept elements stay in their original order |
| `Lists.FilterKeepsAll` | client/src/App.tsx:17 | a filter returns its input exactly when every element satisfies it |
| `Lists.FilterLength` | client/src/App.tsx:89 | a filtered list's length is the number of elements satisfying the predicate |
| `Lists.WithKey` | server/ingest_pocket_data.py:57-59 | a `where column == value` query returns only rows with that value, every such row, and one entry per matching row; so it is empty exactly when none matches. The URL lookups of server.py and the ingestion script and the archived listing use it |
| `Lists.DistinctKeyLookup` | server/server.py:75-77 | when no two rows share a key (a URL), the lookup by that key finds at most one row, so `scalar_one_or_none` cannot raise |
| `Lists.Map` | client/src/App.tsx:76 | `map` keeps the length and transforms each element in place |
| `Lists.Find` | client/src/App.tsx:62 | `find` gives the first matching element, or nothing exactly when no element matches |
| `Api.BaseUrl` | client/src/api/bookmarkService.ts:4 | the configured base URL when set and non-empty, else "http://localhost:8000" |
| `Api.MakeRequest` | client/src/api/bookmarkService.ts:40-47 | the request goes to base + endpoint with the given verb, body and credentials flag |
| `Api.Respond` | client/src/api/bookmarkService.ts:49-62 | no response is a network error. A non-2xx status is an `ApiError` carrying that status, the fixed message and the body's `detail` when there is one. A 2xx reply gives the decoded body |
| `Api.FailureMessage` | client/src/api/bookmarkService.ts:59 | the message starts with "API request failed with status " |
| `Api.FailureMessageNamesStatus` | client/src/api/bookmarkService.ts:59 | the number after the prefix is the status |
| `Api.FailureMessageInjective` | client/src/api/pocketService.ts:70 | two statuses with the same message are the same status |
| `Api.ApiErrorsAreNotOk` | client/src/api/pocketService.ts:60-71 | every `ApiError` comes from a non-2xx response and carries its status |
| `Api.BoolText` | client/src/api/bookmarkService.ts:68 | a boolean is written as "true" or "false" in the query string |
| `BookmarkService.ConvertToBookmark` | client/src/api/bookmarkService.ts:17-23 | the id is `IntToString` of the server id, which parses back to it. The title is the server title unless null or empty, then the URL. The description is "" when null. URL and archived flag are copied |
| `BookmarkService.ConvertKeepsIdsDistinct` | client/src/api/bookmarkService.ts:18 | different server ids stay different after conversion |
| `BookmarkService.ConvertedTitleNonEmpty` | client/src/api/bookmarkService.ts:20 | a bookmark with a URL never shows an empty title |
| `BookmarkService.FetchBookmarks` | client/src/api/bookmarkService.ts:66-75 | GET `/bookmarks/?archived=true\|false`, `false` when no flag is given. On success the list has the same length and each element is converted in order; errors pass through |
| `BookmarkService.CreateBookmark` | client/src/api/bookmarkService.ts:78-89 | POST to `/bookmarks/` with body `{"url": url}`; the reply is converted or its error passed on |
| `BookmarkService.ArchiveBookmark` | client/src/api/bookmarkService.ts:92-102 | PATCH `/bookmarks/{id}/archive` with no body; the reply is converted or its error passed on |
| `PocketService.ConvertToPocketLink` | client/src/api/pocketService.ts:27-35 | the id becomes `IntToString` of the server id, which parses back to it, and the title falls back to the URL. Every other field, a null tags value included, is copied |
| `PocketService.FetchPocketLinks` | client/src/api/pocketService.ts:77-86 | GET `/pocket-links/?status_filter=` with the filter, default "unread", sent without credentials. The result is converted element by element in order |
| `PocketTable.TagSummary` | client/src/components/PocketTable.tsx:55-71 | null or "" tags give "No tags". Otherwise the first min(3, k) split parts are shown, trimmed and in order, and a "+N" badge with N = k − 3 appears exactly when k > 3 |
| `PocketTable.TagSummaryAccountsForAllTags` | client/src/components/PocketTable.tsx:57-65 | the shown tags plus the number on the badge equal the number of commas plus one |
| `PocketTable.SplitFourTags` | client/src/components/PocketTable.tsx:57 | "a,b,c,d" splits into four one-letter parts |
| `PocketTable.FourTagsExample` | client/src/components/PocketTable.tsx:57-65 | "a,b,c,d" shows a, b, c and a "+1" badge |
| `PocketTable.StatusVariant` | client/src/components/PocketTable.tsx:75 | the badge uses the default variant exactly for status "unread" |
| `PocketTable.Render` | client/src/components/PocketTable.tsx:37-98 | one row per link in input order, numbered k + 1, with the link's tag cell and status badge. The "No pocket links found." notice appears exactly for an empty list |
| `PocketTable.RowNumbersAreOneToN` | client/src/components/PocketTable.tsx:37-39 | row numbers run from 1 to n and strictly increase |
| `Store.ScalarOneOrNone` | server/server.py:77 | no match gives None and one match gives that row; two or more raise |
| `Store.MarkArchived` | server/server.py:123 | only rows with the id get `archived = true`; every other row and the length stay the same |
| `Store.MarkArchivedIdempotent` | server/server.py:123-126 | archiving twice is archiving once |
| `Store.BookmarkStore.WithUrl` | server/server.py:75-76 | the query returns stored rows with that URL, every such row, and one entry per matching row |
| `Store.BookmarkStore.WithId` | server/server.py:113-114 | the query returns stored rows with that id, and every such row |
| `Store.BookmarkStore.AtMostOneWithId` | server/models.py:9 | the primary key makes an id lookup find at most one row |
| `Store.BookmarkStore.constructor` | server/models.py:6-15 | an empty table whose first id is 1 |
| `Store.BookmarkStore.Insert` | server/server.py:90-97 | the new row gets the next id and `archived = false` and is appended; ids stay increasing |
| `Store.BookmarkStore.SetArchived` | server/server.py:123-124 | the table becomes the one with that id archived; ids are unchanged |
| `Store.PocketLinkSession.Add` | server/ingest_pocket_data.py:75 | the link joins the pending rows with the next id; the committed table is unchanged |
| `Store.PocketLinkSession.Commit` | server/ingest_pocket_data.py:80 | pending rows are appended to the table and the pending list empties |
| `Store.PocketLinkSession.Rollback` | server/ingest_pocket_data.py:91 | pending rows are discarded; the table is unchanged |
| `Server.CreateBookmark` | server/server.py:69-98 | a stored URL gives 409 with "URL already exists with bookmark ID {id}" and an unchanged store. A URL stored twice gives 500. Otherwise exactly one row is added with the URL, the fetched title and the description or "No description available". URL uniqueness is preserved |
| `Server.ListBookmarks` | server/server.py:101-107 | exactly the rows whose `archived` equals the flag, default false, each once |
| `Server.ListingsPartitionRows` | server/server.py:104 | every row is in exactly one of the two listings |
| `Server.ArchiveBookmark` | server/server.py:110-126 | an unknown id gives 404 "Bookmark with ID {id} not found" and an unchanged store; otherwise only that row's flag becomes true and the row is returned |
| `Server.SortNewestFirst` | server/server.py:141 | the result is a permutation ordered by `time_added`, newest first |
| `Server.ListPocketLinks` | server/server.py:129-145 | "all" keeps every link and any other filter keeps exactly the links with that status, default "unread". The result is newest first and a permutation of the kept links |
| `LegacyServer.CreateBookmark` | server/main.py:69-84 | always appends one row holding what the metadata fetch returned, with no duplicate check and no description default |
| `LegacyServer.RepeatedCreateDuplicates` | server/main.py:74-82 | creating a stored URL again leaves two rows with that URL |
| `LegacyServer.ListBookmarks` | server/main.py:87-93 | the same listing as server.py |
| `LegacyServer.ArchiveBookmark` | server/main.py:96-112 | the same 404 / archive behaviour as server.py |
| `Ingest.Field` | server/ingest_pocket_data.py:36-40 | a missing column reads as "". A present value is stripped. A null value (short CSV row) raises |
| `Ingest.OrNone` | server/ingest_pocket_data.py:36 | `s or None` is None exactly for the empty string |
| `Ingest.ReadRow` | server/ingest_pocket_data.py:36-40 | all five columns are read and stripped; the row fails exactly when one of them is null |
| `Ingest.Classify` | server/ingest_pocket_data.py:42-76 | no URL, then an unparsable `time_added`, then a URL already visible are skipped, each exactly in its case. A lookup matching two links raises. An accepted row carries the parsed time, title or None, tags or None, and a URL no visible link has |
| `Ingest.JudgeCases` | server/ingest_pocket_data.py:34-76 | a row that fails to read aborts with its error; an accepted URL is non-empty and new to the session |
| `Ingest.Step` | server/ingest_pocket_data.py:43-76 | after an error nothing changes. An accepted row is appended with the next id. A skip adds one to the skipped count. An abort records the error |
| `Ingest.ReplayStops` | server/ingest_pocket_data.py:90-93 | once a row aborts, the rows after it change nothing |
| `Ingest.ReplayCountsEveryRow` | server/ingest_pocket_data.py:43-76 | without an error, processed + skipped equals the number of rows; it never exceeds it |
| `Ingest.ReplayNumbersLinks` | server/ingest_pocket_data.py:67-75 | added links get consecutive ids from the session's counter and never an empty URL |
| `Ingest.ReplayAddsNewUrls` | server/ingest_pocket_data.py:56-64 | if stored URLs are unique, they stay unique after the run adds its links |
| `Ingest.ReplayLookupNeverFails` | server/ingest_pocket_data.py:57-64 | when the stored URLs are unique, a run never stops on a lookup matching two links; only a null column can stop it |
| `Ingest.BatchFull` | server/ingest_pocket_data.py:79 | after an addition, the processed count is a multiple of 100 exactly when a full batch is pending |
| `Ingest.KeptBatches` | server/ingest_pocket_data.py:90-91 | after a rollback the table keeps everything but the pending links |
| `Ingest.Record` | server/ingest_pocket_data.py:75-81 | an accepted row is added and counted, and a full batch is committed. A skip is counted. An abort rolls back. The session matches `Step` afterwards |
| `Ingest.IngestOne` | server/ingest_pocket_data.py:34-81 | one pass of the loop body moves the loop's state from `Replay` of the first i rows to `Replay` of the first i + 1 rows |
| `Ingest.IngestCsv` | server/ingest_pocket_data.py:23-93 | the run ends as `Replay` of all rows says: the counts are returned and every link committed, or the error is raised with only full batches of 100 kept; commits match the batches and nothing stays pending |
| `AppState.Unlisted` | client/src/App.tsx:73 | after archiving in the active view no entry has the id, and every entry with another id stays |
| `AppState.FlaggedArchived` | client/src/App.tsx:76 | after archiving in the archived view only the entries with the id change, and only in their flag; the length is unchanged |
| `AppState.Displayed` | client/src/App.tsx:17 | the displayed bookmarks are held bookmarks whose `archived` equals the filter, and every such bookmark is displayed |
| `AppState.DisplayedCount` | client/src/App.tsx:89 | the navbar count is the number of held bookmarks in the current view |
| `AppState.HonestLoadShowsAll` | client/src/App.tsx:20-36 | when the server returns only bookmarks of the requested kind, all of them are displayed |
| `AppState.AppendedShowsLast` | client/src/App.tsx:45-47 | an appended unarchived bookmark shows last in the active view |
| `AppState.App.constructor` | client/src/App.tsx:10-14 | the initial state: no bookmarks, active view, not loading, no error |
| `AppState.App.FilteredBookmarks` | client/src/App.tsx:17 | `filteredBookmarks` holds exactly the bookmarks of the current view |
| `AppState.App.View` | client/src/App.tsx:89-105 | the banner shows the error, the loading notice replaces the table exactly while loading, and the navbar gets the view's count |
| `AppState.App.ToggleArchived` | client/src/App.tsx:89 | the toggle flips the filter and changes nothing else |
| `AppState.App.LoadBookmarks` | client/src/App.tsx:20-36 | a successful load replaces the list with the converted reply. A failed load keeps the list and shows "Failed to load bookmarks. Please try again later.". Loading ends either way |
| `AppState.App.AddBookmark` | client/src/App.tsx:39-54 | success appends exactly the created bookmark in the active view and changes nothing in the archived view. Failure keeps the list and shows "Failed to add bookmark. Please try again.". Loading ends |
| `AppState.App.ArchiveToggle` | client/src/App.tsx:57-85 | a request is sent exactly when the first bookmark with the id exists and is unarchived. Otherwise the list is unchanged and loading stays on. Success in the active view removes exactly that id and keeps the rest in order. Success in the archived view flags only that id's entries. Failure keeps the list and shows "Failed to archive bookmark. Please try again." |
| `AppState.App.ArchiveToggleSettled` | client/src/App.tsx:57-85 | the same list, banner and request as `ArchiveToggle`, with loading off on every path |
| `AppState.RestoreClickLeavesLoading` | client/src/components/BookmarkTable.tsx:52-58 | clicking "Restore" on an archived bookmark leaves the page on the loading notice |
| `AppState.RestoreClickSettles` | client/src/App.tsx:81-83 | with the settled handler the same click leaves the archived table on screen and sends no request |

`Ingest.IngestCsv` states the following. Let p be `Replay` of the rows read, starting from the session's table and id counter.

- Without an error, it returns p's processed and skipped counts, and the table gains exactly p's links.
- With an error, it raises that error and only the links of full batches of 100 stay.
- In both cases, the commit count matches the batches and nothing stays pending.

## Left out

- Network I/O. Every awaited call is an input: the reply `fetch` produced (`Api.Reply`) and the metadata `fetch_url_metadata` returned (`Server.Metadata`). The HTML scraping in server/utils.py is not part of this model.
- Concurrency:
  - Each client handler runs as one atomic step, so overlapping requests and stale replies are not modelled.
  - React's re-rendering and effect scheduling are not modelled. The load effect runs after a toggle and on mount; a caller composes `ToggleArchived` and `LoadBookmarks`.
- Logging: `console.error`, the script's `print` progress lines and its final summary (`Counts` holds the two numbers it prints).
- The add modal's open/closed state, Navbar's markup and `formatDate` (DateFormatter.ts).
- The modal only calls the add handler with a non-empty URL (AddBookmarkModal.tsx:19); `App.AddBookmark` itself accepts any string.
- Timestamps: `created_at`/`updated_at` on the server are clock values. The Pocket conversion copies `created_at` through as a string; the bookmark conversion drops it (bookmarkService.ts:17-23).
- Request bodies are validated by pydantic: `str(bookmark.url)` may normalise the URL, e.g. add a trailing slash. The model takes the normalised string as given.
- The database engine, sessions (`get_db`), table creation, CORS setup and the script's `main` (argument checking, `asyncio.run`).
- Opening and decoding the CSV file. `csv.DictReader` rows arrive as maps from column to value, with `None` for a column missing from a short row.
- Python `int()` also accepts underscores between digits and non-ASCII digits. `Text.ParseInt` accepts ASCII digits only.
- `Text.Trim`: each runtime's whitespace set is written out as current Unicode defines it. Python's also holds U+001C..U+001F and U+0085, and JavaScript's holds U+FEFF. U+180E, whitespace only before Unicode 6.3, is in neither set.
- App.tsx has no 409-specific add message, no submitting state and no suppression of stale replies. Every failed add shows the same text. The modal closes at once (AddBookmarkModal.tsx:19-30). The last reply to arrive wins.
- Ids:
  - a pending Pocket link takes its id when added, where the database assigns it at flush;
  - ids handed out before a rollback are not reused, as with a database sequence.
- `Server.SortNewestFirst`: rows with equal `time_added` may come in any order from the database. The model fixes one admissible order and proves only that the result is sorted and a permutation.
- `Api.Respond`: the unchecked `as T` cast is modelled as a reply that either decodes to the expected shape or is not JSON at all. A JSON body of the wrong shape is not modelled.
- `Api.Respond`: an error body's `detail` is modelled as a string or absent. FastAPI's validation replies (422, e.g. an invalid URL on create) carry a list there, which `ApiError.detail` then holds; no caller in the client reads `detail`, so nothing downstream depends on it.
- The two services each declare their own `ApiError` class with the same fields. They are modelled as one type.

## Findings

| source | as written | input that shows it | evidently intended | confidence | as-written member | corrected member |
|---|---|---|---|---|---|---|
| client/src/App.tsx:57-85 | `setIsLoading(true)` runs before the lookup. The early return for an unknown id and the skipped branch for an archived bookmark both miss the `finally` that clears it | open the archived view and click "Restore" on a row (BookmarkTable.tsx:52-58); the page stays on "Loading bookmarks..." | loading ends on every path | high, not executed | `AppState.RestoreClickLeavesLoading` | `AppState.RestoreClickSettles` |
| server/main.py:69-84 | creating a bookmark never checks for an existing URL | two creates of the same URL through main.py, then a create of that URL through server.py: the lookup's `scalar_one_or_none` raises and the reply is 500, not 409 | reject a stored URL with 409, as server.py does, which keeps URLs unique | medium, not executed | `LegacyServer.RepeatedCreateDuplicates` | `Server.CreateBookmark` |
