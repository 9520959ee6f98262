# Vector-bot core, modelled in Dafny

Vector-bot is a Discord bot for students. Its core logic is modelled here:

- the daily library due-date sweep over a small registry of users, each with a `notified` flag that is set during a sweep and cleared at its end;
- the library client's conversion of the scraped issue table into one dictionary per row, and its fixed-layout text block of issued books;
- the Google Classroom helpers: classifying credential and service results into an auth URL, an error object or a service, and building the top-three course feed;
- the two credential modules: loading the stored token from the backend, the decision between stored, refreshed and fresh credentials, the reply to an unsubscribe request, and the OAuth `state` value. `state` is padded base64url (section 5 of RFC 4648) of the JSON text `{"clientid": id}`, or `{"user_id": id}` in the older module.

Network calls, HTML parsing, the Google libraries and Discord are parameters of the model:

- a login result is an `Option<string>`;
- a fetched page is its header texts and row cell texts, or `None`;
- a backend reply is a `Response` value;
- `execute()` results are `Option` or `Call` values;
- the date formatter and the consent-URL builder are functions.

The Dafny modules follow the Python files:

| module | file |
|---|---|
| `DueDateCheck` | `bot/tasks/due_date_check.py` |
| `LibraryApi` | `bot/utils/library_api.py` |
| `ClassroomFeed` | the feed part of `bot/utils/classroom_api.py` and its copy in `google_auth_old.py` |
| `ClassroomApi` | the result classification of `bot/utils/classroom_api.py` |
| `GoogleAuth` | `bot/utils/google_auth.py` |
| `GoogleAuthOld` | `bot/utils/google_auth_old.py` |
| `StateToken` | the `json.dumps` text inside the `state` token |
| `Base64Url` | the base64url encoding of the `state` token |
| `PyText` | the Python string semantics used: `strip`, `split()[0]`, `int()`, `str()`, `capitalize`, `join` and string ordering |

The registry is a class. Its sweep is a method proved equal to a specification function, and the properties are lemmas about that function.

## Where the model follows the code

- The flag is set for every user whose login returned a non-empty cookie, whether or not any book was in the window or any alert was sent (`due_date_check.py:56`).
- There is one attempt per in-window book, not one per user.
- An exception that escapes the sweep ends it without the closing reset, so the flags stay as they were at that point. Two such exceptions exist:
  - an `IndexError` when a table row has more cells than there are headers;
  - a `KeyError` on "Title" or "Return Date" while the alert is built.

  The model therefore proves "all flags clear" only for a sweep that ran to the end.
- `capitalize()` turns "courseWorkMaterial" into "Courseworkmaterial".

## Model

| member | source | states |
|---|---|---|
| DueDateCheck.OverDueDaysOfText | bot/tasks/due_date_check.py:33 | `OverDueDays`, the `int(book["Over Due"].split()[0])` of a book, reads an Over Due text that starts with `str(d)` followed by whitespace or nothing back as `d` |
| DueDateCheck.BookStep | bot/tasks/due_date_check.py:30-55 | a book yields something only when its day count (`OverDueDays`) parses, lies in the window -3..0 (`InWindow`, line 41) and the flag is clear; every attempt is addressed to the user; the sweep aborts exactly when such a book belongs to a reachable user and lacks Title or Return Date |
| DueDateCheck.AlertMessage | bot/tasks/due_date_check.py:44-48 | the alert starts with the fixed header, followed by the book title |
| DueDateCheck.AlertBooks | bot/tasks/due_date_check.py:30-55 | the book loop's attempts, in order, and its abort flag equal the book-loop specification |
| DueDateCheck.UserTurn | bot/tasks/due_date_check.py:25-56 | a user without a truthy cookie gets no attempt and no flag; the flag is set exactly when the cookie is truthy and nothing escaped; a user already flagged gets no attempt |
| DueDateCheck.UserTurnSteps | bot/tasks/due_date_check.py:25-55 | login, fetch and the book loop compute the user's turn |
| DueDateCheck.NotifiedMeansSilent | bot/tasks/due_date_check.py:41 | with the flag set, the book loop makes no attempt and cannot abort |
| DueDateCheck.Visit | bot/tasks/due_date_check.py:21-56 | the user loop keeps the registry's set of names |
| DueDateCheck.ClearFlags | bot/tasks/due_date_check.py:59-60 | the reset keeps every name and every entry, with the flag false |
| DueDateCheck.VisitOnlyFlags | bot/tasks/due_date_check.py:21-56 | the user loop changes nothing in the registry except the `notified` flags |
| DueDateCheck.SweepKeepsRegistry | bot/tasks/due_date_check.py:19-61 | `SweepSpec`, the user loop followed by the reset only when nothing escaped, changes only the flags; a sweep that runs to the end leaves every flag false |
| DueDateCheck.VisitIsolatesUsers | bot/tasks/due_date_check.py:21-56 | with distinct names, each user's turn sees the entry held at the start of the sweep, so the sweep's attempts are the users' own attempts in registry order |
| DueDateCheck.NextSweepStartsClear | bot/tasks/due_date_check.py:19-61 | after a sweep that ran to the end, the next sweep's turns run on the entries as they were before it, each with the flag clear |
| DueDateCheck.InWindowBooks | bot/tasks/due_date_check.py:33-41 | every selected book's `OverDueDays` parses and satisfies `InWindow` (-3..0); no more books than the table holds |
| DueDateCheck.InWindowBooksMembers | bot/tasks/due_date_check.py:30-41 | the selected books are exactly the table's books whose day count parses into the window |
| DueDateCheck.InWindowBooksConcat | bot/tasks/due_date_check.py:30-41 | selecting from two stretches of the table, one after the other, gives the selections in that order, so table order is kept |
| DueDateCheck.ClearFlagAlertsEveryBook | bot/tasks/due_date_check.py:30-55 | with the flag clear and nothing escaping, there is exactly one attempt per in-window book, in table order |
| DueDateCheck.UnparsableBookSkipped | bot/tasks/due_date_check.py:31-38 | inserting a book whose Over Due value does not parse changes nothing for the other books |
| DueDateCheck.AbortOnlyOnMissingKey | bot/tasks/due_date_check.py:42-55 | the book loop aborts exactly when some book's step is the missing-key abort |
| DueDateCheck.Registry.constructor | bot/tasks/due_date_check.py:7-14 | the registry starts with its one user and every flag false |
| DueDateCheck.Registry.Sweep | bot/tasks/due_date_check.py:19-61 | the attempts, the completion flag and the new registry are those of `SweepSpec`; a completed sweep leaves all flags false |
| DueDateCheck.Registry.VisitUsers | bot/tasks/due_date_check.py:21-56 | the user loop over the registry in place equals the user-loop specification from the old registry |
| DueDateCheck.Registry.TakeTurn | bot/tasks/due_date_check.py:22-56 | one user's turn, with that user's flag set in place exactly when the turn finished with a cookie |
| DueDateCheck.Registry.ResetFlags | bot/tasks/due_date_check.py:59-60 | the registry becomes its old contents with every flag cleared |
| LibraryApi.RowMap | bot/utils/library_api.py:59-62 | a row converts exactly when it has no more cells than there are headers (otherwise IndexError) |
| LibraryApi.RowMapContents | bot/utils/library_api.py:59-62 | `Pairs`, the dictionary built from the headers and one row's cells, has as keys exactly the headers that have a cell; a header maps to the stripped text of its last cell |
| LibraryApi.TableRowsDefined | bot/utils/library_api.py:57-63 | `TableRows`, the conversion of every row, succeeds exactly when no row is longer than the header list |
| LibraryApi.TableRowsElements | bot/utils/library_api.py:57-63 | on success `TableRows` gives one dictionary per row, in row order, each the row's `Pairs` |
| LibraryApi.ConvertRows | bot/utils/library_api.py:57-63 | the appending loop computes the row conversion |
| LibraryApi.StripAll | bot/utils/library_api.py:51 | the header texts keep their number and order, each stripped |
| LibraryApi.GetBookIssueInfo | bot/utils/library_api.py:39-65 | no page gives `None`; an IndexError escapes exactly when some row is too long; otherwise one map per row, with the headers stripped |
| LibraryApi.MissingField | bot/utils/library_api.py:83-87 | `None` exactly when all five fields are present; otherwise the first of Accession No., Title, Issue Date, Return Date, Over Due that the book lacks, every earlier one being present |
| LibraryApi.Body | bot/utils/library_api.py:81-88 | the books format without KeyError exactly when every book has the five fields |
| LibraryApi.FormatSpec | bot/utils/library_api.py:76-90 | `None` or an empty list gives "No book issue data available."; a KeyError escapes exactly when some book lacks a field |
| LibraryApi.FormatBookIssueData | bot/utils/library_api.py:76-90 | the message-growing loop computes the formatter's result |
| LibraryApi.KeyErrorNamesFirstMissing | bot/utils/library_api.py:81-88 | the KeyError names the first missing field, in the f-string's order, of the first incomplete book |
| LibraryApi.BodySnoc | bot/utils/library_api.py:81-88 | one more complete book appends exactly its block |
| LibraryApi.FormatAppendsBlock | bot/utils/library_api.py:80-89 | a complete list formats to the opening, one block per book in order, and the closing fence |
| PyText.Strip | bot/utils/library_api.py:61 | `strip()` never lengthens the text, leaves no whitespace at either end, and is empty exactly when the text is all whitespace |
| PyText.StripSlice | bot/utils/library_api.py:61 | `strip()` removes only leading and trailing whitespace and keeps the middle |
| PyText.FirstToken | bot/tasks/due_date_check.py:33 | `split()[0]` fails exactly on empty or all-whitespace text; otherwise it is the first whitespace-free run after the leading whitespace, which `ParseInt` then reads |
| PyText.ParseIntOfIntToString | bot/tasks/due_date_check.py:33 | `ParseInt` (`int()`) reads `IntToString(i)` (`str(i)`) back as `i` |
| PyText.IntToStringShape | bot/utils/classroom_api.py:140 | `str(i)` is non-empty and has no whitespace; it is a '-' and the digits of -i for negative i, and the digits of i otherwise |
| PyText.CapitalizeChars | bot/utils/classroom_api.py:140 | `Capitalize` (`capitalize()`) upper-cases the first letter and lower-cases the rest |
| PyText.Capitalize | bot/utils/classroom_api.py:140 | `capitalize()` keeps the length of the text |
| PyText.Join | bot/utils/classroom_api.py:136 | `"\n".join` of no lines gives the empty text, and of one line that line |
| PyText.JoinSnoc | bot/utils/classroom_api.py:136 | one more line is appended after the separator, so several lines read first, separator, second, ... |
| PyText.LexLeTotal | bot/utils/classroom_api.py:83 | any two strings are ordered by `LexLe`, the string comparison the sort key uses |
| PyText.LexLeTransitive | bot/utils/classroom_api.py:83 | the string order is transitive |
| PyText.LexLeAntisymmetric | bot/utils/classroom_api.py:83 | strings ordered both ways are equal |
| Base64Url.Encode | bot/utils/google_auth.py:113-115 | the encoding has length 4 * ceil(n/3) and uses only A-Z a-z 0-9 '-' '_' '=' |
| Base64Url.DecodeEncode | bot/utils/google_auth.py:113-115 | decoding the encoding gives back the bytes |
| StateToken.DumpsPairPrintable | bot/utils/google_auth.py:112-114 | `DumpsPair`, the `json.dumps` text of the one-key state object, is printable ASCII, whatever the id holds |
| StateToken.UnescapeEscape | bot/utils/google_auth.py:114 | reading back the JSON escapes of a text gives the text |
| StateToken.LoadsDumpsPair | bot/utils/google_auth.py:112-114 | the `DumpsPair` text is read back to its value |
| StateToken.AsciiRoundTrip | bot/utils/google_auth.py:114 | `.encode()` of ASCII text is read back as the same text |
| StateToken.DecodeEncode | bot/utils/google_auth.py:112-115 | `Decode` of `Encode(key, id)`, the base64url of the `DumpsPair` text, gives back the id |
| StateToken.TokenFacts | bot/utils/google_auth.py:112-115 | a token made by `Encode` decodes to its id, uses only the URL-safe alphabet and '=', and has length 4 * ceil(n/3) |
| GoogleAuth.StoredToken | bot/utils/google_auth.py:34-51 | a token is found exactly when the reply succeeded, is JSON, has no "error" entry and has a non-empty "token" |
| GoogleAuth.LoadCredentials | bot/utils/google_auth.py:31-63 | no credentials for a failed request, an error status, a non-JSON body, an "error" entry, a missing or empty token, or a token the parser rejects; an exception that escapes exactly when the token's JSON is not an object; otherwise the parsed token |
| GoogleAuth.NonObjectTokenRaises | bot/utils/google_auth.py:53-63 | a stored token whose JSON is not an object makes `get_credentials` raise |
| GoogleAuth.Credentials.Refresh | bot/utils/google_auth.py:98 | a refresh succeeds exactly when the library gives new credentials, which then replace the old ones in place; a failure leaves them unchanged |
| GoogleAuth.State | bot/utils/google_auth.py:112-115 | `state` decodes to the client id, uses only the URL-safe alphabet and '=', and has length 4 * ceil(n/3) |
| GoogleAuth.StartFlow | bot/utils/google_auth.py:103-118 | the flow gives the consent URL built for this client's `state`, or raises |
| GoogleAuth.CredentialsOutcome | bot/utils/google_auth.py:92-118 | an exception from loading passes through; absent or not-valid credentials give exactly the flow's outcome (`StartFlow`: the consent URL, or raised); valid credentials that are `Refreshable` (expired, with a non-empty refresh token, line 95) are refreshed, or give the fixed refresh error; any other valid credentials are returned untouched |
| GoogleAuth.GetCredentials | bot/utils/google_auth.py:92-118 | refreshing the credentials object in place gives the decision table's outcome |
| GoogleAuth.DeleteToken | bot/utils/google_auth.py:67-88 | an "error" entry becomes `{"error": msg}` (prefixed on an error status); any other success body is returned unchanged; the handler itself raises on no reply, a non-JSON body, or an error body without "error" |
| GoogleAuth.DeleteTokenReportsErrors | bot/utils/google_auth.py:77-88 | a returned reply has an "error" entry exactly when the backend sent one, and always has one for an error status |
| GoogleAuth.NoRefreshWhenNotExpired | bot/utils/google_auth.py:94-102 | valid credentials that are not `Refreshable` are returned as loaded, whatever a refresh would give |
| GoogleAuth.FlowNeverErrors | bot/utils/google_auth.py:93-118 | when loading gives nothing, the outcome is the flow, never an error |
| ClassroomApi.GetClassroomService | bot/utils/classroom_api.py:8-26 | the auth URL is checked first and returned bare; a credential error is passed on; valid credentials give a service when `build` succeeds; any exception (loading, flow, build) gives the fixed service error |
| ClassroomApi.UnauthorizedClientGetsConsentUrl | bot/utils/classroom_api.py:8-26 | a client without valid stored credentials never gets a service: it gets a consent URL whose `state` decodes to its own id, or the fixed error |
| ClassroomApi.NonObjectTokenGivesServiceError | bot/utils/classroom_api.py:8-26 | a stored token whose JSON is not an object ends in the fixed service error, not a consent URL |
| ClassroomApi.ListClassrooms | bot/utils/classroom_api.py:30-48 | an error object is passed through; a URL asks for authorization; a missing "courses" entry is the empty list; a failed call is the fixed error |
| ClassroomApi.AnnouncementsResult | bot/utils/classroom_api.py:52-156 | error objects and URLs are classified as for classrooms; an unreadable course id or a failed fetch is the generic error; a successful result holds 1 to 3 items |
| ClassroomApi.NoItemsExactlyWhenEmpty | bot/utils/classroom_api.py:148-153 | with both lists fetched, "No items found" comes exactly when both are empty; when the feed succeeds there are items exactly when a list is non-empty; items are always the `Feed` of the lists; a failed feed is the generic error |
| ClassroomApi.ListAnnouncements | bot/utils/classroom_api.py:52-156 | the listing with its loops computes the specified result |
| ClassroomFeed.Tag | bot/utils/classroom_api.py:76-81 | every item is kept, in order, with its type tag; `Merge` is the tagged announcements followed by the tagged materials |
| ClassroomFeed.MergeItems | bot/utils/classroom_api.py:75-81 | the two loops compute `Merge`: all announcements, then all materials, each tagged |
| ClassroomFeed.SortDescSortedPermutation | bot/utils/classroom_api.py:83 | `SortDesc` gives a permutation of its input ordered newest first by `Key`, the creation time with "" when absent |
| ClassroomFeed.SortDescStable | bot/utils/classroom_api.py:83 | items with equal creation times keep their merged order |
| ClassroomFeed.SortByCreationTime | bot/utils/classroom_api.py:83 | the insertion loop gives the stable newest-first sort, sorted and a permutation |
| ClassroomFeed.MaterialLine | bot/utils/classroom_api.py:107-133 | a material gives no line exactly when its processing raises |
| ClassroomFeed.MaterialLineText | bot/utils/classroom_api.py:109-130 | the drive line holds the file's title (default "Untitled") and the view URL of the nested id (default "Unknown ID"); the video and link lines hold title and URL with defaults "Untitled" and "Unknown URL"; otherwise the unknown-type line |
| ClassroomFeed.MaterialLinePriority | bot/utils/classroom_api.py:109-130 | a line's label is that of the first key present: driveFile, then youtubeVideo, then link, otherwise unknown |
| ClassroomFeed.DriveFileId | bot/utils/classroom_api.py:112-114 | the id nested under the drive file's own "driveFile" entry, or "Unknown ID" |
| ClassroomFeed.DriveUrlId | bot/utils/classroom_api.py:115 | the drive URL holds the file id after the fixed prefix |
| ClassroomFeed.DriveLineCarriesId | bot/utils/classroom_api.py:110-118 | a drive file's line carries its `DriveFileId` at the URL's id position |
| ClassroomFeed.MaterialLines | bot/utils/classroom_api.py:106-133 | at most one line per material, and exactly one each when none raises |
| ClassroomFeed.MaterialLinesEmpty | bot/utils/classroom_api.py:106-135 | there are no material lines exactly when every material raises |
| ClassroomFeed.MaterialLinesInOrder | bot/utils/classroom_api.py:106-133 | when none raises, line i is the line of material i |
| ClassroomFeed.CollectMaterialLines | bot/utils/classroom_api.py:106-133 | the material loop computes the material lines |
| ClassroomFeed.WithMaterials | bot/utils/classroom_api.py:135-136 | the materials section is appended only when at least one line exists |
| ClassroomFeed.BaseContent | bot/utils/classroom_api.py:97-104 | an announcement's text, default "No content provided."; a material's title, default "No title provided." |
| ClassroomFeed.EntryContent | bot/utils/classroom_api.py:97-136 | the content starts with the text or title, and gains the materials section exactly when some material was processed |
| ClassroomFeed.EntryTitle | bot/utils/classroom_api.py:140 | titles read "Announcement k" or "Courseworkmaterial k" |
| ClassroomFeed.CapitalizedKindName | bot/utils/classroom_api.py:140 | `capitalize()` of the two type names gives "Announcement" and "Courseworkmaterial" |
| ClassroomFeed.PostedDate | bot/utils/classroom_api.py:88-95 | an absent or empty creation time is "Unknown"; otherwise the formatted date |
| ClassroomFeed.FormatItem | bot/utils/classroom_api.py:87-146 | an entry fails exactly when its date does; otherwise it carries its title, type, posted date, and content (text or title plus the materials section), and the item's description only in the current style |
| ClassroomFeed.FormatFrom | bot/utils/classroom_api.py:86-146 | the entries fail exactly when some entry fails; otherwise one entry per item, numbered in order |
| ClassroomFeed.TopThree | bot/utils/classroom_api.py:83-87 | min(3, n) items are kept |
| ClassroomFeed.TopThreeNewest | bot/utils/classroom_api.py:83-87 | the kept items are newest first, drawn from the merged items, a prefix of the sorted list, and no item left out is newer than a kept one |
| ClassroomFeed.FeedEntries | bot/utils/classroom_api.py:86-146 | `Feed` holds min(3, n) entries; entry k is titled after the k-th newest item's type and k, and carries its type, posted date, content and, in the current style only, description |
| ClassroomFeed.FormattedEntries | bot/utils/classroom_api.py:86-146 | entry k of the formatted list is item k formatted under the number k + 1 |
| ClassroomFeed.FeedEmpty | bot/utils/classroom_api.py:148-150 | the feed is empty exactly when both fetched lists are |
| ClassroomFeed.FeedTotal | bot/utils/classroom_api.py:88-95 | a date formatter that never raises makes the feed succeed |
| ClassroomFeed.FormatTop | bot/utils/classroom_api.py:86-146 | the enumerate loop computes the numbered entries |
| ClassroomFeed.AssembleFeed | bot/utils/classroom_api.py:75-146 | merge, sort, slice and format compute the feed |
| ClassroomFeed.FormatEntry | bot/utils/classroom_api.py:88-146 | the loop body computes one entry |
| GoogleAuthOld.LoadCredentials | bot/utils/google_auth_old.py:30-49 | `None` for a failed request, an error status, a non-JSON body, or a missing, empty or unparsable token; otherwise the loaded JSON |
| GoogleAuthOld.ErrorEntryIgnored | bot/utils/google_auth_old.py:38-43 | a body with both "error" and a token still loads the token |
| GoogleAuthOld.State | bot/utils/google_auth_old.py:78-79 | `state` decodes to the user id, uses only the URL-safe alphabet and '=', and has length 4 * ceil(n/3) |
| GoogleAuthOld.TypeName | bot/utils/google_auth_old.py:64-83 | the tag is "CRED" exactly for credentials and "AUTH" exactly for a URL |
| GoogleAuthOld.GetCredentials | bot/utils/google_auth_old.py:64-83 | any truthy loaded token is "CRED", unchecked; otherwise the consent URL for this user's `state` is "AUTH" |
| GoogleAuthOld.FalsyTokenStartsFlow | bot/utils/google_auth_old.py:65-69 | a falsy loaded JSON value is treated as no token |
| GoogleAuthOld.DeleteCredentials | bot/utils/google_auth_old.py:52-61 | it completes exactly when a reply arrived with a success status; otherwise it re-raises |
| GoogleAuthOld.GetClassroomService | bot/utils/google_auth_old.py:86-93 | a service only from "CRED" data that converts, with `build` succeeding; an "AUTH" result raises; failures are re-raised |
| GoogleAuthOld.ListClassrooms | bot/utils/google_auth_old.py:96-105 | the courses, or [] without "courses"; any failure re-raised unchanged |
| GoogleAuthOld.ErrorMessage | bot/utils/google_auth_old.py:217-222 | an HttpError is reported with its text after "Google API error: "; anything else is the generic message |
| GoogleAuthOld.ListAnnouncementsByCourse | bot/utils/google_auth_old.py:115-222 | with the service call corrected: a raised failure of the service or of either fetch gives its handler's message, an unreadable id the generic error; items are the legacy `Feed` of the two lists, 1 to 3 of them, without a description |
| GoogleAuthOld.LegacyHasNoDescription | bot/utils/google_auth_old.py:201-208 | the legacy feed holds min(3, n) entries, none with a description key |
| GoogleAuthOld.NoItemsExactlyWhenEmpty | bot/utils/google_auth_old.py:201-215 | in the corrected listing, "No items found" comes exactly when both lists are empty; when the feed succeeds there are items exactly when a list is non-empty; a failed feed is the generic error |
| GoogleAuthOld.ListAnnouncementsAsWritten | bot/utils/google_auth_old.py:115-119 | as written, the listing always fails |
| GoogleAuthOld.AsWrittenAlwaysFails | bot/utils/google_auth_old.py:119-222 | as written, every call returns the generic "Failed to fetch items" error |
| GoogleAuthOld.AsWrittenLosesTheFeed | bot/utils/google_auth_old.py:86-222 | for any readable course with items, working credentials and parsable dates, the corrected listing returns the items but the code as written returns the generic error |

## Left out

- Network and I/O:
  - `login_and_get_cookie`, the page request and the BeautifulSoup parsing;
  - the backend requests;
  - the Google `build(...).execute()` calls;
  - Discord `fetch_user` and `send`.

  They are parameters. A failed `send` is only logged, so an attempt to a reachable user is recorded whatever the send does.
- Logging, the 24-hour `tasks.loop` timer and async scheduling. The sweep has no concurrency of its own.
- Date parsing and formatting of `creationTime`: the parameter `formatDate`, `None` where the parser raises.
- The `pageSize` arguments of the Classroom calls. The lists the API returns are inputs.
- google-auth internals:
  - `valid`, `expired` and `refresh_token` are independent inputs, although the library couples them;
  - `from_authorized_user_info` and `authorization_url` are opaque functions.
- JSON bodies: only objects with string values are modelled, plus "not JSON". Non-object bodies, non-string values and floats are not.
- PyText.ParseInt: `int()` is modelled for ASCII digits with an optional sign and single underscores between digits. Other Unicode decimal digits that Python accepts are not modelled.
- PyText.Capitalize: only ASCII case mapping. The type names it is applied to are ASCII.
- StateToken.EscapeChar: lone surrogate code points are not Dafny `char` values and are left out.
- ClassroomFeed.SortByCreationTime: the in-place `list.sort` is modelled on a sequence value. The stable order is the same; in-place update and aliasing of the item dictionaries are not modelled.
- ClassroomApi.GetClassroomService: the branch "No valid credentials found" (classroom_api.py:20-22) is unreachable, because `get_credentials` never returns a falsy value. It is not modelled.
- GoogleAuth.DeleteToken: assumes the installed `requests` raises its JSON decode error as a `RequestException` whose `response` is `None`. The f-string at google_auth.py:88 nests double quotes, which parses only from Python 3.12 on; the model takes it as the message it evidently builds.
- GoogleAuthOld.ListAnnouncementsByCourse: the `isinstance` checks after the service call (google_auth_old.py:122-125) can never apply, because the service is a built service or an exception. They are not modelled.
- DueDateCheck.Registry.VisitUsers: requires only that every name in the iteration order is registered. Distinct names are required by `Valid()` on `Sweep`, and the per-user isolation lemma requires them too.
- The Discord command modules, `bot.py`, `main.py` and `autoreload.py` are not part of this model.

## Findings

| source | as written | input that shows it | evidently intended | confidence | as-written member | corrected member |
|---|---|---|---|---|---|---|
| bot/utils/google_auth_old.py:119 | `get_classroom_service(user_id, username)` passes two arguments to a function that takes one (line 86). The TypeError is caught at line 220, so every call returns "Failed to fetch items. Please try again later." | any call; e.g. a readable course id whose announcement list is non-empty, with working credentials and parsable dates | `get_classroom_service(user_id)`, then the feed of the course | not executed | GoogleAuthOld.AsWrittenLosesTheFeed | GoogleAuthOld.ListAnnouncementsByCourse |
