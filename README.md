# API-key dashboard: a verified model

This project models the logic of a small Next.js dashboard that manages
"API key" records kept in a hosted database table `api_keys`. The model has
three parts:

- **Dashboard page** (`src/app/dashboard/page.js`). It loads the keys and
  shows each value masked by `maskKey` unless the row is revealed. It
  creates or edits a key through a modal, and it deletes a key after
  confirmation. The page's state is a class, `DashboardPage.Dashboard`,
  whose fields are the page's state variables. Each handler is a method
  whose contract gives the page's whole new state.
- **Playground page** (`src/app/playground/page.js`). It loads the keys and
  checks whether a pasted key equals a stored value. The first-match
  lookup and the result it builds are functions. The page state is a
  class, `PlaygroundPage.Playground`.
- **`/api/keys` route** (`src/app/api/keys/route.js`). `GET` lists every
  row newest first. `POST` checks the required fields, inserts a row and
  answers 201, 400 or 500. Both handlers work over `KeyStore.KeyTable`, an
  abstract table. The table assigns fresh ids, assigns a `created_at` later
  than every existing row's, and keeps its rows newest first.

JavaScript's `trim`, `repeat` and `lastIndexOf` are modelled in `Text`.
`trim` uses the exact ECMAScript set of WhiteSpace and LineTerminator code
points. The row mapping `{ ...key, value: key.key_value, type: key.key_type }`
that both pages apply is in `Records`, and the list updates behind
`map`/`filter` are in `KeyList`. `Flows` connects the pages and the route. It
shows that every payload the dashboard sends passes the route's check, and
that a key created through the route is the row that heads both the table
and the dashboard's list.

Outside effects become parameters:
- the outcome of each `fetch` (`Records.Reply`: a response, or an exception);
- whether a store call fails, with its message (`fault`);
- the `Math.random` draw (a nondeterministic choice of a whole number from 0
  to 99).

## Behaviour as the code has it

- `POST /api/keys` rejects a `name` or `value` only when it is missing, null
  or empty (JavaScript falsiness). It does not trim, so a whitespace-only
  name is accepted (`Flows.RouteAcceptsBlankName`). Only the dashboard
  trims, before it sends anything.
- The route stores `type` exactly as given. The default `"dev"` comes from
  the dashboard's payload. A POST without `type` stores a null `key_type`,
  which the playground prints as `null`.
- When several rows share a value, the playground reports the first in list
  order. For a freshly loaded list, that is the newest such row.
- An edited row comes back from the save without `isVisible`, so after an
  edit it is shown masked again.

## Model

| member | source | states |
|---|---|---|
| Text.TrimStartSpec | src/app/dashboard/page.js:69 | the leading-whitespace cut of `trim`: a suffix of the input, everything cut is whitespace, and the result does not start with whitespace |
| Text.TrimEndSpec | src/app/dashboard/page.js:69 | the trailing-whitespace cut of `trim`: a prefix of the input, everything cut is whitespace, and the result does not end with whitespace |
| Text.TrimIsSlice | src/app/dashboard/page.js:75-76 | `trim(s)` is a slice `s[i..j]` with only whitespace outside it, and it neither starts nor ends with whitespace |
| Text.TrimEmptyIff | src/app/dashboard/page.js:69 | `!s.trim()` holds exactly when every character of `s` is whitespace |
| Text.TrimIdempotent | src/app/playground/page.js:51 | trimming an already trimmed string changes nothing |
| Text.TrimOfTrimmed | src/app/playground/page.js:51 | a string with no whitespace at either end is its own trim |
| Text.TrimAround | src/app/playground/page.js:42-51 | whitespace added around a trimmed string is exactly what `trim` removes |
| Text.TrimStartWhitespace | src/app/playground/page.js:51 | a whitespace-only prefix does not change what the leading cut leaves |
| Text.TrimEndWhitespace | src/app/playground/page.js:51 | a whitespace-only suffix after a non-whitespace end is cut off completely |
| Text.Repeat | src/app/dashboard/page.js:182 | `c.repeat(n)` has length `n` and every character is `c` |
| Text.LastIndexOf | src/app/dashboard/page.js:179 | -1 exactly when the character is absent; otherwise the character sits at that index and never after it |
| Mask.MaskEmpty | src/app/dashboard/page.js:178 | an empty value masks to the empty string |
| Mask.MaskDashed | src/app/dashboard/page.js:179-183 | with its last dash at `i`, the mask is `value[..i+1]` followed by exactly 32 `*` (length `i + 33`) |
| Mask.MaskHidesSecretAfterDash | src/app/dashboard/page.js:179-183 | two values that agree up to and including their last dash have the same mask, whatever follows the dash and however long it is |
| Mask.MaskLong | src/app/dashboard/page.js:184-186 | a dashless value longer than 8 keeps its length and its first and last 4 characters, and every character between them is `*` |
| Mask.MaskShort | src/app/dashboard/page.js:187 | a nonempty dashless value of at most 8 characters masks to that many `*` |
| Mask.MaskRevealsOnlyInPlace | src/app/dashboard/page.js:177-188 | every character of any mask is `*` or the value's own character at the same position |
| Records.FormatRowRoundTrip | src/app/dashboard/page.js:33 | the mapped row has `value = key_value` and `type = key_type`, starts hidden, and loses nothing the store sent |
| Records.FormatAllPointwise | src/app/playground/page.js:26 | `data.map(...)` keeps length and order and maps each row in place |
| Records.LoadedRowsSpec | src/app/playground/page.js:17-34 | an OK response whose body is an array loads its mapped rows; a non-OK response, a non-array body or a thrown call loads the empty list |
| Records.LoadedRowsKeepOrder | src/app/dashboard/page.js:31-34 | rows that arrive newest first stay newest first after loading |
| KeyList.ReplaceByIdPointwise | src/app/dashboard/page.js:100 | the edit update keeps length and order, replaces every row with the saved id, and leaves every other row unchanged |
| KeyList.ReplaceByIdAbsent | src/app/dashboard/page.js:100 | an edit whose id no row has leaves the list unchanged |
| KeyList.RemoveByIdCounts | src/app/dashboard/page.js:129 | the filter leaves no row with the id, and keeps every other row as many times as it occurred |
| KeyList.RemoveByIdAppend | src/app/dashboard/page.js:129 | the filter distributes over concatenation, so the kept rows stay in their order |
| KeyList.RemoveByIdAbsent | src/app/dashboard/page.js:129 | deleting an id no row has leaves the list unchanged |
| KeyList.ToggleByIdPointwise | src/app/dashboard/page.js:170-175 | toggling flips `isVisible` only on rows with that id; every other field and every other row is unchanged |
| KeyList.ToggleByIdTwice | src/app/dashboard/page.js:170-175 | toggling the same id twice restores the list |
| DashboardPage.SavePayloadSpec | src/app/dashboard/page.js:69-78 | a save is refused exactly when the name or the value is whitespace only; otherwise the payload is the trimmed name and value (nonempty, with no surrounding whitespace) and type "dev" |
| DashboardPage.SavedListSpec | src/app/dashboard/page.js:99-103 | after a failed request the list is unchanged; after an edit the length is kept and rows with the response id become the saved row; after a create the saved row is prepended to the old list |
| DashboardPage.DeletedListSpec | src/app/dashboard/page.js:116-133 | after a successful delete no row has the id and every other row is kept as often as before; after a failed delete the list is unchanged |
| DashboardPage.Dashboard.constructor | src/app/dashboard/page.js:7-17 | the initial state: no keys, loading, both modals closed, empty inputs, nothing being edited or deleted |
| DashboardPage.Dashboard.FetchKeys | src/app/dashboard/page.js:20-46 | the list becomes the loaded rows (empty on any failure) and loading stops |
| DashboardPage.Dashboard.OpenModalForNew | src/app/dashboard/page.js:48-53 | create mode with empty inputs and the modal open |
| DashboardPage.Dashboard.OpenModalForEdit | src/app/dashboard/page.js:55-60 | edit mode for the row, with inputs set to its name and value and the modal open |
| DashboardPage.Dashboard.EnterKeyName | src/app/dashboard/page.js:290 | the name input holds what was typed |
| DashboardPage.Dashboard.EnterKeyValue | src/app/dashboard/page.js:301 | the value input holds what was typed |
| DashboardPage.Dashboard.CloseModal | src/app/dashboard/page.js:309 | the save modal closes; nothing else changes |
| DashboardPage.Dashboard.OpenDeleteConfirmation | src/app/dashboard/page.js:62-65 | the row is selected for deletion and the delete modal opens |
| DashboardPage.Dashboard.CloseDeleteModal | src/app/dashboard/page.js:335 | the delete modal closes and the selection stays |
| DashboardPage.Dashboard.SaveKey | src/app/dashboard/page.js:68-111 | blank inputs send nothing and change nothing; otherwise it sends the trimmed payload to POST or PUT by mode, applies the reply to the list, and closes the modal on success and on failure |
| DashboardPage.Dashboard.ConfirmDelete | src/app/dashboard/page.js:114-136 | with no selection it does nothing; otherwise it requests deletion of that id, removes the rows with that id only on success, and always closes the modal and clears the selection |
| DashboardPage.Dashboard.ToggleVisibility | src/app/dashboard/page.js:170-175 | flips `isVisible` on rows with the id only; every other row and every other page field is unchanged |
| PlaygroundPage.FirstMatchIndex | src/app/playground/page.js:51 | `find` stops at the first row whose value equals the candidate exactly, and returns -1 exactly when no row matches |
| PlaygroundPage.CheckOutcomeBlank | src/app/playground/page.js:42-45 | no check takes place exactly when the input is whitespace only |
| PlaygroundPage.CheckOutcomeOnlyTrimmed | src/app/playground/page.js:51 | the outcome depends on the input only through its trimmed form |
| PlaygroundPage.VerdictSpec | src/app/playground/page.js:51-66 | success exactly when some stored value equals the candidate; the details then name the first matching row and its type; otherwise the result is the fixed not-found result |
| PlaygroundPage.FirstOfDuplicatesReported | src/app/playground/page.js:51 | when two rows share a value, the reported row is the earlier one or one before it |
| PlaygroundPage.PaddedValueNeverMatches | src/app/playground/page.js:51 | a stored value that begins or ends with whitespace is never matched, because stored values are not trimmed |
| PlaygroundPage.SurroundingWhitespaceIgnored | src/app/playground/page.js:42-51 | whitespace typed around a key does not change the outcome |
| PlaygroundPage.Playground.constructor | src/app/playground/page.js:7-11 | the initial state: no keys, empty input, no result, not checking, keys loading |
| PlaygroundPage.Playground.FetchKeys | src/app/playground/page.js:15-36 | the list becomes the loaded rows (empty on any failure) and key loading stops |
| PlaygroundPage.Playground.EnterApiKey | src/app/playground/page.js:100 | the input holds what was typed |
| PlaygroundPage.Playground.CheckApiKey | src/app/playground/page.js:41-69 | blank input leaves the result and the loading flag unchanged; otherwise the result is the verdict on the trimmed input and loading stops; the key list and the input are only read |
| KeyStore.KeyTable.SelectNewestFirst | src/app/api/keys/route.js:11-14 | the rows ordered by `created_at` descending, or the store's error |
| KeyStore.KeyTable.Insert | src/app/api/keys/route.js:39-43 | the inserted row carries the given columns, a fresh id and the latest `created_at`, and heads the table; on a store error nothing is inserted |
| KeysRoute.Get | src/app/api/keys/route.js:3-27 | 200 with every row newest first, or 500 with the store's message verbatim |
| KeysRoute.Post | src/app/api/keys/route.js:29-56 | a falsy name or value gives 400 "Name and value are required" and inserts nothing; a store error gives 500 with its message; otherwise 201 with the one inserted row: `name`, `key_value = value`, `key_type = type` with no default, `usage` in 0..99, a fresh id |
| Flows.ClientPayloadPassesRoute | src/app/api/keys/route.js:32 | every payload the dashboard sends has a truthy name and value and type "dev" |
| Flows.RouteAcceptsBlankName | src/app/api/keys/route.js:32 | for every nonempty whitespace-only name and nonempty value, the dashboard refuses the save while the route's falsiness check lets both through: the server does not trim |
| Flows.PostBlankName | src/app/api/keys/route.js:29-56 | a POST with a whitespace-only name and no store error answers 201 and inserts the name exactly as sent, although the dashboard would not send it |
| Flows.CreateThroughRoute | src/app/dashboard/page.js:68-111 | a create through POST adds one row with the trimmed name and value and type "dev" to the table and puts the same row at the head of the dashboard's list; blank input or a store error changes neither list, and blank input leaves the modal as it was; only the list and the modal flag of the page may change |
| Flows.LoadThroughRoute | src/app/playground/page.js:15-36 | a load through GET gives the playground every table row, mapped and newest first; a store error gives it nothing; only the list and its loading flag change, so the typed key and the last check result stay |

## Left out

- Clipboard copy and its fallback (`copyToClipboard`, `copiedKeyId`): browser DOM and clipboard APIs, plus timers.
- `alert` and `console` calls. They only report and change no state.
- Rendering. This includes the masked or revealed cell at src/app/dashboard/page.js:242, which only calls `maskKey` on hidden rows.
- The 500 ms delay in `checkApiKey`. The model runs the delayed callback at once. The short window while the timer is pending is not modelled: `isLoading` is true and `checkResult` is null during it.
- Concurrency between pending requests. Each handler runs to completion in one step. So the model does not show a handler's stale copy of `apiKeys` overwriting an update that landed while its request was in flight.
- The hosted database itself. The table is abstract. It assigns ids from a counter and `created_at` from a strictly increasing clock, so two rows never share a timestamp. The real store may give equal timestamps, and their order is then unspecified.
- Server-side `PUT` and `DELETE` for `/api/keys/{id}` are not part of this model. Only their effect on the dashboard's list is modelled. Their answer is a parameter of `SaveKey` and `ConfirmDelete`.
- JSON values that are not strings (numbers, booleans, objects) in a POST body's `name`, `value` or `type`. Each field is either a string or missing/null.
- A null or undefined `value` reaching `maskKey`. Page rows always carry a string value here. The `!value` test is modelled for the empty string only.
- DashboardPage.Dashboard.SaveKey: an OK response whose body is not a single row leaves the list unchanged. Spreading such a body in JavaScript would give a row without a usable id. The route never answers that way.
- DashboardPage.Dashboard.ConfirmDelete: when the delete fails, the model does not say how the error message is picked from the JSON or text body. It only shows the list left unchanged.
- Authentication, sessions, navigation and the other pages: delegated to the hosted backend and to next-auth.
- Environment checks and client construction in src/lib/supabaseClient.js.
- Mask.MaskKey and Text.LastIndexOf: strings are sequences of Unicode code points, whereas JavaScript's `length`, `substring` and `lastIndexOf` count UTF-16 code units. For a value holding characters outside the Basic Multilingual Plane (emoji, say) the model's length, its 8-character threshold, its 4-character ends and the index of the last dash therefore differ from what the page computes. Values made only of BMP characters, such as the ASCII keys the dashboard creates, agree.
- The abstract table starts empty (`KeyStore.KeyTable.constructor`). Nothing in the route creates or empties the table; that is setup for the model, not behaviour of the source.
