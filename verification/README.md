# Nostalgic Food Map: post submission and report resolution

A Dafny model of the two pieces of sequential logic in this community food-map site.
Everything else in the site hands requests to a hosted backend and renders the results.

- **Post submission** (`pages/create.js`, `handleSubmit`). The handler first checks three
  required inputs: title, image file and selected store. It then switches `loading` on and
  uploads the image to the `post-images` bucket. The object name is
  `${Date.now()}.${file.name.split('.').pop()}`. Next it inserts the post row, then the row
  linking the image to the post, and navigates to `/`. The first failing step aborts the
  rest. Nothing done before the failure is undone. The `finally` block switches `loading`
  off. The model is the pure function `CreatePost.Submit`. It takes the backend's three
  replies and the clock reading as inputs, and returns the trace of effects the handler
  performs, how the run ended, and the final `loading` flag.
- **File names** (`FileNames`). This module models `String.prototype.split('.')` followed by
  `pop()` exactly: empty pieces are kept and the result is never empty. It also models how a
  whole millisecond count is written in decimal, and how the storage name is built from the
  two.
- **Report administration** (`pages/admin/reports.js`). The fetch's completion callback
  always ends `loading`. On success it installs the fetched rows; on error it leaves the list
  unchanged. `handleResolve` sends an update and then patches the local list with
  `prev.map(r => r.id === id ? { ...r, resolved: true } : r)`. The update's reply is awaited
  but never inspected. The model is `Reports.Resolve`, a pure function over `seq<Report>`,
  and `Reports.HandleResolve`, which takes the server's reply as an input.

Modules: `Replies` holds the `Option` and `Reply` wrappers for backend answers. `FileNames`,
`CreatePost` and `Reports` hold the model itself.

The create form is rendered only once a session exists (`pages/create.js:81`), and the
session is never reset to null. So `handleSubmit` always runs with a signed-in user, and the
model takes that user's id as a plain parameter. The store id is the `<select>` element's
value, so it is a string, and an empty string means that no store was chosen.

## Model

| member | source | states |
|---|---|---|
| `CreatePost.Submit` | pages/create.js:35-79 | The run is rejected exactly when the title is empty, no file is chosen or no store is selected. A rejected run has an empty trace and leaves `loading` as it was. Any other run starts with `loading` on and ends with `loading` off. It publishes exactly when all three backend replies succeed, and the published id is the one the post insert returned. Navigation to `/` happens if and only if the run publishes. |
| `CreatePost.Finish` | pages/create.js:76-78 | The `finally` block appends `loading := false` to the trace, keeps everything done before it, and leaves the flag off. |
| `CreatePost.StepsFollowPlan` | pages/create.js:46-75 | Backend requests are issued in the order upload, post insert, image insert. An aborted run issued exactly the steps up to and including the failing one, whose reply is an error, and every earlier step succeeded. Earlier requests stay in the trace because there is no rollback. A published run issued all three steps, and none of them failed. A rejected run issued nothing. |
| `CreatePost.RequestsCarryInputs` | pages/create.js:44-68 | The upload goes to `post-images` under `${now}.${extension of the chosen file}` and carries the chosen file. The post row holds the session user as author, the selected store, and the title and body unchanged. The image row links the id the post insert returned to the path the upload returned. |
| `CreatePost.LoadingAlwaysCleared` | pages/create.js:37-78 | `loading` is set on exactly when the inputs are complete. It is the first effect, stays on through the upload, post insert and image insert, because no effect in between touches it, and is switched off as the last effect on the success and the failure paths alike. With a missing input, no request is issued and `loading` is untouched. |
| `CreatePost.NavigationComesLast` | pages/create.js:66-77 | Navigation to `/` appears only in a published run, and only once. It comes directly after the image row insert and directly before `loading` goes off. |
| `FileNames.Split` | pages/create.js:44 | `split('.')` returns at least one piece. No piece contains a `.`, and joining the pieces with `.` gives back the original string. |
| `FileNames.SplitJoin` | pages/create.js:44 | Splitting a `.`-joined list of dot-free pieces returns that list, so split and join are mutually inverse. |
| `FileNames.ExtensionIsTextAfterLastDot` | pages/create.js:44 | `split('.').pop()` is a dot-free suffix of the name. That suffix is either the whole name or is preceded by a `.`, so it is the text after the last dot. |
| `FileNames.ExtensionUnique` | pages/create.js:44 | Any dot-free suffix that is the whole name or follows a `.` is the extension. Together with the row above, this gives both directions of "the extension is the text after the last dot". |
| `FileNames.ExtensionWithoutDot` | pages/create.js:44 | A name is its own extension if and only if it contains no `.`. |
| `FileNames.Decimal` | pages/create.js:45 | A millisecond count is written as one or more decimal digits. Zero is written as `"0"`, and any longer string has no leading zero. The first digit is `0` exactly when the count is zero. |
| `FileNames.DecimalRoundTrip` | pages/create.js:45 | Reading the written digits back gives the original count. |
| `FileNames.SplitStorageName` | pages/create.js:45 | The storage name splits into exactly two pieces: the written timestamp and the extension. |
| `FileNames.StorageNameRoundTrip` | pages/create.js:44-45 | The storage name has the same extension as the original file, and its part before the dot reads back as the upload time. |
| `FileNames.StorageNameCollision` | pages/create.js:44-45 | Two uploads get the same storage name if and only if they happen in the same millisecond with the same extension. |
| `Reports.FetchCompleted` | pages/admin/reports.js:20-28 | When the fetch completes, `loading` becomes false. On success the list becomes the fetched rows; on error the list is unchanged. |
| `Reports.FetchFromMount` | pages/admin/reports.js:11-28 | Starting from the mounted page, a failed fetch leaves an empty list and a successful fetch shows exactly the fetched rows. In both cases loading ends. |
| `Reports.Resolve` | pages/admin/reports.js:37-41 | The patch keeps the list's length. A record with the given id becomes that record with `resolved = true`, and every other record is unchanged. |
| `Reports.HandleResolve` | pages/admin/reports.js:32-42 | The handler sends an update of `reports` for this id. Afterwards a record is resolved exactly when it was resolved before or has this id, the list's length is kept, and `loading` is untouched. |
| `Reports.ResolveIgnoresServerReply` | pages/admin/reports.js:33-41 | The page after resolving is the same whatever the server replied, and its list is the local patch. |
| `Reports.ResolveKeepsOrder` | pages/admin/reports.js:37-41 | The sequence of ids is unchanged, so the order is kept. |
| `Reports.ResolveKeepsContent` | pages/admin/reports.js:39 | Every field except `resolved` is copied unchanged in every record. |
| `Reports.ResolveIdempotent` | pages/admin/reports.js:35-39 | Resolving the same id twice gives the same list as resolving it once. |
| `Reports.ResolveMonotone` | pages/admin/reports.js:35-39 | No resolved record becomes unresolved, and every record carrying the id is resolved afterwards. |
| `Reports.ResolveAbsent` | pages/admin/reports.js:38-39 | Resolving an id that no record carries leaves the list unchanged. |
| `Reports.ResolveAddsOnlyId` | pages/admin/reports.js:38-39 | The set of resolved ids grows by the given id if some record carries it, and by nothing otherwise. |
| `Reports.ResolveCommutes` | pages/admin/reports.js:37-41 | Resolving two ids in either order gives the same list. |

## Left out

- The Supabase client, the network, storage and auth calls are not modelled. Each backend call is an abstract `Reply` (`Ok(value)` or `Err`) supplied as an input.
- Server-side ordering (`order('created_at', …)`, `order('name', …)`) is done by the database, so it is not modelled.
- `alert` and `console` output, JSX rendering and styling are UI side effects and are not modelled. The failure notice shown to the user is therefore not part of the trace.
- The redirect of visitors without a session (`pages/create.js:23`) and the store-list fetch for the form are not modelled: they are I/O with no logic of their own.
- `Date.now()` is a clock, so it is the parameter `now`. It is taken as a non-negative whole number. ECMAScript writes such numbers in plain decimal only below 10^21, far beyond any real clock reading. A clock set before 1970 would give a negative number with a leading `-`, which the model does not cover.
- `toLocaleString` in the report table is locale formatting and is not modelled.
- Overlapping handlers are not modelled: a double submit, or a reply that arrives after the page is gone. The code has no coordination for them.
- `pages/index.js`, `pages/stores/index.js` and the other pages are fetch-and-render code and are not part of this model.
- Upload contents are carried through unchanged as bytes. What the storage service does with them, including the path it returns, is an abstract input.
