# flood: decision rules of the server, the registry and two UI stores

This project models, in Dafny, the small pure decision rules inside the
flood web UI for the rTorrent BitTorrent client:

- **Torrent operations** (`server/models/client.js`): the recursive file-index
  search `findFilesByIndicies`; the response-mode decision of `downloadFiles`
  (404, one file, or a tar archive named `<torrent>.tar`); the unit transforms
  of `getSettings`/`setSettings` (bandwidth ÷/× 1024, piece-cache memory
  ÷/× 1024²) and the positional zip of the raw settings response back to keys;
  the continuation chain of `moveTorrents` written out as a list of steps; and
  the request plan of `addFiles` (tag coercion, one request per file, callback
  on the last one only).
- **Per-user service registry** (`server/services/index.js`): the five
  `Map`s keyed by `user._id` become one map keyed by (service kind, user id),
  with a serial counter standing for object identity of `new service(user)`.
- **Torrent-list UI store** (`source/scripts/stores/UIStore.js`): the click
  selection rules and the viewport windowing arithmetic.
- **Client status store** (`client/src/javascript/stores/ClientStatusStore.js`):
  a two-state machine whose output is whether a change event is emitted.

Everything is an immutable datatype and a pure function. Callbacks become
computed step lists; the global `event`, the scroll position, the cached
torrent statuses, `fs.existsSync` and the settings key map become explicit
inputs. A thrown `TypeError` (reading a property of `undefined`) becomes a
`None` or `Thrown` result.

Modules, one per file: `Wrappers` (`Option`), `Text` (JavaScript `split`,
`join`, decimal rendering), `FileTree`, `Download`, `Settings`,
`MoveTorrents`, `AddFiles`, `Services`, `UIStore`, `ClientStatus`.

## Behaviour worth noting

Four behaviours of the code are easy to miss; the model keeps each of them.

- With no file string, `downloadFiles` selects the indices `0..n-1` for the `n`
  files at the top level of the tree, not all files. A torrent whose files all
  sit in a subdirectory therefore selects nothing
  (server/models/client.js:98-99; `Download.NestedOnlyTorrentDownloadsEmptyTar`).
- When no file resolves, the code answers with an empty tar attachment, not a
  404 (server/models/client.js:111-119; `Download.Decide`: any count other
  than one gives `TarArchive`).
- The `moveTorrents` continuations ignore their `(response, error)` arguments.
  The chain therefore goes on after a failed step instead of stopping.
  `MoveTorrents.Plan` has no error branch for this reason
  (server/models/client.js:255-287).
- The move-files request is built and its continuation is wired, but the code
  never calls `send()` on it (server/models/client.js:275-281). The plan
  records the wiring as written.

## Model

| member | source | states |
|---|---|---|
| `FileTree.FindFiles` | server/models/client.js:152-171 | every file returned has an index whose decimal string is among the requested ones, at any depth |
| `FileTree.Select` | server/models/client.js:155-157 | the filter keeps exactly the node's own files whose index string is requested, and no more of them than there are files |
| `FileTree.FindInDirs` | server/models/client.js:159-167 | the reduce over the directory keys returns only requested files |
| `FileTree.FindFilesIsFilteredTraversal` | server/models/client.js:155-167 | result order: the search equals the depth-first traversal (a node's own files first, then each subdirectory in key order) with unrequested files dropped |
| `FileTree.FindInDirsIsFilteredTraversal` | server/models/client.js:160-167 | the same, for the subdirectories from a given key onwards |
| `FileTree.FindFilesMembership` | server/models/client.js:152-171 | a file is found if and only if it occurs somewhere in the tree and its index string was requested |
| `FileTree.AllFilesIsOccurs` | server/models/client.js:159-167 | the reference traversal lists exactly the files that occur in the tree at any depth |
| `FileTree.SelectAppend` | server/models/client.js:160-167 | filtering distributes over the concatenation the reduce builds |
| `FileTree.FindFilesEdgeCases` | server/models/client.js:152-159 | the empty tree and an empty index list yield nothing; a node with no `files` and no `directories` yields nothing; without `directories` only the node's own files are searched |
| `Download.DefaultSelectionPicksIndicesBelow` | server/models/client.js:98-99 | the default selection picks a file if and only if its index is below the number of top-level files |
| `Download.Selection` | server/models/client.js:97-102 | a non-empty file string gives comma-free pieces that join back to it, which by `Text.SplitJoin` are exactly its comma split; a falsy one gives the default, which exists exactly when the tree has `files` and picks the indices below their count |
| `Download.Basename` | server/models/client.js:115 | the base name has no `/`, is a suffix of the path, and is the whole path or follows a `/` |
| `Download.BasenameOfJoin` | server/models/client.js:108-115 | the single-file attachment name is the base name of the file's own path; the torrent directory never shows through |
| `Download.ResolvePaths` | server/models/client.js:104-109 | one path per found file, in search order, each the torrent directory joined with the file's path |
| `Download.DefaultSelection` | server/models/client.js:99 | the default selection has one index string per top-level file |
| `Download.Resolve` | server/models/client.js:97-109 | the paths exist exactly when a non-empty file string is given or the tree has a `files` array, and they are the directory-joined paths of the found files, in order |
| `Download.TarEntries` | server/models/client.js:124-135 | one tar entry per path, in order, each reading that path under the path's base name |
| `Download.Decide` | server/models/client.js:88-119 | unknown torrent or missing details give 404; exactly one resolved path that exists gives a single-file download of that path, named by its base name; one missing path gives 404; any other count gives a tar named `<torrent name>.tar` holding the resolved paths in order; a missing `files` array with the default selection throws |
| `Download.NestedOnlyTorrentDownloadsEmptyTar` | server/models/client.js:98-119 | with no file string, a torrent whose files all sit in a subdirectory gets an empty tar archive |
| `Download.SingleFileNamedByFile` | server/models/client.js:104-116 | a single-file download serves the torrent directory joined with the path of the one requested file found in the tree, named by that file's base name |
| `Text.Split` | server/models/client.js:101 | `split(',')` gives at least one piece and no piece contains the separator |
| `Text.JoinSplit` | server/models/client.js:101 | joining the pieces of a split with the separator restores the string |
| `Text.SplitJoin` | server/models/client.js:28 | splitting a join of separator-free pieces restores the pieces |
| `Text.SplitSeparatorFree` | server/models/client.js:28 | a string without the separator splits into itself |
| `Text.SplitAppend` | server/models/client.js:28 | a separator ends a piece |
| `Text.Decimal` | server/models/client.js:156 | the rendering of an index is a non-empty digit string with no leading zero |
| `Text.ParseDecimalOfDecimal` | server/models/client.js:156 | reading the rendering back gives the index |
| `Text.DecimalInjective` | server/models/client.js:156 | two indices render to the same string if and only if they are equal |
| `Settings.Outbound` | server/models/client.js:178-188 | the two throttles are divided by 1024 and `piecesMemoryMax` by 1024·1024 on the way out; any other key passes through |
| `Settings.Inbound` | server/models/client.js:327-346 | the two throttles are multiplied by 1024 and `piecesMemoryMax` by 1024·1024 on the way in; any other key passes through |
| `Settings.TransformTablesSymmetric` | server/models/client.js:327-346 | a key has an inbound transform exactly when it has an outbound one, with the same positive scale |
| `Settings.TransformRoundTrip` | server/models/client.js:178-188 | inbound after outbound, and outbound after inbound, give back the value for every key; untransformed keys pass through |
| `Settings.PiecesMemoryExample` | server/models/client.js:185-187 | a raw 1048576 for `piecesMemoryMax` shows as 1 and 1 sets 1048576; a raw 2048 download limit shows as 2 |
| `Settings.SettingsKeyAt` | server/models/client.js:204 | a requested key present in the settings key map gives its mapped key; a requested key missing from the map, or a position past the requested keys, gives the key `"undefined"` (or what the map holds under `"undefined"` for a position past the end) |
| `Settings.Zip` | server/models/client.js:202-211 | the response has exactly the keys written, and each key holds the transformed value from its last position |
| `Settings.ResponseKeys` | server/models/client.js:202-204 | one response key per returned value, by position |
| `Settings.PostProcess` | server/models/client.js:197-214 | a falsy response gives null; otherwise every position's key is in the response, every response key comes from some position, and the response is the zip of the positional keys with the values, so a repeated key holds its last position's transformed value |
| `Settings.PostProcessPositional` | server/models/client.js:202-211 | with distinct keys each position's value lands, transformed, under its own key |
| `Settings.TransformPayload` | server/models/client.js:348-354 | a payload keeps its id, passes through unchanged when its id has no transform, and reads back through the outbound transform as the user's value |
| `Settings.SetSettings` | server/models/client.js:323-358 | an empty payload list replies `{}` without a request; otherwise one payload per input, in input order, each keeping its id and inverting the outbound transform |
| `Settings.SetThenGetRoundTrip` | server/models/client.js:348-356 | setting distinct keys and zipping the stored raw values back shows each key the value the user set |
| `MoveTorrents.HashesToRestart` | server/models/client.js:251-253 | the restart set holds exactly the input hashes whose cached status lacks `stopped`; an unknown hash throws |
| `MoveTorrents.Chain` | server/models/client.js:255-292 | stop+set-path comes first and the caller's callback last; step kinds strictly follow stop → move → check-hash → start → callback; the move step is present if and only if `moveFiles`; the check-hash step carries the moved hashes, which is what the code evidently intends, though line 270 passes `user` as the request's options (compare line 80); the start step is present if and only if the restart set is non-empty and carries exactly that set |
| `MoveTorrents.Plan` | server/models/client.js:251-292 | a plan exists exactly when every moved hash has a cached torrent, and it is the chain over the torrents that were running before the move |
| `MoveTorrents.NoneStoppedRestartsAll` | server/models/client.js:251-253 | when no moved torrent was stopped, all are restarted, in order |
| `MoveTorrents.AllStoppedRestartsNone` | server/models/client.js:251-266 | when every moved torrent was stopped, no start step is planned |
| `MoveTorrents.AllStoppedEmptyRestart` | server/models/client.js:251-253 | a hash list of stopped torrents has an empty restart set |
| `AddFiles.CoerceTags` | server/models/client.js:27-29 | an array of tags is kept; a string is split into comma-free pieces that join back to it; missing tags throw |
| `AddFiles.Plan` | server/models/client.js:31-56 | create-directory first and the start-on-load preference last; in between one add request per file, in order, each with the destination, flags and coerced tags; only the last one reports to the caller |
| `AddFiles.CallerReportedOnceIffFiles` | server/models/client.js:39-54 | exactly one request carries the caller's callback when there are files, and none when the file list is empty |
| `AddFiles.ReportingAppend` | server/models/client.js:39-54 | the callback count of a concatenation is the sum of the parts' counts |
| `AddFiles.NoneReporting` | server/models/client.js:45-51 | requests without the callback contribute nothing to the callback count |
| `Services.GetService` | server/services/index.js:20-28 | a stored instance is returned with the registry unchanged; otherwise a new instance of that kind and owner is stored and returned, carrying the next serial, so it is distinct from every instance ever created, stored or since removed; other keys are untouched and validity is preserved |
| `Services.GetTwiceSameInstance` | server/services/index.js:20-28 | two consecutive gets return the same instance and the second changes nothing |
| `Services.UsersWithSameIdShare` | server/services/index.js:21-24 | distinct user objects with equal `_id` share one instance |
| `Services.DestroyIn` | server/services/index.js:51-59 | from a given map on, the user's entries are deleted, other entries are kept, and a hook runs exactly for the user's instances whose kind has one |
| `Services.DestroyInRunsEachHookOnce` | server/services/index.js:51-59 | in a valid registry, the teardown loop runs no instance's `destroy` hook twice |
| `Services.AllKindsVisited` | server/services/index.js:12-18 | teardown visits the map of every service kind |
| `Services.DestroyUserServices` | server/services/index.js:50-60 | afterwards no map holds the user; other users' entries are untouched; `destroy` has run for exactly the user's instances whose kind has it, each at most once; with no instances nothing changes |
| `Services.GetAfterDestroyIsFresh` | server/services/index.js:20-24 | a get after teardown constructs an instance distinct from every instance held before, the removed ones included |
| `UIStore.IndexOf` | source/scripts/stores/UIStore.js:78 | `indexOf` is -1 exactly when the hash is absent and otherwise the first position holding it |
| `UIStore.RemoveAt` | source/scripts/stores/UIStore.js:88 | `splice(i, 1)` drops the element at `i` and shifts the rest down |
| `UIStore.Click` | source/scripts/stores/UIStore.js:76-95 | no modifier selects exactly `[hash]`; meta or ctrl without shift removes the first occurrence of a selected hash and appends an unselected one; shift leaves the selection unchanged |
| `UIStore.ToggleFlipsOnlyClicked` | source/scripts/stores/UIStore.js:84-91 | on a duplicate-free selection the toggle flips the clicked hash's membership, keeps every other hash's, and stays duplicate-free |
| `UIStore.ToggleTwiceRestores` | source/scripts/stores/UIStore.js:84-91 | ctrl-clicking an unselected hash twice restores the selection |
| `UIStore.RowsCount` | source/scripts/stores/UIStore.js:114-123 | the rows from `lo` up to `hi` number `hi - lo`, or none |
| `UIStore.Rows` | source/scripts/stores/UIStore.js:114-123 | the row positions from `lo` up to `hi` |
| `UIStore.Spacer` | source/scripts/stores/UIStore.js:114-123 | the spacer is non-negative and is the height of that many rows, none for a count of zero or less |
| `UIStore.Layout` | source/scripts/stores/UIStore.js:134-135 | the top spacer is the height of the rows above the window and the bottom spacer that of the list's rows below it |
| `UIStore.SpacerBelow` | source/scripts/stores/UIStore.js:135 | the bottom spacer is the height of the rows after the last rendered one |
| `UIStore.SetRenderLimit` | source/scripts/stores/UIStore.js:125-136 | the window starts two rows above the row at the scroll position, spans the whole rows that fit in the viewport plus four, keeps the viewport height, and its spacers are the heights of the rows left out |
| `UIStore.SpacersFillList` | source/scripts/stores/UIStore.js:125-136 | when the window lies inside the list, the spacers and the rendered rows are as tall as the whole list |
| `UIStore.Dispatch` | source/scripts/stores/UIStore.js:70-108 | a click replaces the selection by the click update and emits a selection change; a scroll replaces the window by the render limit for that position; a resize changes only the viewport height without recomputing the window; other actions change nothing |
| `UIStore.ClickAndScrollCommute` | source/scripts/stores/UIStore.js:70-108 | a click and a scroll reach the same state in either order |
| `ClientStatus.HandleError` | client/src/javascript/stores/ClientStatusStore.js:22-25 | an error disconnects and always emits, leaving the error count alone |
| `ClientStatus.HandleSuccess` | client/src/javascript/stores/ClientStatusStore.js:27-32 | a success connects and emits only if the store was disconnected, leaving the error count alone |
| `ClientStatus.Dispatch` | client/src/javascript/stores/ClientStatusStore.js:37-50 | the error count never changes; an event is emitted exactly when the connection flag changes or the action is an error; other action types change nothing and emit nothing |
| `ClientStatus.LastTest` | client/src/javascript/stores/ClientStatusStore.js:40-49 | there is no last connection-test action exactly when every action is of another type; otherwise it is a test action that occurs in the sequence with only other actions after it |
| `ClientStatus.RunReflectsLastTest` | client/src/javascript/stores/ClientStatusStore.js:22-49 | after any sequence of actions the store is connected exactly when the last connection test succeeded, or as before when there was none; the error count is unchanged |
| `ClientStatus.RunAppend` | client/src/javascript/stores/ClientStatusStore.js:37-50 | running a sequence and one more action is one more dispatch |
| `ClientStatus.RepeatedSuccessEmitsOnce` | client/src/javascript/stores/ClientStatusStore.js:27-32 | a run of successes emits once if the store was disconnected and never otherwise |
| `ClientStatus.SuccessWhileConnectedIsSilent` | client/src/javascript/stores/ClientStatusStore.js:27-32 | successes while connected change nothing and emit nothing |
| `ClientStatus.InitialThenSuccesses` | client/src/javascript/stores/ClientStatusStore.js:8-12 | the store starts disconnected with error count 0, so the first of a run of successes emits and no other does |

## Left out

- `ClientRequest`, `clientResponseUtil`, `clientSettingsMap` and `torrentStatusMap` are not part of this model. The settings key map is an input `map<string, string>`, the `stopped` status flag is an input string, and `processTorrentDetails` is assumed to deliver the file tree.
- The RPC transport and request life cycle: `send()`, `onComplete` overriding, `postProcess` registration. Each request is a step in a computed list.
- Filesystem and streaming: `fs.stat`, `createReadStream`, tar packing and `finalize`, `run-series`, and the Express `res` calls. `fs.existsSync` is the input set `existing`. The 500 responses of stream errors and of the outer `try` are not modelled.
- Download.JoinPath: plain concatenation with `/`; `path.join` normalisation (`.`, `..`, repeated separators) is not modelled.
- Download.Basename: does not strip trailing separators as `path.basename` does.
- Text.Decimal: indices are assumed below 2^53, where JavaScript's `${n}` agrees with the shortest digit string; the exponent form from 10^21 on and the precision loss above 2^53 are not modelled.
- Settings.Inbound: the transform table is a plain JavaScript object, so an id naming an inherited `Object.prototype` member (`__proto__`, `toString`, …) finds that member; the model treats every such key as untransformed.
- Settings.SettingsKeyAt: a requested key naming an inherited `Object.prototype` member makes `clientSettingsMap[...]` return that member, and the response key becomes its string form; the model gives `"undefined"` for every key absent from the map.
- Settings.TransformPayload: an id naming an inherited `Object.prototype` member does not pass through unchanged in the source (a non-function member throws, `toString` yields the string `"[object Object]"`); the model passes such payloads through.
- Settings.SetSettings: for the same reason, a payload list with an id such as `__proto__` throws in the source, and one with `toString` sends a string in place of that payload; the model sends every payload.
- Settings.PostProcess: each datum is its first element; the IEEE semantics of `Number(...)` and `/ 1024` are replaced by exact reals, so non-numeric values (NaN) are not modelled.
- Settings.TransformPayload: the `toString()` of the scaled `piecesMemoryMax` is not modelled; the sent value stays a number.
- MoveTorrents.HashesToRestart: states membership and length, not that the filter keeps the input order.
- UIStore.Click: the source mutates the selected array in place on a ctrl or meta click but binds a new array on a plain click, so an array obtained earlier from `getSelectedTorrents` sees toggles but not plain clicks; the model's selection is an immutable value and does not model this aliasing.
- MoveTorrents.Chain: whether the move-files request is ever dispatched is not modelled (the source never sends it), nor are the arguments `checkHash` receives (the source passes `user` as the options object).
- AddFiles.Plan: `encodeURIComponent` on the file name is not modelled.
- Settings persistence (`settings.set`) and the cache refresh (`fetchTorrentList`) appear only as plan steps or as the `reportsToCaller` flag.
- `addUrls`, `checkHash`, `getTorrentDetails`, `listMethods`, `setFilePriority`, `setPriority`, `setSpeedLimits`, `setTaxonomy`, `stopTorrent` and `startTorrent` each build one request with a fixed callback and contain no decision logic.
- The five accessors `getFeedService` … `getTorrentService` are `Services.GetService` with the kind fixed. `getAllServices` only defers to them through lazy getters.
- Event plumbing: `EventEmitter`, `AppDispatcher` registration, listener management, `console.log`, the store getters, and `initiateConnectionTest`.
- UIStore.SetRenderLimit: scroll positions and heights are integers; fractional pixel values are not modelled.
- React components (`ClientConnectionInterruption.js`, `ClientConnectivityModal.js`) and `config.docker.js`: rendering and environment reads only.
