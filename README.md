# Data-folder migration of the Argo desktop app, modelled in Dafny

The Electron shell of the app keeps its data in a folder named `.argo`. By
default it is `~/.argo`, and the settings store records where it is under
`customPath`. The `migrate-folder` handler in `electron/migrateFolder.js`
moves that folder under a parent folder the user picks:

1. It records the parent under `tempMigratePath`.
2. It registers `cleanupOnExit` on three exit events.
3. It turns away destinations that exist, lie under the current folder
   or lie under the install directory. These tests are raw string
   prefix tests.
4. It writes `<new>.lock`, sizes the current folder and checks the free
   space.
5. It copies the tree, minus every entry whose name ends in `.lock`, into
   `<new>.migrating`. As bytes flow it sends percentages, capped at 99.
6. It renames the staging folder to `<new>` and updates
   `customPath`/`lastCustomPath`.
7. It removes the lock, sends 100 and schedules a relaunch.

The old folder is not touched. On the next start, `electron/main.js` does two
clean-ups and then registers the handler again:

- it sweeps `*.argo.migrating` / `*.argo.lock` entries out of the
  recorded parent;
- it deletes the folder recorded under `lastCustomPath`.

The same file also decides what closing the main window does.

The model represents each part as follows:

- **Disk.** The disk is a value: a map from paths (sequences of segments)
  to files or directories (`FileSystem`). Each `fs`/`fs-extra` call is a
  function that returns the new disk or the errno-style error it throws.
- **Directory listings and transfer inputs.** `readdir` order is left
  open: loops pick children from a set. Which file transfers fail
  (`faults`) and what `progress-stream` reports (`reports`) are inputs.
- **Settings store.** The store is a class (`AppStore.Store`).
- **Emitters and progress channel.** The `app`/`process` emitters and
  the progress channel are a class too (`MigrateFolder.Host`).
- **Handler.** The handler is a method over both classes. Its disk work
  is done by value-level methods (`Stage`, `Transfer`), each proved
  against specification functions (`Staged`, `Committed`, `Mirror`).
  Lemmas prove the properties of those functions.

Modules, in dependency order:

- `Wrappers`: `Option`/`Result`.
- `Paths`: segments, `Render`/`Parse`, `startsWith`/`endsWith`.
- `FileSystem`.
- `TreeSize`: `getDirectorySize`.
- `Progress`: percentages and the per-file delta accounting.
- `Copy`: `processFile`, `processDirectory`, `copyWithProgress`.
- `AppStore`.
- `MigrateFolder`: `checkAvailableSpace`, `cleanupOnExit` and the
  handler.
- `Startup`: `removeTemp`, `removeLastDir` and `app.whenReady`.
- `CloseAction`: `QUIT_TYPE`, `parseDialogResult` and the close handler.

The model keeps these behaviours of the code:

- The lock is written *before* the disk-space check, so a failed check
  leaves the lock behind.
- `getDirectorySize` counts every file, including the `.lock` files the
  copy then skips. The required space can therefore exceed what is
  copied.
- The percentage is `Math.round`, not a floor. It is capped with
  `Math.min(99, …)`.
- An empty source folder makes the percentage `0/0`, which is `NaN`.
  `Progress.Reported` models that value explicitly.
- `tempMigratePath` holds the chosen *parent* folder, not the staging
  folder. The start-up sweep therefore looks at every entry of that
  parent whose name merely ends in `.argo.migrating` or `.argo.lock`.

## Model

| member | source | states |
|---|---|---|
| MigrateFolder.CheckAvailableSpace | electron/migrateFolder.js:9-20 | Succeeds (with `true`) exactly when the probe answered and `free >= required`; fails with "Insufficient space on target disk" when less is free and with the probe's own message when it threw |
| TreeSize.GetDirectorySize | electron/migrateFolder.js:22-32 | The recursive walk returns the specified size of the tree, or the error `readdir`/`stat` throw on a missing path or a file |
| TreeSize.DirectorySizeIsSumOfFiles | electron/migrateFolder.js:22-32 | On a real tree the size is defined exactly for directories and equals the sum of the sizes of every regular file beneath, excluding nothing |
| TreeSize.EmptyDirectoryHasSizeZero | electron/migrateFolder.js:31 | An empty directory has size 0 (the `reduce` starts at 0) |
| TreeSize.SumChildrenPickAny | electron/migrateFolder.js:24-31 | Any child may be added first: the size does not depend on `readdir` order |
| Progress.StreamDeltas | electron/migrateFolder.js:43-48 | The `lastSent` loop turns the stream's transferred counts into the sequence of deltas passed to `updateProgress` |
| Progress.DeltaStreamTotals | electron/migrateFolder.js:43-48 | The deltas telescope to the last count reported, and are all non-negative when the counts never decrease |
| Progress.Reported | electron/migrateFolder.js:88 | A percentage is never above 99; the result is `NaN` exactly for `0/0` |
| Progress.RoundedPercentIsNearest | electron/migrateFolder.js:88 | `Math.round(c / t * 100)` is the integer nearest to `100c/t`, halves rounding up |
| Progress.ReportedBounds | electron/migrateFolder.js:88 | For a non-empty total and a non-negative count the percentage lies in 0..99 |
| Progress.ReportedMonotone | electron/migrateFolder.js:88 | More bytes copied never gives a smaller percentage |
| Progress.ReportedCapsAt99 | electron/migrateFolder.js:88 | A complete copy still reports 99, never 100 |
| Progress.ForwardProgress | electron/migrateFolder.js:84-90 | Each event is the percentage of the running total `copiedBytes` after that delta; the final `copiedBytes` is the sum of the deltas |
| Progress.ForwardedProgressIsMonotone | electron/migrateFolder.js:84-90 | With non-negative deltas every event is a percentage in 0..99 and the events never decrease |
| Copy.ProcessFile | electron/migrateFolder.js:34-51 | The copy succeeds exactly when the transfer does not fail and the destination can be written; the destination then holds the source's bytes; on failure the disk is unchanged; its deltas are the stream's deltas |
| Copy.ProcessEntry | electron/migrateFolder.js:60-73 | One entry of the `reduce`: a `.lock` name is skipped, a directory is recursed into, a file is streamed; the result is the disk plus that entry's mirror when nothing fails |
| Copy.ProcessDirectory | electron/migrateFolder.js:53-75 | `ensureDir` then every entry in turn; succeeds exactly when nothing on the way fails, and then yields the destination plus the mirror of the source tree; only the destination's tree (and its missing ancestors) change; deltas are non-negative under non-decreasing reports |
| Copy.MirrorAt | electron/migrateFolder.js:63 | The mirror holds `dst + r` exactly when `src + r` exists and no segment of `r` ends in `.lock`, with the same contents |
| Copy.MirrorIsWellFormed | electron/migrateFolder.js:53-75 | The mirrored disk is a well-formed tree that extends the original only beneath the destination |
| Copy.CopyWithProgress | electron/migrateFolder.js:82-93 | Sizes the source first (its error ends the copy untouched), then copies as `ProcessDirectory`; every event is the rounded, capped percentage of the running total, at most 99, and non-decreasing under non-decreasing reports over a non-empty source |
| MigrateFolder.DerivedPathStrings | electron/migrateFolder.js:124-125 | The staging folder and the lock are the new folder's string with `.migrating` / `.lock` appended |
| MigrateFolder.CleanupOnExit | electron/migrateFolder.js:129-140 | Removes the staging folder with its contents if it exists and the lock if it exists as a file, nothing else; a failing unlink is swallowed |
| MigrateFolder.CleanupIsIdempotent | electron/migrateFolder.js:143-145 | The closure registered on three events may run several times: a second run changes nothing |
| MigrateFolder.CleanupKeepsWellFormed | electron/migrateFolder.js:129-140 | The clean-up leaves a well-formed tree |
| MigrateFolder.RejectsNestedDestination | electron/migrateFolder.js:149-155 | A parent at or under the current folder is always turned away |
| MigrateFolder.RejectsSiblingWithSharedPrefix | electron/migrateFolder.js:151 | The raw `startsWith` also turns away a parent such as `/d/.argo2` next to the current `/d/.argo`, which is not inside it |
| MigrateFolder.AcceptedDestination | electron/migrateFolder.js:149-155 | An accepted destination does not exist, is not under the current folder, and neither is its staging folder nor its lock unless it is the current folder itself |
| MigrateFolder.RejectionOutcome | electron/migrateFolder.js:149-155 | A rejected destination answers "Please select another folder", writes no lock, copies nothing and sends no progress |
| MigrateFolder.Stage | electron/migrateFolder.js:156-165 | Lock, size, space check, copy into the staging folder, stopping at the first error with that error's message (see FileSystem.Message under Left out); no error exactly when every step goes through, and then the disk is the specified staged disk; after the lock is written it stays in place and only the staging tree grows |
| MigrateFolder.CommitGoesThrough | electron/migrateFolder.js:168-173 | Once staged, `move(temp, new, {overwrite:false})` and the unlink of the lock cannot fail, and leave a well-formed disk |
| MigrateFolder.MoveIntoPlace | electron/migrateFolder.js:168 | The rename of the staging folder to the new folder |
| MigrateFolder.UnlinkLock | electron/migrateFolder.js:173 | The unlink of the lock ends in the committed disk |
| MigrateFolder.CommitPlacesMirror | electron/migrateFolder.js:165-168 | After success the new folder is a directory holding every entry of the old folder the walk reached, with the same contents, and nothing but those and what the staging folder already held |
| MigrateFolder.CommitFrame | electron/migrateFolder.js:159-173 | After success every entry outside the new folder, the staging folder and the lock is exactly as before |
| MigrateFolder.CommitClearsMarkers | electron/migrateFolder.js:168-173 | After success neither the staging folder, nor anything in it, nor the lock remains |
| MigrateFolder.CommitKeepsSource | electron/migrateFolder.js:174 | The handler does not delete the current folder: after success every entry of it is still there, unchanged, unless the current folder lies inside the staging folder `<parent>/.argo.migrating` |
| MigrateFolder.StagingNestedPassesCurrentFolderTest | electron/migrateFolder.js:151 | A current folder inside `<parent>/.argo.migrating` is never turned away by the current-folder `startsWith` test |
| MigrateFolder.CommitMovesSourceInsideStaging | electron/migrateFolder.js:149-168 | When such a run is accepted (the new folder absent and outside the install directory) and succeeds, the current folder is gone from its path and sits under the new folder |
| MigrateFolder.ChosenParent | electron/migrateFolder.js:123 | The parent path the dialog's first file path names |
| MigrateFolder.StoredDataDir | electron/migrateFolder.js:169 | The value written to `customPath` is again a data-folder path |
| MigrateFolder.FailureOutcome | electron/migrateFolder.js:194-199 | A step that throws answers `{success:false, message}` with its error's message and leaves the lock and the partial staging folder in place |
| MigrateFolder.SuccessOutcome | electron/migrateFolder.js:188-193 | A completed run answers "Data migration is completed" with the old and new paths and leaves the committed disk |
| MigrateFolder.Transfer | electron/migrateFolder.js:156-199 | The disk side of the `try` after validation: succeeds exactly when every step goes through, with the committed disk, otherwise fails with the first error's message; percentages at most 99 and non-decreasing |
| MigrateFolder.Host.ListenForExit | electron/migrateFolder.js:143-145 | Registers `cleanupOnExit` for `will-quit`, `uncaughtException` and `SIGTERM` |
| MigrateFolder.Host.StopListeningForExit | electron/migrateFolder.js:185-187 | Removes those three registrations |
| MigrateFolder.Host.Send | electron/migrateFolder.js:77-80 | Appends to what the window's `migration-progress` channel received |
| MigrateFolder.Host.ScheduleRelaunch | electron/migrateFolder.js:179-182 | Records the relaunch timer |
| MigrateFolder.HandleMigrate | electron/migrateFolder.js:109-200 | Cancelled dialog: `null`, nothing changes. Otherwise `tempMigratePath` is set first; the response and disk are as in `Transfer`, or the rejection; on success `customPath` becomes the new folder and `lastCustomPath` the old one, relaunch is scheduled and the listeners are removed; on failure they stay registered; the channel receives 0, the copy's percentages and, only on success, 100; the store stays valid |
| FileSystem.Children | electron/migrateFolder.js:55 | `readdir` lists exactly the names `n` with `dir/n` present |
| FileSystem.EnsureDir | electron/migrateFolder.js:54 | `mkdir -p`: creates only directories on the way to `p`, keeps every entry, and fails exactly when a file stands on the way |
| FileSystem.WriteFile | electron/migrateFolder.js:159 | Succeeds exactly when the parent is a directory and the target is not one, and then sets the file's bytes |
| FileSystem.Unlink | electron/migrateFolder.js:173 | Succeeds exactly on a regular file and removes just that entry |
| FileSystem.Move | electron/migrateFolder.js:168 | Succeeds only from an existing source that is not an ancestor of a missing destination |
| FileSystem.MoveAt | electron/migrateFolder.js:168 | After a move the source's tree is found under the destination, entry for entry |
| FileSystem.MoveFrame | electron/migrateFolder.js:168 | A move touches nothing outside the two trees except to create the destination's parent |
| FileSystem.MoveKeepsWellFormed | electron/migrateFolder.js:168 | A move leaves a well-formed tree |
| FileSystem.EnsureDirFails | electron/migrateFolder.js:54 | A file anywhere on the way makes `ensureDir` fail |
| Paths.ParseRender | electron/migrateFolder.js:124 | Rendering a valid path and parsing the string gives the path back |
| Paths.RenderParse | electron/migrateFolder.js:123 | A string that parses renders back to itself |
| Paths.PrefixRendersAsStartsWith | electron/migrateFolder.js:151 | A path under a folder renders to a string that starts with the folder's string |
| Paths.EndsWithOnLastSegment | electron/migrateFolder.js:63 | `srcPath.endsWith('.lock')` on a joined path is the test on its last segment |
| Paths.RenderSuffix | electron/migrateFolder.js:125 | Appending to a joined path's string renames its last segment |
| AppStore.KeyNamesDistinct | electron/main.js:36-40 | The three settings are stored under distinct names |
| AppStore.DataDir | electron/main.js:39 | A data-folder string names a valid path ending in `.argo` that renders back to it |
| AppStore.DefaultsValid | electron/main.js:34-43 | The defaults are `lastCustomPath = ''`, `tempMigratePath = ''`, `customPath = home/.argo`, all of the forms the program relies on |
| AppStore.MergedValid | electron/main.js:34-43 | Saved settings override the defaults key by key, and the merged settings are still of those forms |
| AppStore.Store.constructor | electron/main.js:34-43 | `new ElectronStore({defaults})` over the saved settings |
| AppStore.Store.Set | electron/migrateFolder.js:169-170 | `store.set` changes just that key and keeps the store valid for a value of the key's form |
| Startup.AttemptLeavesMarkers | electron/main.js:63 | The staging folder and lock of an attempt have marker names; the new folder `.argo` does not |
| Startup.SweepMarkers | electron/main.js:62-68 | The `forEach` over `readdir`, in any order, removes exactly the marker entries of the folder with their contents |
| Startup.RemoveTemp | electron/main.js:52-70 | `removeTemp` yields the specified sweep of the recorded folder and keeps the disk well-formed |
| Startup.TempSweptNoEffect | electron/main.js:53-58 | Nothing changes when the value is `''`, names nothing, names a file, or `readdir` fails |
| Startup.TempSweptExact | electron/main.js:60-68 | On a readable folder, a direct entry survives exactly when its name is not a marker; nothing beneath a marker survives; every other entry anywhere is unchanged |
| Startup.SweptKeepsWellFormed | electron/main.js:60-68 | The sweep leaves a well-formed tree |
| Startup.SweptIsIdempotent | electron/main.js:52-70 | Sweeping again changes nothing |
| Startup.RemoveLastDir | electron/main.js:45-49 | Removes the recorded folder and everything beneath it when the value is not `''` and the folder exists, nothing otherwise |
| Startup.SweepCommutesWithRemoval | electron/main.js:472-473 | The two clean-ups, which run asynchronously, give the same disk in either order |
| Startup.WhenReady | electron/main.js:468-473 | Store first, then `removeTemp`, then `removeLastDir`, leaving a valid store and a well-formed disk before the handler is registered |
| Startup.FailedAttemptSweptAway | electron/main.js:52-70 | After an attempt that failed once its lock was written, the next start-up's sweep leaves what it would have left had the attempt never run |
| Startup.PreviousFolderGone | electron/main.js:45-49 | After start-up nothing of the recorded previous folder remains, whatever the sweep did |
| Startup.EntrySurvivesStartup | electron/main.js:45-70 | An entry that is no marker of the recorded parent and not inside the previous folder survives start-up unchanged |
| Startup.RelaunchRemovesOldFolder | electron/main.js:471-473 | A successful migration followed by a relaunch deletes the folder the data was moved from |
| Startup.RelaunchKeepsNewFolder | electron/main.js:471-473 | The same relaunch keeps the new folder and every copied entry in it, with the old folder's bytes |
| CloseAction.QuitTypeAt | electron/main.js:101 | `QUIT_TYPE[i]` is defined exactly for 0, 1, 2 |
| CloseAction.QuitTableInverse | electron/main.js:101 | The table maps 0, 1, 2 one-to-one onto minimize, quit, maintain |
| CloseAction.QuitNamesDistinct | electron/main.js:101 | The three actions have distinct strings |
| CloseAction.ParseDialogResult | electron/main.js:183-195 | The action is the table entry of the button index (none outside 0..2); remember is the object's checkbox, or for a bare index `dialog.checkboxChecked` when true and `false` otherwise |
| CloseAction.OnClose | electron/main.js:275-316 | Quitting: nothing. Else auto-update: quit. Else a saved `minimize`/`quit` applies without asking. Else the dialog's action applies; a preference is saved exactly when remember is ticked and the action is minimize or quit, and it is that action's string |
| CloseAction.RememberedChoiceSticks | electron/main.js:283-315 | Once a preference was saved, every later close does the same thing without asking and saves nothing |
| CloseAction.DismissKeepsWindow | electron/main.js:299-316 | Dismissing the dialog (index 2) or any index outside the table keeps the window open and saves nothing |
| CloseAction.OtherPreferenceAsks | electron/main.js:283-295 | A missing preference, or one other than `minimize`/`quit`, leads to the dialog |

## Left out

- The dialogs, the window and IPC: the folder the user picks is an input (`picked`, the dialog's `filePaths`), and so is the close dialog's answer.
- `checkDiskSpace` and `app.getPath('exe')`: both are inputs (`space`, `exeDir`).
- Process control: `killDetachedProcess`, `app.relaunch`/`app.exit` and the 2-second timer. The model only records that the relaunch was scheduled.
- Timing and concurrency: `progress-stream`'s 100 ms cadence, the `Promise.all` inside `getDirectorySize` (the result is a sum), and the asynchronous completion of the start-up removals.
  - The reports of each transfer are an input sequence.
  - The removals are taken one after the other. `Startup.SweepCommutesWithRemoval` shows the order does not matter.
- Floating point: the percentage is computed in exact integers with the same rounding and cap.
- Logging (`console.*`, `logOperation`) and the preference and language files. `loadUserPreference` is an input and `saveUserPreference` is the decision's `saved` field.
- The other handlers registered in `app.whenReady`, `runArgo` and everything after them. The update and proxy modules and the build configuration are not part of this model.
- The cleanupOnExit listeners: the model records their registration and removal, but not their firing. `MigrateFolder.CleanupOnExit` is what one firing does.
- MigrateFolder.HandleMigrate: requires `customPath` to be a normalised absolute path ending in `.argo`, and the picked folder to be a normalised absolute path. The store invariant keeps these forms for every value the program writes, and the dialog returns such paths. Relative or unnormalised strings are not modelled.
- MigrateFolder.HandleMigrate: writes `customPath`/`lastCustomPath` after the lock's unlink, where the source writes them between the move and the unlink. `MigrateFolder.CommitGoesThrough` proves the unlink cannot fail once the move succeeded, so the end state is the same.
- MigrateFolder.Host.ListenForExit: the three `on(...)` calls are one step, and likewise the three `removeListener` calls.
- The move, the unlink and the stream are trusted to behave as the fs-extra/fs documentation says.
  - Faults are injected only into file transfers.
  - A failed transfer leaves no partial destination file.
  - The copy reads a snapshot of the source taken when it starts.
- Startup.RemoveTemp: the failure of `readdir` on an existing directory (permissions) is the input `readable`. Errors of the individual removals, which are only logged, are not modelled.
- AppStore.Store: only the three settings the migration uses are modelled.
- MigrateFolder.CommitKeepsSource: does not cover a current folder inside `<parent>/.argo.migrating`. That happens when an earlier migration picked `<parent>/.argo.migrating` as its parent. The current-folder test never turns `<parent>` away then (`MigrateFolder.StagingNestedPassesCurrentFolderTest`). When `<parent>/.argo` is also absent and outside the install directory, the run goes through and the rename carries the current folder to `<parent>/.argo/…`. `MigrateFolder.CommitMovesSourceInsideStaging` states this case.
- FileSystem.Message: error texts are approximations. They keep the errno code, its description and the path, but not the system-call name Node puts in them (`open`, `scandir`, `mkdir`, `stat`). When a file blocks `ensureDir`, the model reports EEXIST on that file. Node's recursive `mkdir` reports EEXIST only when the requested path itself is a file, and ENOTDIR on the requested path when a file stands higher up. The handler never meets the second case, since the lock write already needs the parent to be a directory. So the `message` of a failure names the failing step and its errno, not Node's exact string.
- Paths: paths are POSIX strings joined with `/` and compared case-sensitively. Windows paths (`\` separators, drive letters, a case-insensitive disk) are not modelled. The `existsSync` and `startsWith` tests are therefore read under POSIX rules.
- Symbolic links: the disk holds only regular files and directories. `fs.stat` follows links, so in the source a link to a folder is sized and copied as that folder, and a dangling link makes the size step fail with ENOENT. None of this is modelled.
- FileSystem.Move: only the checks the handler can meet are modelled faithfully. fs-extra's own messages for a directory moved onto a file and for `src == dst`, and its file/directory distinction in the subdirectory test, are replaced by `DestExists` and `MoveIntoItself`. The handler never reaches these branches.
