# Blender download manager — a verified model of its core

The blender-download-manager is a terminal program (Rust, ratatui and tokio).
It lists the Blender builds already unpacked in a download directory, fetches
the list of daily builds offered on the Blender site, and downloads one of
them with a progress line. This project models and proves the logic at its
core:

- **The two list panels of the terminal interface.** Each panel is a cursor
  over a list that wraps at both ends. The remote panel also has a
  fetched/selection-mode flag pair and a status line. The model includes
  the current copies of the panels (`src/tui/app/widgets/`) and the three
  earlier copies (`src/tui/app/file_list.rs`, `file_list_widget.rs`,
  `remote.rs`).
- **The key and message dispatchers** of the current application
  (`src/tui/app.rs`) and of the earlier one (`src/tui/app/mod.rs`). A
  background task that a key launches is an entry appended to a ghost log.
  A message a task sends back is a call of `HandleMessages`.
- **Reading build names.** `match_str` turns a `blender-…` directory or
  archive name into a build descriptor. Its two regular expressions are
  specified relationally, with leftmost-first, lazy and greedy regex
  semantics, and a deterministic matcher is proved to find exactly the
  match the regex engine reports. `parse_downloaded` applies `match_str` to
  scanned directories.
- **`filter_latest`.** It keeps the last build per (version, release), lets
  a kept stable build hide the others of its version, and sorts by version,
  highest first.
- **The download progress tracker** and its minutes-left estimate.

Panics are part of the model, under debug-build semantics. Each one is a
result the caller can see: an `Option`/`Result`, a `panicked` flag, or an
`Emission.Panicked(fault)`. None of them is a precondition. The panics
covered are:

- the `unwrap` of the build under the cursor;
- the `unwrap` of the name after "daily/";
- the `len - 1` underflow of the unguarded decrements;
- the division by zero and the subtraction underflow in `estimated`.

Each file models one source file:

- `types.dfy`: the build descriptor (`src/lib.rs`), the configuration, the
  terminal events and the launched tasks.
- `selection.dfy`: the cursor arithmetic that all five panels share.
- `blender_matcher.dfy`, `blender_utils.dfy`: `src/blender_utils.rs`.
- `files_utils.dfy`: `src/tui/app/widgets/files/utils.rs`.
- `remote_panel.dfy`: `src/tui/app/widgets/remote.rs`.
- `files_panel.dfy`: `src/tui/app/widgets/files/mod.rs`.
- `app.dfy`: `src/tui/app.rs`.
- `legacy_file_list.dfy`: `src/tui/app/file_list.rs`.
- `legacy_file_list_widget.dfy`: `src/tui/app/file_list_widget.rs`.
- `legacy_remote.dfy`: `src/tui/app/remote.rs`.
- `legacy_app.dfy`: `src/tui/app/mod.rs`.
- `tracker.dfy`: `src/tracker.rs`.

Both applications are classes whose fields are the panels. Each handler is
proved against a pure transition function on a value snapshot of the state
(`Step`, `Receive`, `Init`): the handler's `ensures` is
`Outcome(View(), panicked) == Step(old(View()), e, config)`. The
properties of the dispatcher are then lemmas about `Step` and `Receive`.

Behaviour of the code worth noting:

- **A failed fetch.** The code's `Error` message only replaces the status
  line. It does not clear the remote list.
- **The end of a download.** `GetVersionResult` only sets "downloaded". No
  extraction step is chained after it.
- **The local panel's decrement.** It is unguarded and panics at index 0
  on an empty list. Only the remote panel's decrement guards `len == 0`.
- **Enter on the remote panel.** It keys on `select_mode`, not on whether
  the list is empty. Nothing stops a second fetch while one is under way,
  and the earlier application fetches again on every Enter.
- **Zero elapsed seconds in `estimated`.** The code does not guard them: it
  divides and panics. That panic is modelled, and is proved unreachable
  through `update`.

## Model

| member | source | states |
|---|---|---|
| Selection.Next | src/tui/app/widgets/remote.rs:82-88 | increment wraps to 0 at `len`: the result is below `len` when `len > 0`, and 0 when `len == 0` |
| Selection.PrevGuarded | src/tui/app/widgets/remote.rs:90-100 | guarded decrement: identity on an empty list; 0 goes to exactly `len - 1` on a non-empty list, anything else down by one; an in-range cursor stays in range |
| Selection.PrevUnguarded | src/tui/app/widgets/files/mod.rs:57-63 | unguarded decrement: panics (`None`) exactly at index 0 of an empty list; otherwise down by one, or from 0 to exactly `len - 1` on a non-empty list; in range when it started in range |
| Selection.NextPrevInverse | src/tui/app/widgets/remote.rs:82-100 | on a non-empty list with the cursor in range, increment then decrement and decrement then increment both restore the cursor, for both decrement forms |
| Selection.StepsRotate | src/tui/app/widgets/remote.rs:82-88 | `k <= len` increments move an in-range cursor to `selected + k` modulo `len` |
| Selection.FullCycle | src/tui/app/widgets/remote.rs:82-88 | `len` increments bring the cursor back to where it started |
| BlenderMatcher.MatchStr | src/blender_utils.rs:28-66 | `None` exactly when neither pattern matches; the main pattern's leftmost match wins when it matches; the extracted pattern is tried only when the main one does not match |
| BlenderMatcher.FindMainLeftmost | src/blender_utils.rs:16 | the deterministic search finds a main match exactly when one exists, and finds the leftmost-first one with a lazy branch and a greedy os group |
| BlenderMatcher.FindFallbackLeftmost | src/blender_utils.rs:20 | the same for the extracted-directory pattern: the leftmost start and the longest os group |
| BlenderMatcher.MainAtComplete | src/blender_utils.rs:16 | every way the main pattern can match at a position is seen by the matcher, which picks the shortest branch and the longest os |
| BlenderMatcher.FallbackAtComplete | src/blender_utils.rs:20 | every way the extracted pattern can match at a position is seen, with the longest os |
| BlenderMatcher.BranchOs | src/blender_utils.rs:16 | the `\+(?<branch>.+?)-(?<os>.+)-` tail, when found, is a non-empty branch, a '-', a non-empty os and a closing '-', all on one line |
| BlenderMatcher.BranchOsComplete | src/blender_utils.rs:16 | whenever such a tail exists after the release, the matcher finds one whose branch is no longer (lazy) and whose os is no shorter (greedy) |
| BlenderMatcher.LeftmostMainUnique | src/blender_utils.rs:16 | regex semantics determine a single reported main match |
| BlenderMatcher.LeftmostFallbackUnique | src/blender_utils.rs:20 | regex semantics determine a single reported extracted match |
| BlenderMatcher.MainResultShape | src/blender_utils.rs:38-44 | a main result has an empty link, a version of shape `\d.\d.\d+` (dots match any character), a non-empty word release, and `"blender-"+version+"-"+release+"+"+branch+"-"+os+"-"` occurs in the input |
| BlenderMatcher.FallbackResultShape | src/blender_utils.rs:53-58 | an extracted result has release "stable", empty branch and link, a version of shape `\d.\d.\d+`, and `"blender-"+version+"-"+os` occurs in the input |
| BlenderMatcher.MatchStrMain | src/blender_utils.rs:29-46 | when the main pattern matches, `match_str` returns a build of the main shape |
| BlenderMatcher.MatchStrFallback | src/blender_utils.rs:48-62 | when only the extracted pattern matches, `match_str` returns a stable build of the extracted shape |
| BlenderUtils.StrLeTotal | src/blender_utils.rs:85 | the lexicographic string order used by the sort is total |
| BlenderUtils.StrLeTrans | src/blender_utils.rs:85 | that order is transitive |
| BlenderUtils.InsertDesc | src/blender_utils.rs:85 | inserting into a descending list keeps it descending and adds exactly the one element (multiset) |
| BlenderUtils.SortDesc | src/blender_utils.rs:85 | the sort's result is a permutation of its input, sorted by version descending, and keeps distinctness |
| BlenderUtils.Covered | src/blender_utils.rs:75-80 | every scanned build leaves behind its own key or the stable key of its version |
| BlenderUtils.LatestSpec | src/blender_utils.rs:72-81 | the map after the reversed scan holds, under each build's key, exactly the builds that no later build shadows (same version and same release, or a later stable one) |
| BlenderUtils.ScanLatest | src/blender_utils.rs:70-82 | the reversed loop with its two `continue`s computes exactly that map |
| BlenderUtils.IntoValues | src/blender_utils.rs:84 | `into_values` yields every value of the map, only values of the map, each once when values are keyed by their own key |
| BlenderUtils.LatestKeyed | src/blender_utils.rs:80 | every entry of the scanned map sits under its own build's key |
| BlenderUtils.LatestValue | src/blender_utils.rs:72-81 | every value of the scanned map is a kept build |
| BlenderUtils.LatestValuesKeyed | src/blender_utils.rs:72-84 | distinct values of the scanned map have distinct (version, release) keys and are all kept builds |
| BlenderUtils.FilterLatest | src/blender_utils.rs:69-87 | output sorted by version descending, at most one build per (version, release), and a build is in the output exactly when it is an input build no later input build shadows |
| BlenderUtils.SortedKeys | src/blender_utils.rs:84-85 | sorting keeps the set of builds and the distinctness of their keys |
| FilesUtils.ParseOne | src/tui/app/widgets/files/utils.rs:34-41 | a path without components gives nothing; otherwise `match_str` of the last component, which is nothing exactly when neither pattern matches |
| FilesUtils.Flatten | src/tui/app/widgets/files/utils.rs:43-44 | `flatten` keeps exactly the present values and never lengthens the list |
| FilesUtils.FlattenAppend | src/tui/app/widgets/files/utils.rs:43-44 | `flatten` distributes over concatenation, so it keeps the order |
| FilesUtils.ParseAll | src/tui/app/widgets/files/utils.rs:32-42 | the `map` step: one result per path, in order |
| FilesUtils.ParseAllAppend | src/tui/app/widgets/files/utils.rs:32-42 | the `map` step distributes over concatenation: paths are parsed one by one, in order |
| FilesUtils.ParseDownloaded | src/tui/app/widgets/files/utils.rs:29-47 | the output is no longer than the input, and a build is in it exactly when some path's last component parses to it |
| FilesUtils.ParseDownloadedAppend | src/tui/app/widgets/files/utils.rs:32-44 | the input order is kept: parsing two lists in sequence concatenates their results |
| FilesUtils.ParseDownloadedSingle | src/tui/app/widgets/files/utils.rs:35-43 | one path contributes exactly its build when it matches, and nothing when it has no components or does not match |
| RemotePanel.RemoteWidget.constructor | src/tui/app/widgets/remote.rs:30-43 | not checked, not in selection mode, empty list, length 0, cursor 0, message "press enter to check available versions" |
| RemotePanel.RemoteWidget.IncrementActiveSelection | src/tui/app/widgets/remote.rs:82-88 | the cursor becomes `Next` of the old one; below `len` when `len > 0`, 0 when `len == 0`; nothing else changes |
| RemotePanel.RemoteWidget.DecrementActiveSelection | src/tui/app/widgets/remote.rs:90-100 | no-op on an empty list; 0 goes to `len - 1`, others down by one; an in-range cursor stays in range |
| RemotePanel.RemoteWidget.SetAvailable | src/tui/app/widgets/remote.rs:102-108 | list and length replaced, selection mode and checked on, message "ready", cursor unchanged |
| RemotePanel.RemoteWidget.SetMessage | src/tui/app/widgets/remote.rs:110-112 | only the message changes, to the given text |
| RemotePanel.RemoteWidget.DownloadSelected | src/tui/app/widgets/remote.rs:114-118 | with the cursor in range: returns the build under it and sets "downloading " + its link; past the end: panics (`None`) leaving the message as it was |
| RemotePanel.FindFrom | src/tui/app/widgets/remote.rs:54 | the first occurrence of a pattern at or after a position, or none at all |
| RemotePanel.FileName | src/tui/app/widgets/remote.rs:54 | `split("daily/").nth(1)`: `None` exactly when the link has no "daily/"; otherwise the text between the first "daily/" and the next one or the end |
| RemotePanel.FileNameOfLink | src/tui/app/widgets/remote.rs:54 | for `prefix + "daily/" + name` with no earlier "daily/" and none in `name`, the file name is `name` |
| RemotePanel.PushPath | src/tui/app/widgets/remote.rs:56-57 | `PathBuf::push`: an absolute name replaces the path; otherwise the path is kept as a prefix and the name is the suffix; a '/' is put between them exactly when the path is non-empty and does not already end in one |
| RemotePanel.GetFile | src/tui/app/widgets/remote.rs:53-68 | the archive path is the configured directory pushed with the name after "daily/"; `None` exactly when the link has no "daily/" |
| RemotePanel.GetFileOfLink | src/tui/app/widgets/remote.rs:53-57 | for `prefix + "daily/" + name` the archive path is `name` pushed onto the configured directory |
| FilesPanel.FileListWidget.constructor | src/tui/app/widgets/files/mod.rs:24-35 | cursor 0, then one refresh: the list is the parsed scan and its length is recorded |
| FilesPanel.FileListWidget.RefreshLocal | src/tui/app/widgets/files/mod.rs:37-45 | list replaced by the parsed scan, length recorded, no longer than the scan; cursor untouched |
| FilesPanel.FileListWidget.IncrementActiveSelection | src/tui/app/widgets/files/mod.rs:49-55 | the cursor becomes `Next` of the old one; below `len` when `len > 0`, 0 when `len == 0` |
| FilesPanel.FileListWidget.DecrementActiveSelection | src/tui/app/widgets/files/mod.rs:57-63 | panics exactly at index 0 of an empty list (the cursor is left as it was); otherwise the unguarded decrement; an in-range cursor stays in range |
| LegacyFileList.FileListWidget.constructor | src/tui/app/file_list.rs:24-35 | cursor 0, then one refresh: the list is the parsed scan and its length is recorded |
| LegacyFileList.FileListWidget.RefreshLocal | src/tui/app/file_list.rs:37-45 | list replaced by the parsed scan, length recorded; cursor untouched |
| LegacyFileList.FileListWidget.IncrementActiveSelection | src/tui/app/file_list.rs:49-55 | the cursor becomes `Next` of the old one; below `len` when `len > 0` |
| LegacyFileList.FileListWidget.DecrementActiveSelection | src/tui/app/file_list.rs:57-63 | panics exactly at index 0 of an empty list; otherwise the unguarded decrement; an in-range cursor stays in range |
| LegacyFileListWidget.FileListWidget.constructor | src/tui/app/file_list_widget.rs:19-25 | the given list, its length, cursor 0 |
| LegacyFileListWidget.FileListWidget.IncrementActiveSelection | src/tui/app/file_list_widget.rs:29-35 | the cursor becomes `Next` of the old one; the list and length are constants |
| LegacyFileListWidget.FileListWidget.DecrementActiveSelection | src/tui/app/file_list_widget.rs:37-43 | panics exactly at index 0 of an empty list; otherwise the unguarded decrement |
| LegacyRemote.RemoteWidget.constructor | src/tui/app/remote.rs:22-30 | the configuration kept, not checked, empty list, length 0, cursor 0 |
| LegacyRemote.RemoteWidget.GetLinks | src/tui/app/remote.rs:34-43 | a successful fetch replaces only the list (the length stays 0); a failed one changes nothing |
| LegacyRemote.RemoteWidget.IncrementActiveSelection | src/tui/app/remote.rs:45-51 | the cursor becomes `Next` of the old one, so with length 0 it stays 0 |
| LegacyRemote.RemoteWidget.DecrementActiveSelection | src/tui/app/remote.rs:53-59 | panics exactly at index 0 with length 0, which is every call from the initial state |
| App.Init | src/tui/app.rs:70-95 | not done, local panel focused, cursor 0, no task launched, each panel's length that of its list |
| App.Receive | src/tui/app.rs:121-137 | only the remote panel changes: a fetched list is installed with its length, selection mode and `checked` on and the status "ready"; an error or a progress report becomes the status line and the end of a download sets it to "downloaded", each changing nothing else; the cursor is kept |
| App.Step | src/tui/app.rs:139-222 | only presses act; a panic changes nothing; done exactly on 'q' or when already done; lists unchanged; at most one task appended; panel lengths stay those of their lists |
| App.TuiApp.constructor | src/tui/app.rs:70-95 | the state is `Init` of the scanned directory, the text "loading...", fresh panels |
| App.TuiApp.HandleMessages | src/tui/app.rs:121-137 | the new state is `Receive` of the old one, and each panel's length stays the length of its list |
| App.TuiApp.HandleEvents | src/tui/app.rs:139-222 | the new state and the panic flag are `Step` of the old state, and each panel's length stays the length of its list |
| App.FocusAndQuit | src/tui/app.rs:160-173 | Left and Right set only the focus, 'q' sets only the quit flag, a space changes nothing |
| App.UpDownFocused | src/tui/app.rs:144-159 | Down moves the focused cursor to `Next`; Up moves it to the unguarded decrement on the local panel and the guarded one on the remote panel; only the focused panel changes, nothing is launched, an in-range cursor stays in range; the one panic is Up on an empty local panel at 0 |
| App.DownThenUp | src/tui/app.rs:144-159 | Down then Up restores the focused panel's in-range cursor |
| App.EnterLaunches | src/tui/app.rs:174-215 | Enter on the local panel does nothing; on the remote panel in selection mode it launches exactly one download of the build under the cursor (panicking past the end), otherwise it sets "checking available versions..." and launches exactly one fetch |
| App.FetchThenDownload | src/tui/app.rs:179-188 | after a fetched list arrives, Enter on the remote panel downloads the entry under the cursor instead of fetching again |
| LegacyApp.Init | src/tui/app/mod.rs:53-72 | not done, the local panel over the given list, cursor 0, no task launched |
| LegacyApp.Receive | src/tui/app/mod.rs:100-109 | a fetched list is installed with its length, selection mode and `checked` on and the status "ready"; an error becomes the status line and changes nothing else |
| LegacyApp.Step | src/tui/app/mod.rs:111-153 | only presses act; a panic changes nothing; done exactly on 'q'; lists and the remote cursor unchanged; at most one task appended |
| LegacyApp.TuiApp.constructor | src/tui/app/mod.rs:53-72 | the state is `Init` of the given list, the text "loading..." |
| LegacyApp.TuiApp.HandleMessages | src/tui/app/mod.rs:100-109 | the new state is `Receive` of the old one |
| LegacyApp.TuiApp.HandleEvents | src/tui/app/mod.rs:111-153 | the new state and the panic flag are `Step` of the old state |
| LegacyApp.NoFocusKeys | src/tui/app/mod.rs:122-127 | Left, Right and a space change nothing; 'q' sets only the quit flag |
| LegacyApp.UpDownReversed | src/tui/app/mod.rs:116-121 | Up increments and Down decrements the local cursor only; Down panics exactly at index 0 of an empty list |
| LegacyApp.EnterAlwaysFetches | src/tui/app/mod.rs:128-146 | Enter always sets "checking available versions..." and launches exactly one fetch, even after a list has arrived |
| Tracker.Estimated | src/tracker.rs:47-53 | succeeds exactly when the elapsed seconds are positive, nothing was over-read and the rate is positive; otherwise the panic in evaluation order: zero seconds, underflow, zero rate |
| Tracker.EstimatedFloor | src/tracker.rs:50 | a successful estimate `m` is the whole minutes left at the average rate: `m*60*rate <= remaining < (m+1)*60*rate` |
| Tracker.EstimateBounds | src/tracker.rs:50 | dividing by the rate and then by 60 is the floor of dividing by 60 times the rate |
| Tracker.ElapsedSecs | src/tracker.rs:48 | whole seconds since the start, at least 1 once more than a window has passed, 0 before the start |
| Tracker.Status | src/tracker.rs:55-76 | a status line carries the elapsed seconds and the estimate, or the panic `estimated` raises; once a window has passed, never the zero-seconds panic |
| Tracker.ProgressTracker.constructor | src/tracker.rs:18-27 | the given content length, nothing read, timer, start and the tracker's clock all now |
| Tracker.ProgressTracker.Update | src/tracker.rs:29-45 | total grows by exactly the read and is the sum of all reads; within the window nothing is printed and the window count grows; past it exactly one status line is printed and the count and timer are reset, unless `estimated` panics; the zero-seconds panic never happens; the status-line log grows only when a line is printed; the tracker's clock becomes `now` |
| Tracker.ProgressTracker.EmissionsBounded | src/tracker.rs:37-43 | status lines are more than a second apart, so their number times 1001 ms is at most the time from the start to the latest update |
| Tracker.ProgressTracker.EmissionsSpaced | src/tracker.rs:37-43 | the i-th status line comes at least `(i+1)` windows after the start |
| Tracker.ProgressTracker.IncrementalLeTotal | src/tracker.rs:30-33 | the window's count never exceeds the total count |

## Left out

- Unicode: `\d` and `\w` are modelled as ASCII digits and ASCII word characters; Rust's regex classes are Unicode-aware.
- FilesUtils.ParseOne: a directory name that is not valid UTF-8 makes `to_str().unwrap()` panic (src/tui/app/widgets/files/utils.rs:39); paths are modelled as lists of strings, so this cannot arise.
- Integer width: `usize`/`u64` overflow of the cursor's `+= 1` and of the tracker's counters is not modelled; integers are unbounded. Other panics follow debug builds.
- The tracker's `percentage`, its kb/s rate and the mb/s switch are f32 arithmetic and printing, and are not modelled; the window test `elapsed > 1.0` second is modelled as more than 1000 milliseconds.
- Tracker.ProgressTracker.Update: requires that `now` is not earlier than the latest time the tracker has seen, because `Instant` is monotonic; time is a parameter rather than a clock.
- Rendering (`impl Widget … render`), the `run` loops, tokio tasks, channels and terminal setup are left out; a launched task is an entry in a ghost log and a returned message is a call of `HandleMessages`.
- The nested `RwLock` read guards taken in the Enter handler (src/tui/app.rs:175, 182, 194) are not modelled; the shared state is plain fields.
- `check_downloaded`, the `exists`/`File::create` in `get_file`, `getter::get_links` and `getter::download` are filesystem and HTTP calls; the scan and the fetch outcome are parameters.
- RemotePanel.PushPath: only Unix path semantics; Windows prefixes and separators are not modelled.
- BlenderUtils.IntoValues: the iteration order of a `HashMap` is unspecified, so the values are collected in an arbitrary order and only their multiset is specified.
- The configuration file (`src/config.rs`) is not part of this model; `Config` is a value passed in.
- `src/tui/app.rs` declares `mod file_list; mod remote;`, which names the earlier copies; but it calls `set_available`, `set_message`, `select_mode` and `download_selected` on its remote panel, which only `src/tui/app/widgets/remote.rs` has, so the model pairs it with the copies under `src/tui/app/widgets/`. The two local panels (`src/tui/app/file_list.rs` and `src/tui/app/widgets/files/mod.rs`) behave alike; they differ in the element type of the list and in whether `refresh_local` is public.
- `src/tui/app/widgets/files/mod.rs` declares `files: Vec<LocalBlenderVersion>` but assigns it the `Vec<BlenderVersion>` of `parse_downloaded`; the model uses build descriptors.
- The earlier application builds its remote panel with `RemoteWidget::new(config)` (src/tui/app/mod.rs:53-72) but calls `set_available`/`set_message`, which only the current remote panel has; the model uses the current panel and keeps the configuration in the application.
- `blender_utils::select` (HTML scraping) and the separate scraper binary are not part of this model.
