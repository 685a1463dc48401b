# harnas-monitor, modelled in Dafny

`harnas-monitor` is a read-only terminal dashboard for a `TASKS.toml` task list. It
loads the file and computes statistics over the tasks: totals, done, per-status,
per-priority and per-component histograms, tasks blocked by unfinished dependencies,
and dependency ids that name no task. It shows the tasks in a table with a details
pane and a footer summary. It reloads when the file changes, chiming when the content
hash differs from the previous load. A handful of keys move the selection, scroll the
details pane, toggle a help overlay, request a reload or quit.

This model covers `tasks.rs`, `ui.rs` and `main.rs` of `harnas-monitor`.

Files, one module each:

- `prelude.dfy` (`Prelude`): `Option`, `Result` and the `u16` range.
- `text.dfy` (`Text`): the standard-library string operations the code relies on.
  These are `str::trim` (Unicode White_Space), `to_lowercase` (ASCII letters),
  one-character `replace`, decimal rendering and `join`. It also holds the model's own
  readers, which the source does not have: `ParseDecimal` and `LastIndexOf`. These,
  with `Ui.ParseEntry`, read rendered text back so that round trips can be stated.
- `sorted_counts.dfy` (`SortedCounts`): `BTreeMap<String, usize>`, written as a
  sequence of entries in strictly ascending key order. `Bump` is
  `*map.entry(k).or_insert(0) += 1`.
- `tasks.rs` is modelled in `tasks.dfy` (`Tasks`). The task records are datatypes.
  `compute_stats` and `fnv1a_64` are methods with loops. Each is proved equal to a
  reference function (`StatsOf`, `Fnv1a`), and the promised properties are lemmas
  about those functions.
- `ui.rs` is modelled in `ui.dfy` (`Ui`). `ViewState` is a class. The table selection,
  the offset rule, the waiting-on column, the details pane, `truncate` and
  `summarize_map` are modelled with their exact output shapes.
- `main.rs` is modelled in `app.dfy` (`App`). `handle_key` is a method over the
  `ViewState` object, specified by the transition function `NextView`. The loop state
  of `run` is the class `Monitor`. Its methods are a reload, the watcher drain, the
  auto-refresh request and a key press. They keep the invariant that the selection is
  0 or a valid row.

Inputs from outside the program are parameters:

- the file contents as bytes, and the TOML parse result;
- the watcher messages, as a sequence;
- whether the refresh timer has come due;
- the key code;
- the terminal height.

The bell is the `chime` result of `Monitor.FinishReload`.

One difference between the table and the statistics is worth knowing; it is modelled
as written. The table shows a priority or component lower-cased but not trimmed, so a
blank value stays blank (`ui.rs:252-261`). The statistics trim the value first and
count a blank one under `"unknown"` (`tasks.rs:120-138`). `Ui.TableLabelMatchesStats`
proves that the two agree exactly when the value is absent, or non-blank and already
trimmed. In every other case they differ.

## Model

| member | source | states |
|---|---|---|
| Tasks.NormalizeStatus | harnas-monitor/src/tasks.rs:87-89 | the canonical status has no whitespace at either end, no upper-case letter and no `-` |
| Tasks.NormalizeStatusIdempotent | harnas-monitor/src/tasks.rs:87-89 | normalising a normalised status changes nothing |
| Tasks.StatusOfCanonical | harnas-monitor/src/tasks.rs:97-101 | the status a task is counted and compared under is `"unknown"` when absent and the normalised status otherwise; either way it is trimmed, has no upper-case letter or `-`, and normalising it again changes nothing (the same expression at tasks.rs:109-113 and ui.rs:238-242, 247-251) |
| Tasks.LabelOrUnknown | harnas-monitor/src/tasks.rs:120-138 | the histogram key of a priority or component is never empty, has no whitespace at either end and no upper-case letter |
| Tasks.StatsOf | harnas-monitor/src/tasks.rs:93 | `total` is the number of tasks |
| Tasks.BuildStatusById | harnas-monitor/src/tasks.rs:95-103 | the status-by-id map built by the insert loop is the reference map, in which a later task with the same id overrides an earlier one |
| Tasks.StatusMapKeys | harnas-monitor/src/tasks.rs:95-105 | the status map has exactly the task ids as keys, the same set as `all_ids` |
| Tasks.StatusMapLast | harnas-monitor/src/tasks.rs:95-103 | an id maps to the normalised status of the last task carrying that id |
| Tasks.ScanDeps | harnas-monitor/src/tasks.rs:140-151 | the dependency loop sets `blocked` iff some dependency is a known id whose status is not `"done"`, and adds exactly the unknown dependency ids to `missing_deps` |
| Tasks.CountTask | harnas-monitor/src/tasks.rs:108-155 | one iteration of the main loop takes the statistics of the first i tasks to those of the first i+1, and likewise the missing-id set |
| Tasks.ComputeStats | harnas-monitor/src/tasks.rs:91-159 | the computed statistics equal the reference `StatsOf` of the task file |
| SortedCounts.BumpSpec | harnas-monitor/src/tasks.rs:114 | counting a key keeps the map ordered and adds the key; its count rises by one, the other counts stay, and the total rises by one |
| Tasks.TallySpec | harnas-monitor/src/tasks.rs:114-138 | each histogram is ordered, its counts sum to the number of tasks, and each key's count is the number of tasks with that key |
| Tasks.StatsSumsToTotal | harnas-monitor/src/tasks.rs:114-138 | the per-status, per-priority and per-component counts each sum to `total` |
| Tasks.CountKeyBounded | harnas-monitor/src/tasks.rs:114-138 | no histogram count exceeds the number of tasks |
| Tasks.CountKeyPresent | harnas-monitor/src/tasks.rs:114-138 | every task's key has a count of at least one |
| Tasks.StatsKeys | harnas-monitor/src/tasks.rs:97-101 | an absent status is counted under `"unknown"`, a present one under its normalised form; an absent or blank priority or component is counted under `"unknown"`, otherwise under its trimmed lower-case form (lines 120-138) |
| Tasks.StatsDone | harnas-monitor/src/tasks.rs:114-118 | `done` is the count under `"done"` in the status histogram, and `done <= total` |
| Tasks.BlockedNotDone | harnas-monitor/src/tasks.rs:152-154 | blocked tasks and done tasks are disjoint, so together they number at most the tasks |
| Tasks.StatsBlockedBound | harnas-monitor/src/tasks.rs:140-155 | `blocked_by_deps <= total - done` |
| Tasks.BlockedMeaning | harnas-monitor/src/tasks.rs:140-154 | a task is blocked iff it is not done and some dependency names a task whose last status is not `"done"`; a dependency naming no task never blocks |
| Tasks.DepsMeaning | harnas-monitor/src/tasks.rs:141-144 | a dependency id is collected iff some task lists it |
| Tasks.StatsMissingDeps | harnas-monitor/src/tasks.rs:157 | `missing_deps` is the number of distinct dependency ids, over all tasks, that are no task's id (collected at lines 105-106, 141-144) |
| Tasks.Fnv1aAppend | harnas-monitor/src/tasks.rs:161-170 | the hash of `s + [b]` is `(hash(s) xor b) * 0x100000001b3` modulo 2^64 |
| Tasks.Fnv1aVectors | harnas-monitor/src/tasks.rs:161-170 | the empty input hashes to the offset basis `0xcbf29ce484222325`, and the 64-bit FNV-1a test vectors for "a" and "foobar" hold |
| Tasks.Fnv1a64 | harnas-monitor/src/tasks.rs:161-170 | the xor-and-multiply loop computes the FNV-1a hash of the whole input |
| Tasks.LoadTasks | harnas-monitor/src/tasks.rs:64-85 | a load succeeds iff the TOML parse does; it records the content hash, the parsed file and its statistics; a parse error becomes `"parsing TOML: "` followed by the message |
| Ui.ViewState.constructor | harnas-monitor/src/main.rs:54-58 | the view starts at row 0, scroll 0, no overlay |
| Ui.ClampSelection | harnas-monitor/src/ui.rs:322-324 | with at least one row, `min(selected, len - 1)` is a valid row, equal to `selected` when that is already valid and the last row otherwise |
| Ui.ViewportRows | harnas-monitor/src/ui.rs:328-331 | the table viewport is the area height less two border rows and a header row, and never negative |
| Ui.ComputeTableOffset | harnas-monitor/src/ui.rs:338-346 | the offset is 0 when the viewport is empty or all rows fit; it never scrolls past the last full page; the selected row is always inside the viewport; and it sits at the middle whenever rows exist on both sides |
| Ui.TableSelection | harnas-monitor/src/ui.rs:321-334 | a table with rows selects a valid row, which is the requested one when that is valid and is always visible; an empty table selects nothing at offset 0 |
| Ui.WaitingOn | harnas-monitor/src/ui.rs:263-267 | the waiting-on count is at most the number of dependencies |
| Ui.WaitingOnCounts | harnas-monitor/src/ui.rs:263-267 | the waiting-on count is the number of dependency positions whose id has a status other than `"done"` |
| Ui.WaitingOnZero | harnas-monitor/src/ui.rs:263-267 | the count is 0 iff no dependency names a task that is not done |
| Ui.MissingDepNeverWaits | harnas-monitor/src/ui.rs:236-244 | a dependency naming no task contributes nothing to the count (the map is filled by the loop at lines 236-244) |
| Ui.BlockedIffWaiting | harnas-monitor/src/ui.rs:263-267 | a task counts as blocked in the statistics iff it is not done and its waiting-on count is positive |
| Ui.WaitingCell | harnas-monitor/src/ui.rs:268-274 | the cell is `-` iff there are no dependencies, and otherwise a string of digits that reads back as the waiting-on count |
| Ui.WaitingCellIsDecimal | harnas-monitor/src/ui.rs:268-274 | with dependencies, the cell is exactly the decimal rendering `to_string()` of the count, so it has no leading zero |
| Ui.TableLabel | harnas-monitor/src/ui.rs:252-261 | an absent priority or component shows as `"unknown"`; a present one keeps its length and has no upper-case letter |
| Ui.TableLabelLowercases | harnas-monitor/src/ui.rs:252-261 | a present priority or component is lower-cased character for character: each ASCII capital becomes its small letter and every other character is kept |
| Ui.TableLabelMatchesStats | harnas-monitor/src/ui.rs:252-261 | the table cell equals the statistics key iff the value is absent, or non-blank with no whitespace at either end |
| Ui.TableRows | harnas-monitor/src/ui.rs:236-295 | one row per task, in order, each `RowOf` the task, holding the id, the normalised status, the waiting cell computed against the status map of all tasks, and the priority and component cells |
| Ui.DetailsPane | harnas-monitor/src/ui.rs:362-381 | no data before the first load, "no tasks" for an empty list, and otherwise the task at `min(selected_idx, len - 1)`: the selected row when it is valid and the last row when it is past the end (line 380) |
| Ui.DetailsFollowTable | harnas-monitor/src/ui.rs:380 | the details pane shows the very row the table selects |
| Ui.Truncate | harnas-monitor/src/ui.rs:576-592 | the output has at most `max` characters; a string that fits is returned unchanged; a longer one becomes its first `max - 1` characters followed by `…`, exactly `max` characters in all; `max = 0` gives the empty string |
| Ui.EntryTexts | harnas-monitor/src/ui.rs:595 | one `key:count` part per map entry, in map order, each of which reads back as its entry |
| Ui.EntryTextRoundTrip | harnas-monitor/src/ui.rs:595 | splitting a part at its last `:` gives back the key and the count |
| Ui.OverflowMarkerIsNoEntry | harnas-monitor/src/ui.rs:599 | the `+N` marker can never be read as an entry |
| Ui.SummaryAscending | harnas-monitor/src/ui.rs:595 | the parts appear in strictly ascending key order |
| Ui.SummarizeMap | harnas-monitor/src/ui.rs:594-602 | within the cap, every part is joined by two spaces; over it, the first `max_items` parts are followed by `+` and the number left out |
| Ui.SaturatingSub | harnas-monitor/src/main.rs:197 | `usize::saturating_sub`: the difference when it is not negative, and 0 otherwise (also ui.rs:343 and main.rs:207) |
| App.TaskCount | harnas-monitor/src/main.rs:201 | the number of loaded tasks, 0 before the first successful load (also line 218) |
| App.NextView | harnas-monitor/src/main.rs:184-224 | no key moves the selection past both its old row and the last row; only `?` changes the overlay, and it leaves the selection and scroll alone; only the navigation and paging keys change the scroll |
| App.SaturatingAddU16 | harnas-monitor/src/main.rs:209 | `u16::saturating_add`: the sum, or 65535 when it would exceed the range |
| App.HandleKey | harnas-monitor/src/main.rs:178-231 | the view after a key is `NextView` of the view before; the handler quits iff the key is `q`; a reload is requested afterwards iff one already was or the key is `r` |
| App.KeyKeepsSelectionInRange | harnas-monitor/src/main.rs:195-222 | no key moves the selection off row 0 or a valid row, and a valid selection stays valid |
| App.HelpToggles | harnas-monitor/src/main.rs:186-191 | `?` opens the help iff it was closed, changes nothing else, and pressed twice restores the view |
| App.NavigationResetsScroll | harnas-monitor/src/main.rs:195-222 | Up, Down, Home and End reset the details scroll to 0 and leave the overlay alone |
| App.DownThenUp | harnas-monitor/src/main.rs:195-205 | Down then Up returns to the starting row when Down did not stop at the last row |
| App.UpThenDown | harnas-monitor/src/main.rs:195-205 | Up then Down returns to the starting row when Up did not stop at row 0 |
| App.SelectionEnds | harnas-monitor/src/main.rs:195-222 | Up gives `max(sel - 1, 0)`; Down with tasks gives `min(sel + 1, n - 1)`; Home gives 0; End goes to the last row; with no tasks, Down and End keep the selection |
| App.PagingOnlyScrolls | harnas-monitor/src/main.rs:206-211 | PageUp and PageDown change only the scroll, by a saturating 4 within 0..65535, and PageDown then PageUp is undone within range |
| App.OtherKeysChangeNothing | harnas-monitor/src/main.rs:223 | `q`, `r` and every other unlisted key leave the view unchanged (lines 185, 192-194) |
| App.LastWatchError | harnas-monitor/src/main.rs:159-176 | after a batch of watcher messages, an error line is left iff some message was an error, and it is one of those errors |
| App.LastWatchErrorIsLast | harnas-monitor/src/main.rs:159-176 | the error line left after a batch is the one of the last error in it |
| App.ReloadSelection | harnas-monitor/src/main.rs:93-100 | after a load the selection is 0 or a valid row; a valid one is kept and an out-of-range one moves to the last row |
| App.Monitor.constructor | harnas-monitor/src/main.rs:54-64 | nothing loaded, no error, no previous hash, and a reload requested straight away |
| App.Monitor.FinishReload | harnas-monitor/src/main.rs:79-105 | a due reload clears the request. On success it stores the snapshot, clears the error, records the hash, re-clamps the selection, and chimes iff a previous hash exists and differs. On failure it records the error and keeps the rest. The selection invariant is preserved |
| App.Monitor.DrainWatcher | harnas-monitor/src/main.rs:159-176 | a reload is requested iff one was or some message reports a change; the error line becomes the last watcher error, if there was one; the selection invariant is kept |
| App.Monitor.AutoRefresh | harnas-monitor/src/main.rs:75-77 | a reload is requested iff one was or the refresh is due; the selection invariant is kept |
| App.Monitor.Key | harnas-monitor/src/main.rs:118-129 | a key press applies `handle_key` to the loop's view and reload request, preserves the selection invariant, and quits iff the key is `q` |

## Left out

- Rendering is left out: `draw`, the header, body, footer and help overlay, `centered_rect` and the theme. This includes the status colours, the title cell `truncate(&t.title, 70)`, the details text, and the footer's placement of the status summary. Only the values these parts compute are modelled.
- Terminal raw mode, the alternate screen and `restore_terminal` are I/O. `chime` writes the bell to stdout; the model returns whether to ring it.
- The `notify` watcher thread and the `mpsc` channel are concurrency and foreign code. `drain_watcher` is modelled on the sequence of pending messages. The watcher's error text is kept abstract as a string.
- Time is left out. The debounce, the 60-second auto-refresh interval, the tick rate and event polling use the clock. The reload timestamp `Option<Instant>` is a "reload requested" flag. Whether the refresh or the debounce has come due is a parameter, or it is the caller's choice to call `FinishReload`.
- File and TOML I/O are left out: `read_to_string`, `toml::from_str`, `serde` and the file mtime. `LoadTasks` takes the bytes read and the parse result. It leaves out the path, `file_mtime` and `loaded_at`. The read error `"reading <path>"` is not modelled, because the path and the file system are outside the model.
- Floating point is left out: the progress ratio in the header and the `estimate_days` field; the latter is kept as an abstract `real` and never computed on.
- Lowercasing is ASCII only. `str::to_lowercase` also folds non-ASCII letters; the model leaves every other character unchanged. `str::trim` uses the exact Unicode White_Space set.
- Rust's `usize` is unbounded in the model. No count in the core can overflow for a list that fits in memory. `selected_idx + 1` cannot overflow either, since the selection is below the task count.
- The result of `handle_key` is always `Ok`, so the model returns a plain boolean.
- Only key presses reach the handler; key-release events are filtered out before it is called (main.rs:120), so the model receives only presses.
- `KeyCode` lists only the keys the handler tells apart. Every other crossterm key code is `Other`.
- `parse_args`, `main` and the default file path are left out as process setup.
