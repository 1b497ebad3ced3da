# desc-wfmon core, modelled in Dafny

This project models the data-processing core of desc-wfmon, a set of Python
tools for the workflow monitoring that parsl writes.

- **The monitoring-database reader** (`MonDbReader` in `desc/wfmon/mondb.py`).
  The reader's state is an immutable `Session`. Each method is a function from
  a session to its next session plus a `Result`. The methods are:
  - `fix_runs`: run ids become run indices, and rows of unknown runs are dropped;
  - `fix_workflows`: workflow names become indices;
  - `fix_times`: times move to the first workflow's start, and missing end times are filled in;
  - `fix_tasks`: task function names become task indices, and those indices are propagated to the other tables;
  - `taskproc`: the per-task trajectory table, with its offset search and counter deltas;
  - `build_procsum`: samples are binned by the monitoring interval;
  - `fix`: the other steps in sequence;
  - `workflow_time_range`;
  - `taskcounts`: per-state task-try counts on a time grid.

  A raised exception is an `Err` outcome that carries the state at the point of
  the raise.
- **The perf-stat log reader** (`PerfStatLogReader` in `desc/wfmon/perfstat.py`).
  `read` scans the log lines after the "Performance counter stats for" flag.
  It merges the metrics it finds into the caller's dictionary and extends every
  column by one value, padding with `None`. `table` returns the columns as a
  frame once at least one value has been read.
- **The function-data loader** (`FunctionData` in `desc/wfmon/fundata.py`).
  - The task id is taken from each log file's directory name.
  - `<time> <name>` lines become one row per file.
  - The rows go into a frame whose columns are the first good file's keys.
- **The system reporter** (`desc/sysmon/reporter.py`).
  - The `Params` record, with its defaults and `update`.
  - The CSV header.
  - The step that turns one poll of the psutil counters into a row of changes since the previous poll.

Files, one module each:

| file | contents |
|---|---|
| `wrappers.dfy` | `Option`, `Result` |
| `pymath.dfy` | Python `int()` truncation and `%` on floats |
| `seqs.dfy` | order-preserving de-duplication, index lookup, counts, ordered dictionaries |
| `text.dfy` | the string built-ins the core uses: `split`, `strip`, `lower`, `int`, path basename and dirname, sorting |
| `sorting.dfy` | a stable sort by a real key, used for `sort_values` |
| `tables.dfy` | the typed rows of the monitoring tables |
| `runs.dfy` | the run-id and workflow-name indexing of `fix_runs` and `fix_workflows` |
| `times.dfy` | time shifting and end-time filling of `fix_times` |
| `tasks.dfy` | the task-table scan of `fix_tasks` and the task-index propagation |
| `trajectory.dfy` | `taskproc`'s sample selection, offset search, clock and delta columns |
| `deltas.dfy` | first differences and their prefix-sum inverse |
| `binning.dfy` | the procsum binning, as written and corrected |
| `taskcounts.dfy` | the task-count tables |
| `mondb.dfy` | the reader's state and methods |
| `perfstat.dfy` | `PerfStatLogReader` |
| `fundata.dfy` | `FunctionData` |
| `reporter.dfy` | the reporter's `Params`, header and polling step |

Outside effects are parameters.
- The SQLite tables are a `Db` value.
- The files that `glob` finds and their contents are a sequence of paths and a function from path to lines.
- psutil readings are `Reading` values.

## Model

| member | source | states |
|---|---|---|
| MonDb.OpenValid | desc/wfmon/mondb.py:31-50 | a freshly constructed reader, with nothing fixed, satisfies the reader invariant that every fix step preserves |
| MonDb.FixRuns | desc/wfmon/mondb.py:159-194 | already fixed returns at once and changes nothing. Otherwise an empty task table raises and leaves the reader unchanged. On success: the run ids are the task table's run ids in first-seen order; the tables are re-keyed by run index; the removed-row counts grow by the dropped rows; "runs" is appended; nothing else changes |
| MonDb.FixRunsValidIdempotent | desc/wfmon/mondb.py:163-165 | `fix_runs` keeps the reader invariant, and a second call after a successful one is a no-op |
| Runs.ResolveRuns | desc/wfmon/mondb.py:174-191 | fails exactly when the task table has no run id. On success the run ids are the distinct task-table run ids, and every table is resolved against them |
| Runs.ResolveRows | desc/wfmon/mondb.py:180-191 | every resolved row carries a run index below the run count. Mapping the indices back gives exactly the rows whose run id is known, and the dropped rows are counted |
| Runs.ResolveRunsBijective | desc/wfmon/mondb.py:174-179 | the run ids are duplicate-free and hold every task row's run id. Each id's index is its position. Resolving the task table loses no row and can be undone exactly |
| Seqs.DistinctFirstSeenOrder | desc/wfmon/mondb.py:174 | de-duplication keeps first-seen order: earlier distinct values first appear earlier in the input |
| Runs.IndexWorkflows | desc/wfmon/mondb.py:203-211 | the name list grows by the names not yet known, in order. Each row's new index names that row's workflow, and the row is otherwise unchanged |
| Runs.IndexWorkflowsFresh | desc/wfmon/mondb.py:205-209 | starting from no names, every row gets an index, and the names are distinct and in first-seen order |
| MonDb.FixWorkflows | desc/wfmon/mondb.py:196-216 | never fails; is a no-op once fixed. Otherwise it extends the workflow names by the workflow table's names and appends "workflows" |
| MonDb.FixWorkflowsValidIdempotent | desc/wfmon/mondb.py:200-202 | `fix_workflows` keeps the reader invariant and a second call is a no-op |
| Times.ShiftDb | desc/wfmon/mondb.py:228-234 | every column named `time…`, `task_time…` or `task_try_time…` moves by `-t0`: the workflow start and end, the task and try times, the status and resource timestamps. A null task or try time stays null. A null workflow end stays null only when every end is null, and is NaN otherwise. Keys, row order and all other columns are unchanged |
| Times.ShiftedNullsOnlyWhenAllNull | desc/wfmon/mondb.py:234 | pandas keeps an all-null end column as `None`s and otherwise stores floats: after the shift an end is null only when every end was null |
| Times.EndOf | desc/wfmon/mondb.py:243-249 | only an end that `is None` is filled; a recorded end and a NaN end are kept. A null last end becomes the latest resource timestamp, failing when there is none. A null earlier end becomes the latest timestamp before the next workflow's start, failing when there is none |
| Times.FillEnds | desc/wfmon/mondb.py:241-255 | the loop stops at the first end that cannot be recovered. Every workflow before it gets its end (filled or kept) and the range `(began, end)`; later rows are untouched |
| Times.FillEndsGap | desc/wfmon/mondb.py:241-255 | the loop stops exactly when some workflow's end cannot be recovered |
| Times.AllNullRecovered | desc/wfmon/mondb.py:243-249 | when every end is null and the loop completes, each end is the latest timestamp before the next range starts, or the latest of all for the last range |
| Times.NoneNull | desc/wfmon/mondb.py:241-255 | with no null end, nothing is filled and nothing fails; each range is the row's own start and end, a NaN end included |
| Times.MixedEndsNotFilled | desc/wfmon/mondb.py:228-255 | once some end is recorded, a missing end is NaN after the shift, is not filled, and its range is `(start, NaN)` |
| MonDb.ShiftAndFill | desc/wfmon/mondb.py:227-257 | with no workflow it raises and changes nothing. Otherwise `t0` is workflow 0's start, the non-workflow tables are shifted, and ranges and memo slots are appended. It succeeds, appending "times", exactly when a range was recorded for every workflow; otherwise it raises having recorded fewer, with `fixed` unchanged |
| MonDb.FixTimes | desc/wfmon/mondb.py:218-257 | a no-op once "times" is fixed. After a call that raised midway it raises again, since the first start is no longer a time string. On a resolved reader not yet shifted, it succeeds exactly when the workflow table is non-empty and every range is recorded, and then appends "times"; the columns are shifted whenever there is a workflow |
| MonDb.FixTimesRanges | desc/wfmon/mondb.py:227-257 | after a successful first `fix_times`, `t0` is workflow 0's start, which becomes 0, and there is one range per workflow. A recorded end moves with its start; a NaN end stays NaN; a null end is NaN when some other end is recorded and a number when none is. The table row is written back to hold its range |
| MonDb.FixTimesRecoversEnds | desc/wfmon/mondb.py:241-257 | when no end is recorded, `fix_times` raises exactly when some end has no timestamp to take. Otherwise each end is the latest shifted resource timestamp before the next workflow's start, or the latest of all |
| MonDb.FixTimesValidIdempotent | desc/wfmon/mondb.py:221-223 | `fix_times` keeps the reader invariant and a second call after a successful one is a no-op |
| Tasks.TaskScanCorrect | desc/wfmon/mondb.py:274-300 | the task loop's assertions all hold exactly when each run's task ids count up from 0 in row order. Then: the task names are the distinct function names in first-seen order; the per-name counts sum to the row count; each row's task index names its function; each run's index list maps task id to task index |
| Tasks.StepShape | desc/wfmon/mondb.py:282-300 | one loop iteration passes its assertions exactly when the expected task id matches the row, and then adds the row's name, count, index and log |
| Tasks.AddName | desc/wfmon/mondb.py:288-296 | the name list stays duplicate-free and extends the old one. The returned index names the function |
| Tasks.LookupIdx | desc/wfmon/mondb.py:317 | `task_index[run_idx][task_id]` succeeds exactly for an existing run and an in-range (Python, possibly negative) task id |
| Tasks.AddTaskIdx | desc/wfmon/mondb.py:307-319 | propagation fails exactly when some row's lookup fails; otherwise each row gets its looked-up task index and is otherwise unchanged |
| Tasks.PropagatedNames | desc/wfmon/mondb.py:307-319 | after a successful scan, a row with a valid run and task id gets the index whose name is the function of the task row with that run and id |
| MonDb.FixTasksOnOpen | desc/wfmon/mondb.py:259-323 | on a freshly opened reader, `fix_tasks` fixes runs first. It raises when the task ids are not consecutive per run. On success it yields the distinct function names, counts summing to the task-row count, "runs" and "tasks" recorded, and every task row indexed to its function's name |
| MonDb.FixTasksValidIdempotent | desc/wfmon/mondb.py:269-271 | `fix_tasks` keeps the reader invariant and a second call after a successful one is a no-op |
| Trajectory.Samples | desc/wfmon/mondb.py:379-382 | the selected samples are exactly the resource rows of the run and task, as a multiset, sorted by timestamp |
| Trajectory.FindOffset | desc/wfmon/mondb.py:398-408 | with at most two samples the offset is 0. The search fails to end exactly when there are more than two samples and the interval lies in [-2, 0] |
| Trajectory.FindOffsetFirstAligned | desc/wfmon/mondb.py:398-408 | with a positive interval the search returns the first candidate offset, in steps of `min(1, dt/10)`, whose binned timestamps jump by less than `dt/2`. If it passes `dt/2 + 1` first, it gives up with offset 0 and every examined candidate failed |
| Trajectory.FindOffsetBounds | desc/wfmon/mondb.py:398-408 | the offset found lies in `[0, dt/2 + 1 + step]` |
| Trajectory.RunningTime | desc/wfmon/mondb.py:410-412 | with exactly one try row for the run and task, `squeeze()` gives that row's running time |
| Trajectory.SinceRunning | desc/wfmon/mondb.py:410-413 | with one try row, every sample's clock is its timestamp minus that running time. Otherwise the series is aligned by label: sample `k` uses try row `k` when that row belongs to the task and has a running time, and is NaN otherwise |
| Trajectory.RetryClockByLabel | desc/wfmon/mondb.py:410-413 | a task tried twice, its tries being try rows 0 and 1, with three samples: the clocks are `ts0 - running0`, `ts1 - running1` and NaN |
| Trajectory.TaskProc | desc/wfmon/mondb.py:376-437 | fails exactly when there is no sample, the intervals differ, or the offset search cannot end. No sample is its own error. Otherwise there is one row per sorted sample, keeping its keys and process columns, with `toff`, `nsam` and `isam` set. The clock is the label-aligned time since running, or its deltas. The counters are raw, or their first differences with the first row kept |
| Trajectory.DeltaTableSumsToPlain | desc/wfmon/mondb.py:415-426 | the delta table exists exactly when the plain one does. The prefix sums of any delta counter column give back the plain column |
| Trajectory.ClockDeltasSumToClock | desc/wfmon/mondb.py:413-423 | when every sample has a clock, every delta clock is a number and their prefix sums give back the plain clock |
| Differences.OptDeltas | desc/wfmon/mondb.py:421-423 | `diff()` with the first row kept on a column with NaN: a difference is a number exactly when both its entries are |
| Differences.OptDeltasRoundTrip | desc/wfmon/mondb.py:421-423 | on a column without NaN, `diff()` is the plain difference and prefix sums invert it |
| Differences.DeltasRoundTrip | desc/wfmon/mondb.py:419-420 | `diff()` with the first row kept is inverted by prefix sums |
| Differences.CounterDeltasRoundTrip | desc/wfmon/mondb.py:419-420 | per counter column, prefix sums of the row-wise deltas give back the column |
| MonDb.MemoLookup | desc/wfmon/mondb.py:332-333 | the memo check fails only for a run index below `-len`. A run past the end, or a task not cached, is a miss; a cached task returns its table |
| MonDb.BuildTaskProc | desc/wfmon/mondb.py:383-437 | leaves the fixed stages, ranges, tables and saved procsums alone. A built table is stored under its run and task. On a resolved reader it reports "no samples" as `None`, and the interval and offset-loop failures as those errors. As written the warning count stays; the corrected update adds one exactly when the offset search gave up |
| MonDb.TaskProcAtMemo | desc/wfmon/mondb.py:332-333 | a second `taskproc` call for a task that was built returns the stored table and changes nothing |
| MonDb.NegativeRunMisses | desc/wfmon/mondb.py:342-344 | a negative run index passes the range check and finds no resource row, so the result is `None` and nothing changes |
| MonDb.TaskProcAtBuilds | desc/wfmon/mondb.py:332-344 | on a fixed reader, a run in range and a task not yet cached, `taskproc` builds |
| MonDb.TaskProcAtKeeps | desc/wfmon/mondb.py:325-437 | once tasks and times are fixed, `taskproc` leaves the fixed stages, the time ranges, the tables and the saved procsums unchanged |
| MonDb.BuildTable | desc/wfmon/mondb.py:383-437 | the build as written: the warning count never changes; a table is returned only when the task has samples and its trajectory was built, and it is then stored under its run and task |
| MonDb.NoOffsetWarningsLost | desc/wfmon/mondb.py:400-405 | see Findings: as written `taskproc` returns and stores the same table as the corrected update but leaves the warning count unchanged; the corrected update adds one exactly when the search gave up |
| MonDb.RunTaskIds | desc/wfmon/mondb.py:491 | the task-id set of a run holds exactly the ids of that run's resource rows, each once |
| MonDb.Pairs | desc/wfmon/mondb.py:490-493 | the (run, task) pairs visited are exactly those with a resource row, for runs below the run count |
| MonDb.Collect | desc/wfmon/mondb.py:490-498 | the concatenated tables extend the accumulated ones |
| MonDb.CollectTables | desc/wfmon/mondb.py:490-498 | for distinct pairs, the concatenation is the accumulated rows followed by each pair's delta table in pair order, as memoised on the reader left behind. A pair without samples adds nothing |
| MonDb.CollectFrame | desc/wfmon/mondb.py:490-498 | the loop leaves the memo entry of any pair it does not visit as it was |
| MonDb.TaskProcAtFrame | desc/wfmon/mondb.py:325-437 | `taskproc` for one pair changes no other pair's memo entry. On success its own entry is the returned table, or absent when there are no samples |
| MonDb.StoreRows | desc/wfmon/mondb.py:436 | storing a table sets its (run, task id) entry of the chosen memo list and changes nothing else. A run index past the list raises. A negative index is also refused, where Python would count from the end; the build never stores under one, since no sample has a negative run |
| MonDb.BuildTableStores | desc/wfmon/mondb.py:334-437 | a build that returns a table stores it under its pair in the delta memo; a build that returns nothing or raises leaves the memo as it was |
| MonDb.BuildTaskProcFrame | desc/wfmon/mondb.py:334-437 | the build changes only its own pair's entry, and stores nothing when it returns nothing |
| MonDb.PairsNoDups | desc/wfmon/mondb.py:489-493 | the loop over runs and each run's task-id set visits every (run, task id) pair once |
| MonDb.BuildDelta | desc/wfmon/mondb.py:487-537 | the delta branch of `build_procsum` saves any table it builds as both `procsum` and the delta copy |
| MonDb.DeltaRowsAreMemoised | desc/wfmon/mondb.py:488-498 | the rows `pandas.concat(mrgdfs)` hands to the binning are the memoised delta tables of the visited pairs, run by run |
| MonDb.Bin | desc/wfmon/mondb.py:505-533 | binning succeeds exactly with samples and a non-zero interval. A negative interval gives `arange` at most one edge, so the stored table is empty. The table counts the samples inside `(first edge, last edge]` of the `arange` edges, never more than were given; every kept bin has a process; the table is stored as `procsum` and as the saved copy; `fixed` is unchanged |
| MonDb.BinIntended | desc/wfmon/mondb.py:505-533 | see Findings: the corrected binning counts every sample once and records "procsum" |
| MonDb.BuildProcsum | desc/wfmon/mondb.py:439-451 | a saved table is returned and becomes `procsum` without rebuilding. A built table is saved under its delta flag |
| MonDb.BuildProcsumPlain | desc/wfmon/mondb.py:480-505 | without deltas and with no time range the result is `None`. Otherwise the interval is the first resource row's; building succeeds exactly when there is a resource row with a non-zero interval. A negative interval stores an empty table; otherwise the bins count the resource rows inside the edge window; `fixed` is unchanged |
| MonDb.BuildProcsumPlainIntended | desc/wfmon/mondb.py:500-533 | see Findings: with the corrected binning the same table counts every resource row and records "procsum" |
| MonDb.BuildProcsumRecords | desc/wfmon/mondb.py:439-537 | as written a successful build leaves `fixed` unchanged; the corrected build records "procsum" once |
| MonDb.FixRecordsAllStages | desc/wfmon/mondb.py:539-545 | a successful `fix` of a freshly opened reader leaves `fixed` as runs, workflows, times, tasks as written, and equal to `allfixes` when corrected |
| MonDb.FixFromScratch | desc/wfmon/mondb.py:539-545 | the same, from any session in the just-opened state (nothing fixed or shifted, no run ids, task names or saved tables) |
| MonDb.ProcsumStageMissingAsWritten | desc/wfmon/mondb.py:539-545 | see Findings: as written the list after a successful `fix` lacks "procsum" and differs from `allfixes` |
| Binning.MakeRow | desc/wfmon/mondb.py:513-516 | a bin row's count is its sample count; `nproc` is the number of distinct pids; the run is the first sample's; each sum column is the column's sum |
| Binning.KeepNonEmpty | desc/wfmon/mondb.py:532 | the kept rows are exactly the rows with a process |
| Binning.CutIndex | desc/wfmon/mondb.py:509-510 | `pandas.cut` puts `t` in bin `b` exactly when `edge b < t <= edge b+1` for an existing bin, and otherwise outside every bin |
| Binning.CutTable | desc/wfmon/mondb.py:505-532 | a table exists exactly when there is a sample and the interval is not zero. With a negative interval it has no bin and no row |
| Binning.NegativeIntervalNoBins | desc/wfmon/mondb.py:507-510 | with a negative interval `int(max/dt + 1)` is at most one above `int(min/dt)`, so `arange` gives at most one edge and `cut` no bin |
| Binning.CutTableRows | desc/wfmon/mondb.py:507-532 | each as-written bin counts the samples of its right-closed window and is kept exactly when that count is positive |
| Binning.CutTableCounts | desc/wfmon/mondb.py:507-532 | the as-written table counts only the samples whose index lands inside the edge range |
| Binning.CutIndexInWindow | desc/wfmon/mondb.py:507-510 | a sample gets a bin exactly when it lies in `(first edge, last edge]` |
| Binning.CutCountIsWindow | desc/wfmon/mondb.py:507-510 | the samples binned are the samples in `(first edge, last edge]` |
| Binning.CutTableTotal | desc/wfmon/mondb.py:507-532 | the as-written table's total is the window count, at most the number of samples |
| Binning.CutTableLosesLastSample | desc/wfmon/mondb.py:507-510 | see Findings: samples at 5 and 15 with interval 10 give a table counting 1 sample |
| Binning.FloorTableConserves | desc/wfmon/mondb.py:507-532 | with the corrected left-closed bins from the earliest to the latest sample, the table counts every sample exactly once |
| MonDb.UnitSeconds | desc/wfmon/mondb.py:551-555 | the unit names accepted are exactly second, minute, hour and day, each at least one second |
| MonDb.WorkflowTimeRange | desc/wfmon/mondb.py:547-558 | an index past the end or an unknown unit gives `None`. It raises exactly for a negative index (pandas label lookup), before `fix_times` (the columns hold strings), or for a null end; otherwise the start and the end times the factor, a NaN end reported as missing |
| MonDb.WorkflowTimeRangeUnits | desc/wfmon/mondb.py:551-558 | a range in any unit, multiplied by that unit's seconds, is the range in seconds |
| MonDb.WorkflowTimeRangeAfterFixTimes | desc/wfmon/mondb.py:547-558 | after a successful `fix_times`, the range in seconds is the stored range, with a NaN end as missing |
| TaskCounts.Grid | desc/wfmon/mondb.py:578-583 | for any non-zero step, the grid holds `k*delt`, and its length is `int((t2-t1)/delt) + 1` when that is positive |
| TaskCounts.NegativeStepGrid | desc/wfmon/mondb.py:578-583 | a negative step is accepted: the grid with step `-d` is the grid with step `d` and the ends swapped, negated |
| TaskCounts.EqualEndsGrid | desc/wfmon/mondb.py:578-583 | equal ends give the one-row grid `[0]`, whatever the step's sign |
| TaskCounts.Build | desc/wfmon/mondb.py:573-600 | a zero step raises; a built table needs a range for every run, each with a numeric end, and valid tries |
| TaskCounts.FillIsReached | desc/wfmon/mondb.py:586-594 | a filled count is the number of tries of that task whose state time is before the grid time |
| TaskCounts.TotalsCountAll | desc/wfmon/mondb.py:595-599 | the `all` column is the number of tries of any task that reached the state |
| TaskCounts.ReachedMonotone | desc/wfmon/mondb.py:593-594 | counts never fall along the time grid |
| TaskCounts.BuildCounts | desc/wfmon/mondb.py:573-600 | because every run shares one dictionary, each state's table is on the last run's grid and counts the tries of every run |
| MonDb.StateNamed | desc/wfmon/mondb.py:569 | exactly launched, running and returned are states |
| MonDb.TaskCountsMemo | desc/wfmon/mondb.py:573-602 | once built, later calls with any in-range run index return the same table without rebuilding, whatever `delt` they pass |
| MonDb.TaskCountsCount | desc/wfmon/mondb.py:560-602 | a first call answers with the table of the shared dictionary, on the grid of the last workflow, whose end is a number; the counts are the tries that reached the state |
| MonDb.TaskCountsNaNEnd | desc/wfmon/mondb.py:573-580 | a last workflow whose end stayed NaN makes the rebuild raise at `int()` of the row count |
| PerfStat.Metric | desc/wfmon/perfstat.py:75-94 | two words give an integer metric named by the second; more give a float named by the later words joined by '-'; a value that does not parse raises |
| PerfStat.Step | desc/wfmon/perfstat.py:60-103 | words are split at Python's whitespace set, Unicode spaces included. Before the flag line, only the flag changes the scan. Once in the perf block it stays there. A failed parse stops everything |
| PerfStat.NothingBeforeFlag | desc/wfmon/perfstat.py:67-103 | lines without the flag, read before it, change nothing |
| PerfStat.ScanCountGrows | desc/wfmon/perfstat.py:95-101 | the metric count never falls, and with no metric counted the dictionary is unchanged |
| PerfStat.DoneOnlyInPerf | desc/wfmon/perfstat.py:79-80 | `done` is only set inside a perf block |
| PerfStat.AddRow | desc/wfmon/perfstat.py:106-124 | after a read with metrics every column has `nval+1` entries. Old columns keep their values, new ones are front-padded with `None`, and the last entry is the row's value or `None` |
| PerfStat.Read | desc/wfmon/perfstat.py:39-127 | the file count always grows by one. A parse error leaves the rest unchanged. With metrics the columns gain the merged row; without, `nmissing` grows and nothing else. The columns stay rectangular, and the caller's dictionary keeps every key it had |
| PerfStat.ScanKeepsKeys | desc/wfmon/perfstat.py:60-103 | parsing only sets keys, so no key leaves the dictionary |
| PerfStat.ReadFilesShared | desc/wfmon/perfstat.py:39-52 | reads that omit `indata` all merge into the one default dictionary, which only gains keys |
| PerfStat.SharedDefaultCarriesOver | desc/wfmon/perfstat.py:39-52 | a second such read still holds the first file's metrics, and a row it adds has a value for each of them |
| PerfStat.Table | desc/wfmon/perfstat.py:30-37 | no table before the first value; afterwards the frame of the current columns |
| PerfStat.ReadFiles | desc/wfmon/perfstat.py:39-127 | over many files the columns stay the same length, and each file counts as a value or a miss at most once |
| PerfStat.TableAfterReads | desc/wfmon/perfstat.py:30-37 | after any reads that found values, the table is the current rectangular columns |
| FunData.TaskIdOf | desc/wfmon/fundata.py:35-40 | a task id comes from the parent directory's name with leading zeros stripped |
| FunData.TaskIdOfPadded | desc/wfmon/fundata.py:35-38 | a zero-padded number as the parent directory name yields that number |
| FunData.TimeLine | desc/wfmon/fundata.py:45-48 | a line counts exactly when it has two words after right-stripping, splitting at Python's whitespace set; the name is the lower-cased second word |
| FunData.ParseLines | desc/wfmon/fundata.py:44-51 | fails exactly when some two-word line has a time that is not a float. Keys stay ordered and extend the initial ones; each new key comes from a line |
| FunData.LastLineWins | desc/wfmon/fundata.py:49 | a later line for the same name overwrites the earlier time |
| FunData.RowOf | desc/wfmon/fundata.py:30-53 | a file without a task id yields no row and reads no line. Otherwise it yields a row starting with `taskid`, or the float error |
| FunData.Aligned | desc/wfmon/fundata.py:60 | a row written into the frame holds each column's value from the file, or `None` |
| FunData.LoadPrefix | desc/wfmon/fundata.py:54-61 | fails exactly at a file that raises. The frame exists exactly when some file gave a row, and rows fill consecutively |
| FunData.ColumnsOfFirstRow | desc/wfmon/fundata.py:58-59 | the frame's columns are the first good file's keys |
| FunData.RowsConsecutive | desc/wfmon/fundata.py:60-61 | the `n`-th good file lands in row `n` |
| FunData.FunctionDataEmpty | desc/wfmon/fundata.py:23-61 | with no error, there is no frame exactly when no found path yields a task id |
| FunData.FunctionDataColumns | desc/wfmon/fundata.py:42-59 | the frame's first column is `taskid` |
| Text.WordsOfJoin | desc/wfmon/perfstat.py:75 | `split()` undoes a join of non-empty, space-free words with any whitespace character as separator |
| Text.WordsSplitsOnNoBreakSpace | desc/wfmon/fundata.py:45 | `split()` also splits at a no-break space: "1.5\u00a0name" gives two words |
| Text.SortStrings | desc/wfmon/fundata.py:26 | `sort()` yields a sorted permutation of the found paths |
| Reporter.ParamOfName | desc/sysmon/reporter.py:52-59 | every parameter's name is accepted by `update` and selects that parameter |
| Reporter.Set | desc/sysmon/reporter.py:52-59 | one assignment changes the named parameter and no other |
| Reporter.Defaults | desc/sysmon/reporter.py:31-48 | the defaults are `sysmon.csv`, 10, `none`, 0, '', 1, False, '' |
| Reporter.Update | desc/sysmon/reporter.py:49-60 | `update` raises exactly when some key is unknown. Without an error each parameter holds the last value given for it, or its old value |
| Reporter.UpdateStopsAtUnknown | desc/sysmon/reporter.py:50-60 | on an error, the keys before the first unknown one have been applied and the error names that key |
| Reporter.UpdateKeepsOthers | desc/sysmon/reporter.py:49-60 | a parameter no key names keeps its value, even when `update` raises |
| Reporter.KeysNameColumns | desc/sysmon/reporter.py:119-124 | the header keys name fifteen of the polled columns, all but the two disk read and write counts |
| Reporter.HeaderSplits | desc/sysmon/reporter.py:125-127 | the header is the keys joined by ','; splitting it on ',' gives them back |
| Reporter.SampleOf | desc/sysmon/reporter.py:156-187 | with a previous poll, every incremental column is the counter's change since then. Time, cpu count, percent and memory are read directly, memory in GiB; `mem_swapfree` is the virtual-memory record's free memory |
| Reporter.SampleOfIntended | desc/sysmon/reporter.py:156-187 | see Findings: the free swap comes from the swap record, and every other column is as in the as-written sample |
| Reporter.Poll | desc/sysmon/reporter.py:156-187 | a poll keeps the new counters; its changes are against the previous poll or, on the first poll, itself; its free-swap column is free memory |
| Reporter.PollIntended | desc/sysmon/reporter.py:156-187 | see Findings: the same pass with the free swap from the swap record |
| Reporter.FirstPollZero | desc/sysmon/reporter.py:162-186 | the first poll reports a zero change in every incremental column |
| Reporter.PollAll | desc/sysmon/reporter.py:149-187 | one row per poll, and the kept counters are the last poll's |
| Reporter.ColumnTelescopes | desc/sysmon/reporter.py:162-187 | the changes in any incremental column add up to the last poll's counter minus the first's |
| Reporter.SwapFreeAsWrittenReadsMemory | desc/sysmon/reporter.py:156-175 | see Findings: the as-written and corrected polls differ only in the free-swap column, and differ exactly when free memory differs from free swap |

## Left out

- SQLite access (`_connect`, `tables`, `table`, `table_names`), time-string parsing (`time_from_string`, `string_from_time`): the tables are an input value with times already in seconds.
- `fix_runs`' check that the task table and its `run_id` column exist: the typed tables always have them.
- `fix_workflows` dropping `workflow_version`: the typed workflow row has no such column.
- Pandas dataframe layout (column order, index columns, renamed column labels): tables are typed rows; only the values are modelled.
- Floating point: times and values are Dafny reals, so rounding and `inf` are not modelled; `numpy.arange` is taken to produce exact multiples. NaN is modelled only where a missing value meets arithmetic: workflow ends, the retry clock and its deltas, and the task-count grid.
- Workflow start times are taken to be recorded: a null `time_began` would become `0 - t0` through `time_from_string(None)`, and the model has no null start.
- `taskproc` with a single try row whose running time is null: `olddf['timestamp'] - t0` (mondb.py:412-413) raises a `TypeError`, because `squeeze()` gives `None`. `Trajectory.SinceRunning` gives a missing clock instead.
- TaskCounts.Grid: a negative row count with a non-empty sliced time column is reported as `NegativeRows`; pandas instead rebuilds the empty frame's index from the time column and the counts are NaN.
- `int()` on strings is modelled by `ParseInt`, which takes an optional sign and decimal digits only. Python also accepts surrounding whitespace and digit underscores. This affects `PerfStat.Step` (the metric value) and `FunData.TaskIdOf` (the directory name).
- `sort_values` uses quicksort, which is not stable: samples with equal timestamps may come out in any order. The model sorts stably.
- `float()` accepts only plain decimals with an optional sign and fraction; exponents, `nan`, `inf` and digit underscores are not modelled.
- `lower()` folds only ASCII letters: Unicode case folding is not modelled.
- `PerfStat.Read`: the values of the `indata` dictionary are modelled as integers and reals, the kinds the parser stores. Python accepts a dictionary of any values, and the file label joins their `str()` forms.
- `Reporter.SampleOf`: `virtual_memory()` is called twice per poll (reporter.py:157 and 158, read at 173-175). The model takes one snapshot for both, so the as-written free-swap column equals the free memory of that snapshot.
- `MonDb.BinIntended` and `MonDb.BuildProcsumPlainIntended` require a positive interval. The corrected binning is stated only for intervals above zero.
- Pandas `.loc` row assignment of a dictionary is modelled as aligning by column name: keys of later files that are not columns are dropped, and pandas' dtype handling is not modelled.
- Python `set` iteration order of task ids in `build_procsum`: the pairs are visited in first-seen order; only the multiset of rows matters for the bins.
- The `[{}]*nrun` aliasing in `taskcounts` is modelled by its effect, one table set shared by every run and built on the last run's grid; the pandas in-place writes through each alias are not modelled one by one.
- The perf-stat read's log label, line counts and all debug and warning prints; `dbg` levels everywhere.
- The reporter loop itself: output file handling, the signal handler, threads, the subprocess, `check`, `timeout`, the `.3f` formatting and the sleep; only the per-poll arithmetic is modelled.
- `Notify`, `reporter_from_string` and `main_reporter` in `desc/sysmon/reporter.py`: they parse and dispatch configuration, outside the modelled step.
- The node and block tables: no modelled method reads them.

## Findings

| source | as written | input that shows it | evidently intended | confidence | as-written member | corrected member |
|---|---|---|---|---|---|---|
| desc/wfmon/mondb.py:405 | `++self.nwarnNoOffset` is two unary pluses in Python, so the counter never changes | any task whose offset search gives up; the warning count at line 535 stays 0 | add one per failed offset search | high, not executed | MonDb.NoOffsetWarningsLost | MonDb.BuildTaskProc |
| desc/wfmon/mondb.py:439-537 | `build_procsum` never appends "procsum" to `fixed`, yet the module's tests expect it (lines 715, 722, 726) | a fresh reader after a successful `fix()`: `fixed` has four entries, not `allfixes` | record the "procsum" stage | high, not executed | MonDb.ProcsumStageMissingAsWritten | MonDb.FixRecordsAllStages |
| desc/wfmon/mondb.py:507-510 | `numpy.arange(t1, t2, dt)` stops one edge short and `pandas.cut` bins are right-closed, so samples after the last edge, or exactly on the first, fall outside every bin | samples at t=5 and t=15 with dt=10: edges [0, 10], one bin (0, 10], the sample at 15 is lost | every sample counted in the bin `[k*dt, (k+1)*dt)` holding it | medium, not executed | Binning.CutTableLosesLastSample | MonDb.BinIntended |
| desc/sysmon/reporter.py:156-175 | `swap = psutil.virtual_memory()`, so `mem_swapfree` reports free main memory | any machine whose free memory differs from its free swap | `psutil.swap_memory()` | high, not executed | Reporter.SwapFreeAsWrittenReadsMemory | Reporter.PollIntended |

The reader's methods take a `Variant`. `AsWritten` follows the code, and every stated property of the reader holds for it. `Intended` applies the corrections in this table.
