/** The monitoring-database reader as a value: its bookkeeping fields, the
    tables it holds, and each method as a function from the reader's state to
    its next state and a result. A raised exception is `Err`, and the state
    returned with it is the state at the point of the raise: whatever the
    method had already changed stays changed. */
module MonDb {
  import opened Wrappers
  import opened Seqs
  import opened Tables
  import opened Runs
  import opened Times
  import opened Tasks
  import opened Trajectory
  import opened Binning
  import opened TaskCounts

  /** The entries of the `fixed` list. */
  datatype Stage = RunsStage | WorkflowsStage | TimesStage | TasksStage | ProcsumStage

  /** Where the code and its evident intent differ, which of the two a
      method follows: `AsWritten` is the code, `Intended` the corrected
      behaviour described with each difference. */
  datatype Variant = AsWritten | Intended

  /** The tables before and after run ids are replaced by run indices. */
  datatype Store = Raw(raw: Db<string>) | Resolved(db: Db<nat>)

  datatype Fault =
    | NoRunIds            // the task table has no run id
    | NoWorkflow          // the workflow table has no row 0
    | NoEndTime           // `max()` of no resource timestamps
    | TaskIdMismatch      // an assertion of the task loop fails
    | BadIndex            // an `IndexError` or `KeyError`
    | Inconsistent        // monitoring intervals differ
    | OffsetLoop          // the offset search never ends
    | NothingToBin        // no samples, or a non-positive interval, for the procsum bins
    | CountFailure        // the task count tables cannot be built
    | NotResolved         // a method needs run indices before `fix_runs` has run
    | NotATimeString      // `time_from_string` given a number: `fix_times` again after it raised
    | NotArithmetic       // a unit factor times a time string or a null

  datatype Session = Session(
    store: Store,
    fixed: seq<Stage>,
    runIds: seq<string>,
    workflowNames: seq<string>,
    timeRanges: seq<TimeRange>,
    taskNames: seq<string>,
    taskNameCounts: seq<nat>,
    taskIndex: seq<seq<nat>>,
    taskLogs: seq<string>,
    removed: RemoveCounts,
    t0: real,
    timesShifted: bool,                       // the time columns hold seconds since `t0`
    monitoringInterval: Option<real>,
    procsPlain: seq<map<int, seq<TrajRow>>>,   // `taskprocs[0]`, one dictionary per run
    procsDelta: seq<map<int, seq<TrajRow>>>,   // `taskprocs[1]`
    procsum: Option<seq<BinRow>>,
    saved: map<bool, seq<BinRow>>,            // `procsumDelta` / `procsumNoDelta`
    taskcountDelt: Option<real>,
    taskcounts: seq<ByState>,
    nwarnNoOffset: nat)

  datatype Outcome<T> = Outcome(s: Session, r: Result<T, Fault>)

  /** The reader right after its tables are read. */
  function Open(db: Db<string>): (s: Session)
    ensures s.fixed == [] && s.store == Raw(db) && s.runIds == [] && s.taskNames == []
  {
    Session(Raw(db), [], [], [], [], [], [], [], [], RemoveCounts(0, 0, 0, 0, 0), 0.0, false, None,
            [], [], None, map[], None, [], 0)
  }

  /** The facts every method keeps: the tables are resolved exactly when the
      runs are fixed, which is exactly when there are run ids; each stage
      appears at most once; the taskproc memos have one dictionary per time
      range; the times are shifted only after the runs are fixed, and no
      range is recorded before they are. */
  predicate Valid(s: Session) {
    && (RunsStage in s.fixed <==> s.store.Resolved?)
    && (RunsStage in s.fixed <==> |s.runIds| > 0)
    && NoDups(s.fixed)
    && |s.procsPlain| == |s.timeRanges| && |s.procsDelta| == |s.timeRanges|
    && (TimesStage in s.fixed ==> s.timesShifted)
    && (s.timesShifted ==> RunsStage in s.fixed)
    && (!s.timesShifted ==> s.timeRanges == [])
    && (s.store.Resolved? ==> |s.store.db.task| > 0)
    && (TasksStage in s.fixed ==> |s.taskNames| > 0 && RunsStage in s.fixed)
    && (forall i :: 0 <= i < |s.taskcounts| ==> s.taskcounts[i] == s.taskcounts[0])
  }

  lemma OpenValid(db: Db<string>)
    ensures Valid(Open(db))
  {
  }

  function Procs(s: Session, dodelta: bool): seq<map<int, seq<TrajRow>>> {
    if dodelta then s.procsDelta else s.procsPlain
  }

  // ---- fix_runs ----

  function FixRuns(s: Session): (o: Outcome<()>)
    ensures RunsStage in s.fixed ==> o == Outcome(s, Ok(()))
    ensures RunsStage !in s.fixed && s.store.Raw? ==>
      && (o.r.Err? <==> |s.store.raw.task| == 0)
      && (o.r.Err? ==> o.s == s)
      && (o.r.Ok? ==>
            && o.s.runIds == Distinct(RunColumn(s.store.raw.task))
            && o.s.store == Resolved(ResolveDb(s.store.raw, o.s.runIds))
            && o.s.removed == AddRemoved(s.removed, s.store.raw, o.s.runIds)
            && o.s.fixed == s.fixed + [RunsStage]
            && o.s == s.(store := o.s.store, runIds := o.s.runIds, removed := o.s.removed, fixed := o.s.fixed))
  {
    if RunsStage in s.fixed then Outcome(s, Ok(()))
    else
      match s.store
      case Resolved(_) => Outcome(s, Err(NotResolved))
      case Raw(db) =>
        match ResolveRuns(db, s.removed)
        case Err(_) => Outcome(s, Err(NoRunIds))
        case Ok(f) =>
          Outcome(s.(store := Resolved(f.db), runIds := f.runIds, removed := f.removed,
                     fixed := s.fixed + [RunsStage]), Ok(()))
  }

  lemma NoDupsSnoc<T>(s: seq<T>, x: T)
    requires NoDups(s) && x !in s
    ensures NoDups(s + [x])
  {
  }

  /** `fix_runs` keeps the reader valid, and once it has succeeded a second
      call changes nothing. */
  lemma FixRunsValidIdempotent(s: Session)
    requires Valid(s)
    ensures Valid(FixRuns(s).s)
    ensures FixRuns(s).r.Ok? ==> FixRuns(FixRuns(s).s) == Outcome(FixRuns(s).s, Ok(()))
  {
    if RunsStage !in s.fixed && FixRuns(s).r.Ok? {
      FixRunsOkValid(s);
    }
  }

  lemma FixRunsOkValid(s: Session)
    requires Valid(s) && RunsStage !in s.fixed && FixRuns(s).r.Ok?
    ensures Valid(FixRuns(s).s)
  {
    var o := FixRuns(s);
    var task := s.store.raw.task;
    var ids := o.s.runIds;
    assert NoDups(o.s.fixed) by {
      NoDupsSnoc(s.fixed, RunsStage);
    }
    assert |ids| > 0 && |o.s.store.db.task| > 0 by {
      ResolveRunsBijective(task);
      assert task[0].run in ids;
      assert |Unresolve(ResolveRows(task, ids), ids)| == |task|;
    }
  }

  // ---- fix_workflows ----

  function WorkflowRows(st: Store): seq<string> {
    match st
    case Raw(db) => NameColumn(db.workflow)
    case Resolved(db) => NameColumn(db.workflow)
  }

  function FixWorkflows(s: Session): (o: Outcome<()>)
    ensures o.r.Ok?
    ensures WorkflowsStage in s.fixed ==> o.s == s
    ensures WorkflowsStage !in s.fixed ==>
      && o.s.workflowNames == Extend(s.workflowNames, WorkflowRows(s.store))
      && o.s.fixed == s.fixed + [WorkflowsStage]
      && o.s.store.Raw? == s.store.Raw?
  {
    if WorkflowsStage in s.fixed then Outcome(s, Ok(()))
    else
      match s.store
      case Raw(db) =>
        var r := IndexWorkflows(s.workflowNames, db.workflow);
        Outcome(s.(store := Raw(db.(workflow := r.1)), workflowNames := r.0,
                   fixed := s.fixed + [WorkflowsStage]), Ok(()))
      case Resolved(db) =>
        var r := IndexWorkflows(s.workflowNames, db.workflow);
        Outcome(s.(store := Resolved(db.(workflow := r.1)), workflowNames := r.0,
                   fixed := s.fixed + [WorkflowsStage]), Ok(()))
  }

  lemma FixWorkflowsValidIdempotent(s: Session)
    requires Valid(s)
    ensures Valid(FixWorkflows(s).s)
    ensures FixWorkflows(FixWorkflows(s).s) == Outcome(FixWorkflows(s).s, Ok(()))
  {
    if WorkflowsStage !in s.fixed {
      NoDupsSnoc(s.fixed, WorkflowsStage);
    }
  }

  // ---- fix_times ----

  function AddMemos(m: seq<map<int, seq<TrajRow>>>, n: nat): (r: seq<map<int, seq<TrajRow>>>)
    ensures |r| == |m| + n && r[..|m|] == m
  {
    m + seq(n, _ => map[])
  }

  /** `fix_times` after the runs are fixed: the origin is the first
      workflow's start; every time column moves to it; then each workflow's
      missing end is filled and its range recorded until one cannot be
      recovered. What was shifted and recorded before a raise stays. */
  function ShiftAndFill(s: Session, db: Db<nat>): (o: Outcome<()>)
    ensures |db.workflow| == 0 <==> o.r == Err(NoWorkflow)
    ensures |db.workflow| == 0 ==> o.s == s
    ensures |db.workflow| > 0 ==>
      && o.s.timesShifted && o.s.t0 == db.workflow[0].body.timeBegan && o.s.store.Resolved?
      && o.s.store.db.(workflow := []) == ShiftDb(db, o.s.t0).(workflow := [])
      && |o.s.store.db.workflow| == |db.workflow|
      && s.timeRanges <= o.s.timeRanges
      && |o.s.procsPlain| - |s.procsPlain| == |o.s.procsDelta| - |s.procsDelta| == |o.s.timeRanges| - |s.timeRanges|
    ensures o.r.Ok? ==> o.s.fixed == s.fixed + [TimesStage] && |o.s.timeRanges| == |s.timeRanges| + |db.workflow|
    ensures o.r.Err? ==> o.s.fixed == s.fixed
    ensures o.r.Err? && |db.workflow| > 0 ==> o.r.error == NoEndTime && |o.s.timeRanges| < |s.timeRanges| + |db.workflow|
    ensures o.s.taskNames == s.taskNames && o.s.runIds == s.runIds && o.s.saved == s.saved
  {
    if |db.workflow| == 0 then Outcome(s, Err(NoWorkflow))
    else
      var t0 := db.workflow[0].body.timeBegan;
      var shifted := ShiftDb(db, t0);
      var f := FillEnds(shifted.workflow, Timestamps(shifted.resource), |shifted.workflow|);
      var s1 := s.(store := Resolved(shifted.(workflow := f.rows)), t0 := t0, timesShifted := true,
                   timeRanges := s.timeRanges + f.ranges,
                   procsPlain := AddMemos(s.procsPlain, |f.ranges|),
                   procsDelta := AddMemos(s.procsDelta, |f.ranges|));
      if f.gap.Some? then Outcome(s1, Err(NoEndTime))
      else Outcome(s1.(fixed := s.fixed + [TimesStage]), Ok(()))
  }

  /** `fix_times`: nothing once the times are fixed. Otherwise the runs are
      fixed first; a reader whose columns were already shifted by a call
      that then raised raises again, because its first start is no longer
      a time string; and a fresh reader is shifted and filled. */
  function FixTimes(s: Session): (o: Outcome<()>)
    ensures TimesStage in s.fixed ==> o == Outcome(s, Ok(()))
    ensures TimesStage !in s.fixed && RunsStage in s.fixed && s.timesShifted ==>
      o == Outcome(s, Err(NotATimeString))
    ensures TimesStage !in s.fixed && RunsStage in s.fixed && s.store.Resolved? && !s.timesShifted ==>
      var n := |s.store.db.workflow|;
      && (o.r.Ok? <==> n > 0 && |o.s.timeRanges| == |s.timeRanges| + n)
      && (o.r.Ok? ==> o.s.fixed == s.fixed + [TimesStage])
      && (o.r.Err? ==> o.s.fixed == s.fixed)
      && o.s.timesShifted == (n > 0)
      && o.s.taskNames == s.taskNames && o.s.runIds == s.runIds && o.s.saved == s.saved && o.s.store.Resolved?
  {
    if TimesStage in s.fixed then Outcome(s, Ok(()))
    else
      var o1 := FixRuns(s);
      if o1.r.Err? then o1
      else if o1.s.timesShifted then Outcome(o1.s, Err(NotATimeString))
      else
        match o1.s.store
        case Raw(_) => Outcome(o1.s, Err(NotResolved))
        case Resolved(db) => ShiftAndFill(o1.s, db)
  }

  /** What `fix_times` makes of one workflow row `w`, given the row `w2` it
      leaves and the range `r` it records: the range starts at the shifted
      start; a recorded end moves with it and a NaN end stays NaN; a null
      end becomes NaN when some other end is recorded, since pandas then
      stores the column as floats and the fill only looks for `None`; when
      no end is recorded it is filled with a number. The row holds the
      range and is otherwise unchanged. */
  predicate ShiftedRow(w: Keyed<nat, WorkflowRow>, w2: Keyed<nat, WorkflowRow>, r: TimeRange, t0: real, allNull: bool) {
    var c := w.body.timeCompleted;
    && r.began == w.body.timeBegan - t0
    && w2 == w.(body := w.body.(timeBegan := r.began, timeCompleted := r.completed))
    && (c.Num? ==> r.completed == Num(c.v - t0))
    && (c.NaN? ==> r.completed == NaN)
    && (c.Null? && !allNull ==> r.completed == NaN)
    && (c.Null? && allNull ==> r.completed.Num?)
  }

  /** On a reader whose runs are fixed and whose columns are not yet
      shifted, a successful `fix_times` makes every time relative to the
      first workflow's start, which therefore starts at 0, and records one
      range per workflow as `ShiftedRow` describes. */
  lemma FixTimesRanges(s: Session)
    requires Valid(s) && TimesStage !in s.fixed && RunsStage in s.fixed && !s.timesShifted
    requires FixTimes(s).r.Ok?
    ensures var o := FixTimes(s);
      var wf := s.store.db.workflow;
      && |wf| > 0
      && o.s.t0 == wf[0].body.timeBegan
      && |o.s.timeRanges| == |wf| == |o.s.store.db.workflow|
      && o.s.timeRanges[0].began == 0.0
      && forall k :: 0 <= k < |wf| ==>
           ShiftedRow(wf[k], o.s.store.db.workflow[k], o.s.timeRanges[k], o.s.t0, AllNull(wf))
  {
    assert FixRuns(s) == Outcome(s, Ok(()));
    assert FixTimes(s) == ShiftAndFill(s, s.store.db);
    ShiftAndFillRanges(s, s.store.db);
  }

  lemma ShiftAndFillRanges(s: Session, db: Db<nat>)
    requires s.timeRanges == [] && ShiftAndFill(s, db).r.Ok?
    ensures var o := ShiftAndFill(s, db);
      var wf := db.workflow;
      && |wf| > 0
      && o.s.t0 == wf[0].body.timeBegan
      && |o.s.timeRanges| == |wf| == |o.s.store.db.workflow|
      && forall k :: 0 <= k < |wf| ==>
           ShiftedRow(wf[k], o.s.store.db.workflow[k], o.s.timeRanges[k], o.s.t0, AllNull(wf))
  {
    var t0 := db.workflow[0].body.timeBegan;
    var shifted := ShiftDb(db, t0);
    var f := FillEnds(shifted.workflow, Timestamps(shifted.resource), |shifted.workflow|);
    assert f.gap.None?;
    forall k | 0 <= k < |db.workflow|
      ensures ShiftedRow(db.workflow[k], f.rows[k], f.ranges[k], t0, AllNull(db.workflow))
    {
      assert EndOf(shifted.workflow, Timestamps(shifted.resource), k).Ok?;
    }
  }

  /** When no workflow end was recorded, each is recovered from the shifted
      resource timestamps: the latest one before the next workflow starts,
      and for the last workflow the latest of all. `fix_times` raises
      exactly when one of these has no timestamp to take. */
  lemma FixTimesRecoversEnds(s: Session)
    requires Valid(s) && TimesStage !in s.fixed && RunsStage in s.fixed && !s.timesShifted
    requires AllNull(s.store.db.workflow) && |s.store.db.workflow| > 0
    ensures var o := FixTimes(s);
      var db := s.store.db;
      var sh := ShiftDb(db, db.workflow[0].body.timeBegan);
      var ts := Timestamps(sh.resource);
      && Timestamps(o.s.store.db.resource) == ts
      && (o.r.Err? <==> exists k :: 0 <= k < |db.workflow| && EndOf(sh.workflow, ts, k).Err?)
      && (o.r.Ok? ==> forall k :: 0 <= k < |db.workflow| ==> RecoveredEnd(o.s.timeRanges, ts, k))
  {
    var db := s.store.db;
    var t0 := db.workflow[0].body.timeBegan;
    var sh := ShiftDb(db, t0);
    var ts := Timestamps(sh.resource);
    var f := FillEnds(sh.workflow, ts, |sh.workflow|);
    assert FixRuns(s) == Outcome(s, Ok(()));
    assert FixTimes(s) == ShiftAndFill(s, db);
    assert ShiftAndFill(s, db).s.timeRanges == f.ranges;
    ShiftedNullsOnlyWhenAllNull(db, t0);
    FillEndsGap(sh.workflow, ts);
    if f.gap.None? {
      AllNullRecovered(sh.workflow, ts);
    }
  }

  lemma FixTimesValidIdempotent(s: Session)
    requires Valid(s)
    ensures Valid(FixTimes(s).s)
    ensures FixTimes(s).r.Ok? ==> FixTimes(FixTimes(s).s) == Outcome(FixTimes(s).s, Ok(()))
  {
    FixRunsValidIdempotent(s);
    var o1 := FixRuns(s);
    if TimesStage !in s.fixed && o1.r.Ok? && o1.s.store.Resolved? && !o1.s.timesShifted {
      assert TimesStage !in o1.s.fixed;
      ShiftAndFillValid(o1.s, o1.s.store.db);
    }
  }

  lemma ShiftAndFillValid(s: Session, db: Db<nat>)
    requires Valid(s) && s.store == Resolved(db) && TimesStage !in s.fixed
    ensures Valid(ShiftAndFill(s, db).s)
  {
    if ShiftAndFill(s, db).r.Ok? {
      NoDupsSnoc(s.fixed, TimesStage);
    }
  }

  // ---- fix_tasks ----

  function SetTaskIdx(rows: seq<Keyed<nat, TaskRow>>, idxs: seq<nat>): (r: seq<Keyed<nat, TaskRow>>)
    requires |idxs| == |rows|
    ensures |r| == |rows| && forall k :: 0 <= k < |rows| ==> r[k] == rows[k].(body := rows[k].body.(taskIdx := Some(idxs[k])))
  {
    seq(|rows|, k requires 0 <= k < |rows| => rows[k].(body := rows[k].body.(taskIdx := Some(idxs[k]))))
  }

  /** The `task_idx` column added to the try, status and resource tables in
      turn; a failing lookup leaves the earlier tables changed. */
  function Propagate(s: Session, db: Db<nat>): (o: Outcome<()>)
    ensures o.r.Ok? ==> o.s.fixed == s.fixed + [TasksStage]
    ensures o.r.Err? ==> o.s.fixed == s.fixed
    ensures o.s.timeRanges == s.timeRanges && o.s.saved == s.saved && o.s.store.Resolved?
    ensures o.s == s.(store := o.s.store, fixed := o.s.fixed) && o.s.store.db.task == db.task
  {
    var idx := s.taskIndex;
    match AddTaskIdx(idx, db.tries, TryTaskId, TrySetIdx)
    case Err(_) => Outcome(s.(store := Resolved(db)), Err(BadIndex))
    case Ok(tries) =>
      var db1 := db.(tries := tries);
      match AddTaskIdx(idx, db.status, StatusTaskId, StatusSetIdx)
      case Err(_) => Outcome(s.(store := Resolved(db1)), Err(BadIndex))
      case Ok(status) =>
        var db2 := db1.(status := status);
        match AddTaskIdx(idx, db.resource, ResourceTaskId, ResourceSetIdx)
        case Err(_) => Outcome(s.(store := Resolved(db2)), Err(BadIndex))
        case Ok(resource) =>
          Outcome(s.(store := Resolved(db2.(resource := resource)), fixed := s.fixed + [TasksStage]), Ok(()))
  }

  /** The task loop after the runs are fixed. */
  function ScanTasks(s: Session, db: Db<nat>): (o: Outcome<()>)
    ensures o.r.Ok? ==> o.s.fixed == s.fixed + [TasksStage]
    ensures o.s.timeRanges == s.timeRanges && o.s.saved == s.saved
    ensures o.r.Ok? ==> o.s.store.Resolved?
  {
    var nrun := |s.runIds|;
    match Scan(Fresh(s.taskIndex, nrun), db.task)
    case Err(st) =>
      Outcome(s.(taskNames := st.names, taskNameCounts := st.counts, taskIndex := st.index,
                 taskLogs := st.logs), Err(TaskIdMismatch))
    case Ok(st) =>
      var s1 := s.(taskNames := st.names, taskNameCounts := st.counts, taskIndex := st.index,
                   taskLogs := st.logs);
      Propagate(s1, db.(task := SetTaskIdx(db.task, st.idxs)))
  }

  function FixTasks(s: Session): (o: Outcome<()>)
    ensures |s.taskNames| == 0 && |s.runIds| > 0 && s.store.Resolved? && o.r.Ok? ==>
      o.s.fixed == s.fixed + [TasksStage] && o.s.store.Resolved?
    ensures |s.runIds| > 0 ==> o.s.timeRanges == s.timeRanges && o.s.saved == s.saved
  {
    if |s.taskNames| > 0 then Outcome(s, Ok(()))
    else
      var o1 := if |s.runIds| == 0 then FixRuns(s) else Outcome(s, Ok(()));
      if o1.r.Err? then o1
      else
        match o1.s.store
        case Raw(_) => Outcome(o1.s, Err(NotResolved))
        case Resolved(db) => ScanTasks(o1.s, db)
  }

  /** On a freshly opened reader `fix_tasks` fixes the runs first; it then
      succeeds exactly when the task table's ids count up from 0 within each
      run's block of rows and every other table's (run, task id) pairs name
      a task. On success the task names are the distinct function names in
      first-seen order, the counts add up to the number of tasks, and every
      task row's new `task_idx` names its function. */
  lemma FixTasksOnOpen(db: Db<string>)
    requires |db.task| > 0
    ensures var o := FixTasks(Open(db));
      var rows := ResolveRows(db.task, Distinct(RunColumn(db.task)));
      && (o.r.Ok? ==> Continuous(rows, |Distinct(RunColumn(db.task))|))
      && (!Continuous(rows, |Distinct(RunColumn(db.task))|) ==> o.r == Err(TaskIdMismatch))
      && (o.r.Ok? ==>
            && o.s.taskNames == Distinct(FuncColumn(rows))
            && NoDups(o.s.taskNames)
            && Sum(o.s.taskNameCounts) == |rows|
            && TasksStage in o.s.fixed && RunsStage in o.s.fixed
            && |o.s.store.db.task| == |rows|
            && forall k :: 0 <= k < |rows| ==>
                 && o.s.store.db.task[k].body.taskIdx.Some?
                 && o.s.store.db.task[k].body.taskIdx.value < |o.s.taskNames|
                 && o.s.taskNames[o.s.store.db.task[k].body.taskIdx.value] == rows[k].body.funcName)
  {
    var s := Open(db);
    var ids := Distinct(RunColumn(db.task));
    assert db.task[0].run in ids;
    var o1 := FixRuns(s);
    assert o1.s.store.db.task == ResolveRows(db.task, ids);
    assert FixTasks(s) == ScanTasks(o1.s, o1.s.store.db);
    ScanTasksFresh(o1.s, o1.s.store.db);
  }

  /** The task scan on a reader with no task index yet. */
  lemma ScanTasksFresh(s: Session, db: Db<nat>)
    requires s.taskIndex == [] && RunsStage in s.fixed
    ensures var o := ScanTasks(s, db);
      var rows := db.task;
      && (o.r.Ok? ==> Continuous(rows, |s.runIds|))
      && (!Continuous(rows, |s.runIds|) ==> o.r == Err(TaskIdMismatch))
      && (o.r.Ok? ==>
            && o.s.taskNames == Distinct(FuncColumn(rows))
            && NoDups(o.s.taskNames)
            && Sum(o.s.taskNameCounts) == |rows|
            && TasksStage in o.s.fixed && RunsStage in o.s.fixed
            && |o.s.store.db.task| == |rows|
            && forall k :: 0 <= k < |rows| ==>
                 && o.s.store.db.task[k].body.taskIdx.Some?
                 && o.s.store.db.task[k].body.taskIdx.value < |o.s.taskNames|
                 && o.s.taskNames[o.s.store.db.task[k].body.taskIdx.value] == rows[k].body.funcName)
  {
    TaskScanCorrect(db.task, |s.runIds|);
    match Scan(Fresh([], |s.runIds|), db.task)
    case Err(_) =>
    case Ok(st) =>
      var s1 := s.(taskNames := st.names, taskNameCounts := st.counts, taskIndex := st.index,
                   taskLogs := st.logs);
      var o := Propagate(s1, db.(task := SetTaskIdx(db.task, st.idxs)));
      assert ScanTasks(s, db) == o;
      assert o.s.taskNames == st.names && o.s.taskNameCounts == st.counts;
  }

  lemma FixTasksValidIdempotent(s: Session)
    requires Valid(s)
    ensures Valid(FixTasks(s).s)
    ensures FixTasks(s).r.Ok? ==> FixTasks(FixTasks(s).s) == Outcome(FixTasks(s).s, Ok(()))
  {
    FixRunsValidIdempotent(s);
    if |s.taskNames| == 0 {
      var o1 := if |s.runIds| == 0 then FixRuns(s) else Outcome(s, Ok(()));
      assert Valid(o1.s);
      if o1.r.Ok? && o1.s.store.Resolved? {
        ScanTasksValid(o1.s, o1.s.store.db);
      }
    }
  }

  lemma ScanTasksValid(s: Session, db: Db<nat>)
    requires Valid(s) && s.store == Resolved(db) && |s.taskNames| == 0
    ensures Valid(ScanTasks(s, db).s)
    ensures ScanTasks(s, db).r.Ok? ==> |ScanTasks(s, db).s.taskNames| > 0
  {
    var st := Scan(Fresh(s.taskIndex, |s.runIds|), db.task);
    if st.Ok? {
      var s1 := s.(taskNames := st.value.names, taskNameCounts := st.value.counts, taskIndex := st.value.index,
                   taskLogs := st.value.logs);
      assert TasksStage !in s1.fixed;
      NoDupsSnoc(s1.fixed, TasksStage);
    }
  }

  // ---- taskproc ----

  /** The offset search ran and gave up without finding an aligned offset. */
  predicate GaveUp(ts: seq<real>, dt: real) {
    FindOffset(ts, dt).Ok? && FindOffset(ts, dt).value.1
  }

  /** The no-offset warning count after one table is built. As written the
      update is `++n`, two unary pluses in Python, an expression whose value
      is dropped, so the count stays; as intended it grows by one when the
      offset search gave up. */
  function CountNoOffset(n: nat, warned: bool, v: Variant): nat {
    if v.Intended? && warned then n + 1 else n
  }

  /** The memo entry for run `runidx` and task `taskid`, with Python's
      indexing: a negative index counts from the end, an index below minus
      the length raises. `None` is a raise, `Some(None)` a miss. */
  function MemoLookup(p: seq<map<int, seq<TrajRow>>>, runidx: int, taskid: int): (r: Option<Option<seq<TrajRow>>>)
    ensures r.None? <==> runidx < -|p|
    ensures 0 <= runidx < |p| ==>
      r == Some(if taskid in p[runidx] then Some(p[runidx][taskid]) else None)
    ensures runidx >= |p| ==> r == Some(None)
  {
    if runidx >= |p| then Some(None)
    else
      match PyIndex(p, runidx)
      case None => None
      case Some(m) => Some(if taskid in m then Some(m[taskid]) else None)
  }

  function WithProcs(s: Session, dodelta: bool, p: seq<map<int, seq<TrajRow>>>): Session {
    if dodelta then s.(procsDelta := p) else s.(procsPlain := p)
  }

  /** Building the table once tasks and times are fixed. The interval of the
      first ordered sample becomes the reader's monitoring interval when it
      has none yet, and stays set even when the build then raises. On a
      resolved reader with a known interval `dt` and a run in range, the
      result is the trajectory table of the task's time-ordered samples: no
      samples is `None`, its errors become the reader's, and a table built
      is stored. The warning count stays as written and, as intended, grows
      by one exactly when the offset search gave up. */
  function BuildTaskProc(s: Session, runidx: int, taskid: int, dodelta: bool, v: Variant): (o: Outcome<Option<seq<TrajRow>>>)
    ensures o.s.fixed == s.fixed && o.s.timeRanges == s.timeRanges && o.s.store == s.store && o.s.saved == s.saved
    ensures o.r.Ok? && o.r.value.Some? ==>
      && 0 <= runidx < |Procs(o.s, dodelta)|
      && taskid in Procs(o.s, dodelta)[runidx]
      && Procs(o.s, dodelta)[runidx][taskid] == o.r.value.value
    ensures s.store.Resolved? && s.monitoringInterval.Some? && 0 <= runidx < |s.timeRanges|
            && runidx < |Procs(s, dodelta)| ==>
      var dt := s.monitoringInterval.value;
      var sel := Samples(s.store.db.resource, runidx, taskid);
      var t := TaskProc(sel, s.store.db.tries, runidx, taskid, dt, dodelta);
      && (t == Err(NoSamples) <==> o.r == Ok(None))
      && (t == Err(InconsistentInterval) <==> o.r == Err(Inconsistent))
      && (t == Err(OffsetLoopDiverges) <==> o.r == Err(OffsetLoop))
      && (t.Ok? <==> o.r.Ok? && o.r.value.Some?)
      && (t.Ok? ==>
            && o.r.value.value == t.value
            && o.s.nwarnNoOffset
                 == s.nwarnNoOffset + (if v.Intended? && GaveUp(Timestamps(sel), dt) then 1 else 0))
  {
    var o := BuildTable(s, runidx, taskid, dodelta);
    Outcome(o.s.(nwarnNoOffset := CountNoOffset(o.s.nwarnNoOffset, OffsetSearchGaveUp(s, runidx, taskid, dodelta), v)), o.r)
  }

  /** The build itself, which never touches the warning count. A table is
      returned only when the task has samples and their trajectory was
      built. */
  function BuildTable(s: Session, runidx: int, taskid: int, dodelta: bool): (o: Outcome<Option<seq<TrajRow>>>)
    ensures o.s.nwarnNoOffset == s.nwarnNoOffset
    ensures o.s.fixed == s.fixed && o.s.timeRanges == s.timeRanges && o.s.store == s.store && o.s.saved == s.saved
    ensures o.r.Ok? && o.r.value.Some? ==>
      && 0 <= runidx < |Procs(o.s, dodelta)|
      && taskid in Procs(o.s, dodelta)[runidx]
      && Procs(o.s, dodelta)[runidx][taskid] == o.r.value.value
      && runidx < |s.timeRanges| && s.store.Resolved?
      && var sel := Samples(s.store.db.resource, runidx, taskid);
         && |sel| > 0
         && TaskProc(sel, s.store.db.tries, runidx, taskid, s.monitoringInterval.GetOr(sel[0].body.interval), dodelta).Ok?
    ensures s.store.Resolved? && s.monitoringInterval.Some? && 0 <= runidx < |s.timeRanges|
            && runidx < |Procs(s, dodelta)| ==>
      var dt := s.monitoringInterval.value;
      var sel := Samples(s.store.db.resource, runidx, taskid);
      var t := TaskProc(sel, s.store.db.tries, runidx, taskid, dt, dodelta);
      && (t == Err(NoSamples) <==> o.r == Ok(None))
      && (t == Err(InconsistentInterval) <==> o.r == Err(Inconsistent))
      && (t == Err(OffsetLoopDiverges) <==> o.r == Err(OffsetLoop))
      && (t.Ok? <==> o.r.Ok? && o.r.value.Some?)
      && (t.Ok? ==> o.r.value.value == t.value)
  {
    if runidx >= |s.timeRanges| then Outcome(s, Ok(None))
    else
      match s.store
      case Raw(_) => Outcome(s, Err(NotResolved))
      case Resolved(db) =>
        var sel := Samples(db.resource, runidx, taskid);
        if |sel| == 0 then Outcome(s, Ok(None))
        else
          var dt := s.monitoringInterval.GetOr(sel[0].body.interval);
          var s1 := s.(monitoringInterval := Some(dt));
          match TaskProc(sel, db.tries, runidx, taskid, dt, dodelta)
          case Err(InconsistentInterval) => Outcome(s1, Err(Inconsistent))
          case Err(_) => Outcome(s1, Err(OffsetLoop))
          case Ok(rows) => StoreRows(s1, runidx, taskid, dodelta, rows)
  }

  /** `self.taskprocs[dodelta][runidx][taskid] = newdf`: the table goes into
      its pair's entry, and nothing else of the reader changes; a run index
      past the memo list raises. */
  function StoreRows(s: Session, runidx: int, taskid: int, dodelta: bool, rows: seq<TrajRow>): (o: Outcome<Option<seq<TrajRow>>>)
    ensures o.r.Ok? <==> 0 <= runidx < |Procs(s, dodelta)|
    ensures o.r.Ok? ==>
      && o.r == Ok(Some(rows))
      && Procs(o.s, dodelta) == Procs(s, dodelta)[runidx := Procs(s, dodelta)[runidx][taskid := rows]]
      && o.s == WithProcs(s, dodelta, Procs(o.s, dodelta))
    ensures o.r.Err? ==> o == Outcome(s, Err(BadIndex))
  {
    var p := Procs(s, dodelta);
    if !(0 <= runidx < |p|) then Outcome(s, Err(BadIndex))
    else Outcome(WithProcs(s, dodelta, p[runidx := p[runidx][taskid := rows]]), Ok(Some(rows)))
  }

  /** The build reached a table and its offset search gave up. */
  predicate OffsetSearchGaveUp(s: Session, runidx: int, taskid: int, dodelta: bool) {
    && runidx < |s.timeRanges| && s.store.Resolved?
    && var sel := Samples(s.store.db.resource, runidx, taskid);
       && |sel| > 0
       && var dt := s.monitoringInterval.GetOr(sel[0].body.interval);
          TaskProc(sel, s.store.db.tries, runidx, taskid, dt, dodelta).Ok? && GaveUp(Timestamps(sel), dt)
  }

  /** `taskproc`: the memoised table if there is one, otherwise fix the
      tasks and the times as needed and build it. */
  function TaskProcAt(s: Session, runidx: int, taskid: int, dodelta: bool, v: Variant): (o: Outcome<Option<seq<TrajRow>>>)
  {
    match MemoLookup(Procs(s, dodelta), runidx, taskid)
    case None => Outcome(s, Err(BadIndex))
    case Some(Some(rows)) => Outcome(s, Ok(Some(rows)))
    case Some(None) =>
      var o1 := if TasksStage !in s.fixed then FixTasks(s) else Outcome(s, Ok(()));
      if o1.r.Err? then Outcome(o1.s, Err(o1.r.error))
      else
        var o2 := if |o1.s.timeRanges| == 0 then FixTimes(o1.s) else o1;
        if o2.r.Err? then Outcome(o2.s, Err(o2.r.error))
        else BuildTaskProc(o2.s, runidx, taskid, dodelta, v)
  }

  /** Every table `taskproc` returns is memoised: asking again returns the
      same table and changes nothing, for any index Python accepts. */
  lemma TaskProcAtMemo(s: Session, runidx: int, taskid: int, dodelta: bool, v: Variant)
    requires TaskProcAt(s, runidx, taskid, dodelta, v).r.Ok?
    requires TaskProcAt(s, runidx, taskid, dodelta, v).r.value.Some?
    ensures var o := TaskProcAt(s, runidx, taskid, dodelta, v);
      TaskProcAt(o.s, runidx, taskid, dodelta, v) == o
  {
    var m := MemoLookup(Procs(s, dodelta), runidx, taskid);
    if m == Some(None) {
      if runidx < 0 {
        NegativeRunMisses(s, runidx, taskid, dodelta, v);
      }
    }
  }

  /** Run indices are never negative, so a negative index that misses the
      memo finds no samples and builds nothing. */
  lemma NegativeRunMisses(s: Session, runidx: int, taskid: int, dodelta: bool, v: Variant)
    requires runidx < 0 && s.store.Resolved?
    ensures BuildTaskProc(s, runidx, taskid, dodelta, v) == Outcome(s, Ok(None))
  {
  }

  /** On a reader whose tasks and times are fixed and which has no memo for
      the task, `taskproc` builds the table as above. */
  lemma TaskProcAtBuilds(s: Session, runidx: nat, taskid: int, dodelta: bool, v: Variant)
    requires Valid(s) && TasksStage in s.fixed && |s.timeRanges| > 0
    requires runidx < |s.timeRanges| && taskid !in Procs(s, dodelta)[runidx]
    ensures s.store.Resolved?
    ensures TaskProcAt(s, runidx, taskid, dodelta, v) == BuildTaskProc(s, runidx, taskid, dodelta, v)
  {
  }

  /** As written, a table whose offset search gave up is not counted:
      `taskproc` returns and stores the same as the corrected update, and
      leaves the warning count where it was, while the corrected update
      adds one exactly when the search gave up. */
  lemma NoOffsetWarningsLost(s: Session, runidx: nat, taskid: int, dodelta: bool)
    requires Valid(s) && TasksStage in s.fixed && |s.timeRanges| > 0
    requires runidx < |s.timeRanges| && taskid !in Procs(s, dodelta)[runidx]
    ensures var a := TaskProcAt(s, runidx, taskid, dodelta, AsWritten);
      var i := TaskProcAt(s, runidx, taskid, dodelta, Intended);
      var sel := Samples(s.store.db.resource, runidx, taskid);
      && a.r == i.r
      && a.s == i.s.(nwarnNoOffset := s.nwarnNoOffset)
      && (i.r.Ok? && i.r.value.Some? ==>
            && |sel| > 0
            && var dt := s.monitoringInterval.GetOr(sel[0].body.interval);
               i.s.nwarnNoOffset == s.nwarnNoOffset + (if GaveUp(Timestamps(sel), dt) then 1 else 0))
  {
    TaskProcAtBuilds(s, runidx, taskid, dodelta, AsWritten);
    TaskProcAtBuilds(s, runidx, taskid, dodelta, Intended);
    BuildVariantsAgree(s, runidx, taskid, dodelta);
    BuildIntendedCounts(s, runidx, taskid, dodelta);
  }

  lemma BuildVariantsAgree(s: Session, runidx: nat, taskid: int, dodelta: bool)
    requires s.store.Resolved?
    ensures var a := BuildTaskProc(s, runidx, taskid, dodelta, AsWritten);
      var i := BuildTaskProc(s, runidx, taskid, dodelta, Intended);
      a.r == i.r && a.s == i.s.(nwarnNoOffset := s.nwarnNoOffset)
  {
  }

  lemma BuildIntendedCounts(s: Session, runidx: nat, taskid: int, dodelta: bool)
    requires s.store.Resolved? && runidx < |s.timeRanges|
    ensures var i := BuildTaskProc(s, runidx, taskid, dodelta, Intended);
      var sel := Samples(s.store.db.resource, runidx, taskid);
      i.r.Ok? && i.r.value.Some? ==>
        && |sel| > 0
        && var dt := s.monitoringInterval.GetOr(sel[0].body.interval);
           i.s.nwarnNoOffset == s.nwarnNoOffset + (if GaveUp(Timestamps(sel), dt) then 1 else 0)
  {
  }

  // ---- build_procsum ----

  /** Adds a stage to `fixed` unless it is already there. */
  function Record(fixed: seq<Stage>, st: Stage): (r: seq<Stage>)
    ensures st in r && forall x :: x in fixed ==> x in r
    ensures NoDups(fixed) ==> NoDups(r)
    ensures st in fixed ==> r == fixed
  {
    if st in fixed then fixed else fixed + [st]
  }

  /** The task ids of one run's resource rows, each once, in first-seen order. */
  function RunTaskIds(res: seq<Keyed<nat, ResourceRow>>, irun: nat): (ids: seq<int>)
    ensures NoDups(ids)
    ensures forall x :: x in ids <==> exists k :: 0 <= k < |res| && res[k].run == irun && res[k].body.taskId == x
  {
    var c := TaskIdColumn(res, irun);
    var ids := Distinct(c);
    DistinctElements(c);
    assert forall x :: x in ids <==> x in c by {
      forall x | x in ids ensures x in c {
        var i :| 0 <= i < |ids| && ids[i] == x;
      }
      forall x | x in c ensures x in ids {
        var i :| 0 <= i < |c| && c[i] == x;
      }
    }
    ids
  }

  function TaskIdColumn(res: seq<Keyed<nat, ResourceRow>>, irun: nat): (c: seq<int>)
    ensures forall x :: x in c <==> exists k :: 0 <= k < |res| && res[k].run == irun && res[k].body.taskId == x
  {
    if |res| == 0 then []
    else
      var p := TaskIdColumn(res[..|res| - 1], irun);
      var last := res[|res| - 1];
      assert forall k :: 0 <= k < |res| - 1 ==> res[..|res| - 1][k] == res[k];
      if last.run == irun then p + [last.body.taskId] else p
  }

  /** The (run, task id) pairs `build_procsum` visits, run by run. */
  function Pairs(res: seq<Keyed<nat, ResourceRow>>, nrun: nat): (ps: seq<(nat, int)>)
    ensures forall p :: p in ps <==> p.0 < nrun && p.1 in RunTaskIds(res, p.0)
  {
    if nrun == 0 then []
    else Pairs(res, nrun - 1) + WithRun(nrun - 1, RunTaskIds(res, nrun - 1))
  }

  function WithRun(irun: nat, ids: seq<int>): (ps: seq<(nat, int)>)
    ensures forall p :: p in ps <==> p.0 == irun && p.1 in ids
  {
    if |ids| == 0 then []
    else [(irun, ids[0])] + WithRun(irun, ids[1..])
  }

  /** The delta taskproc tables of the pairs, concatenated in order; the
      reader is threaded through every call. */
  function Collect(s: Session, pairs: seq<(nat, int)>, acc: seq<TrajRow>, v: Variant): (o: Outcome<seq<TrajRow>>)
    ensures o.r.Ok? ==> acc <= o.r.value
    decreases |pairs|
  {
    if |pairs| == 0 then Outcome(s, Ok(acc))
    else
      var o1 := TaskProcAt(s, pairs[0].0, pairs[0].1, true, v);
      match o1.r
      case Err(e) => Outcome(o1.s, Err(e))
      case Ok(None) => Collect(o1.s, pairs[1..], acc, v)
      case Ok(Some(rows)) => Collect(o1.s, pairs[1..], acc + rows, v)
  }

  /** A delta taskproc row as a binning sample: memory percent, resident and
      virtual memory, then the clock, user and system times and disk reads
      and writes. A missing clock is NaN, which a sum skips. */
  function DeltaSample(r: TrajRow): (x: Sample)
    ensures x.t == r.timestamp && x.pid == r.pid && x.run == r.run && |x.vals| == 8
  {
    Sample(r.timestamp, r.pid, r.run,
           [r.memPercent, r.memResident, r.memVirtual, r.clock.GetOr(0.0),
            r.counters.timeUser, r.counters.timeSystem, r.counters.diskRead, r.counters.diskWrite])
  }

  /** A resource row as a binning sample: the three memory columns. */
  function PlainSample(r: Keyed<nat, ResourceRow>): (x: Sample)
    ensures x.t == r.body.timestamp && x.pid == r.body.pid && x.run == r.run && |x.vals| == 3
  {
    Sample(r.body.timestamp, r.body.pid, r.run, [r.body.memPercent, r.body.memResident, r.body.memVirtual])
  }

  function PlainSamples(res: seq<Keyed<nat, ResourceRow>>): (x: seq<Sample>)
    ensures |x| == |res| && forall i :: 0 <= i < |res| ==> x[i] == PlainSample(res[i])
  {
    seq(|res|, i requires 0 <= i < |res| => PlainSample(res[i]))
  }

  /** The binning step as written: right-closed bins of the reader's
      monitoring interval over `numpy.arange` edges, which stop one interval
      short, so only the samples inside `(first edge, last edge]` are
      counted. A negative interval gives no bin and an empty table; a zero
      one raises. The table becomes the current procsum and the saved one
      for this delta choice; `fixed` is not touched. */
  function Bin(s: Session, samples: seq<Sample>, dodelta: bool, width: nat): (o: Outcome<Option<seq<BinRow>>>)
    ensures o.r.Ok? <==> |samples| > 0 && s.monitoringInterval.Some? && s.monitoringInterval.value != 0.0
    ensures o.r.Err? ==> o == Outcome(s, Err(NothingToBin))
    ensures o.r.Ok? ==>
      var dt := s.monitoringInterval.value;
      var k1 := CutK1(samples, dt);
      && o.r.value.Some?
      && TotalNval(o.r.value.value)
           == CountWindow(samples, Edge(k1, 0, dt), Edge(k1, CutBins(CutEdges(samples, dt)), dt)) <= |samples|
      && (dt < 0.0 ==> o.r.value.value == [])
      && (forall i :: 0 <= i < |o.r.value.value| ==> o.r.value.value[i].nproc > 0)
      && o.s == s.(procsum := o.r.value, saved := s.saved[dodelta := o.r.value.value])
  {
    match s.monitoringInterval
    case None => Outcome(s, Err(NothingToBin))
    case Some(dt) =>
      match CutTable(samples, dt, width)
      case None => Outcome(s, Err(NothingToBin))
      case Some(rows) =>
        CutTableTotal(samples, dt, width);
        Outcome(s.(procsum := Some(rows), saved := s.saved[dodelta := rows]), Ok(Some(rows)))
  }

  /** The binning step as intended: every sample lands in exactly one bin,
      and the procsum stage is recorded in `fixed`. */
  function BinIntended(s: Session, samples: seq<Sample>, dodelta: bool, width: nat): (o: Outcome<Option<seq<BinRow>>>)
    ensures o.r.Ok? <==> |samples| > 0 && s.monitoringInterval.Some? && s.monitoringInterval.value > 0.0
    ensures o.r.Err? ==> o == Outcome(s, Err(NothingToBin))
    ensures o.r.Ok? ==>
      && o.r.value.Some?
      && TotalNval(o.r.value.value) == |samples|
      && (forall i :: 0 <= i < |o.r.value.value| ==> o.r.value.value[i].nproc > 0)
      && o.s == s.(procsum := o.r.value, saved := s.saved[dodelta := o.r.value.value],
                   fixed := Record(s.fixed, ProcsumStage))
  {
    match s.monitoringInterval
    case None => Outcome(s, Err(NothingToBin))
    case Some(dt) =>
      match FloorTable(samples, dt, width)
      case None => Outcome(s, Err(NothingToBin))
      case Some(rows) =>
        FloorTableConserves(samples, dt, width);
        Outcome(s.(procsum := Some(rows), saved := s.saved[dodelta := rows],
                   fixed := Record(s.fixed, ProcsumStage)), Ok(Some(rows)))
  }

  /** The binning of the program as written or as intended; either saves
      the table it builds. */
  function BinBy(s: Session, samples: seq<Sample>, dodelta: bool, width: nat, v: Variant): (o: Outcome<Option<seq<BinRow>>>)
    ensures o.r.Ok? && o.r.value.Some? ==>
      dodelta in o.s.saved && o.s.procsum == o.r.value && o.s.saved[dodelta] == o.r.value.value
  {
    if v.AsWritten? then Bin(s, samples, dodelta, width) else BinIntended(s, samples, dodelta, width)
  }

  /** `build_procsum`: the saved table when there is one; otherwise, with
      deltas, the delta taskproc tables of every task of every run, and
      without, the raw resource table, binned by the monitoring interval. */
  function BuildProcsum(s: Session, dodelta: bool, v: Variant): (o: Outcome<Option<seq<BinRow>>>)
    ensures dodelta in s.saved ==> o == Outcome(s.(procsum := Some(s.saved[dodelta])), Ok(Some(s.saved[dodelta])))
    ensures o.r.Ok? && o.r.value.Some? ==>
      dodelta in o.s.saved && o.s.procsum == o.r.value && o.s.saved[dodelta] == o.r.value.value
  {
    if dodelta in s.saved then Outcome(s.(procsum := Some(s.saved[dodelta])), Ok(Some(s.saved[dodelta])))
    else
      var o1 := if dodelta && |s.timeRanges| == 0 then FixTimes(s) else Outcome(s, Ok(()));
      if o1.r.Err? then Outcome(o1.s, Err(o1.r.error))
      else if |o1.s.timeRanges| == 0 then Outcome(o1.s, Ok(None))
      else
        match o1.s.store
        case Raw(_) => Outcome(o1.s, Err(NotResolved))
        case Resolved(db) =>
          if dodelta then BuildDelta(o1.s, db.resource, v)
          else if |db.resource| == 0 then Outcome(o1.s, Err(BadIndex))
          else
            var s2 := o1.s.(monitoringInterval := Some(db.resource[0].body.interval));
            BinBy(s2, PlainSamples(db.resource), false, 3, v)
  }

  /** The delta branch of `build_procsum`: the delta taskproc tables of
      every (run, task id) pair, concatenated and binned; no row at all
      leaves nothing to bin. */
  function BuildDelta(s: Session, res: seq<Keyed<nat, ResourceRow>>, v: Variant): (o: Outcome<Option<seq<BinRow>>>)
    ensures o.r.Ok? && o.r.value.Some? ==>
      true in o.s.saved && o.s.procsum == o.r.value && o.s.saved[true] == o.r.value.value
  {
    var c := Collect(s, Pairs(res, |s.timeRanges|), [], v);
    if c.r.Err? then Outcome(c.s, Err(c.r.error))
    else if |c.r.value| == 0 then Outcome(c.s, Err(NothingToBin))
    else BinBy(c.s, seq(|c.r.value|, i requires 0 <= i < |c.r.value| => DeltaSample(c.r.value[i])), true, 8, v)
  }

  /** A procsum table once built is saved: building it again returns it. */
  lemma BuildProcsumMemo(s: Session, dodelta: bool, v: Variant)
    requires BuildProcsum(s, dodelta, v).r.Ok? && BuildProcsum(s, dodelta, v).r.value.Some?
    ensures var o := BuildProcsum(s, dodelta, v);
      BuildProcsum(o.s, dodelta, v) == o
  {
  }

  /** Without deltas, on a resolved reader, the procsum table is built from
      the resource table alone: with no time range it is `None`; otherwise
      it fails exactly when the resource table is empty or its first
      interval is zero, and it counts the samples inside the window of its
      bin edges, which may leave out the latest ones. A negative interval
      stores an empty table. `fixed` is not touched. */
  lemma BuildProcsumPlain(s: Session)
    requires false !in s.saved && s.store.Resolved?
    ensures var o := BuildProcsum(s, false, AsWritten);
      var res := s.store.db.resource;
      && (|s.timeRanges| == 0 ==> o == Outcome(s, Ok(None)))
      && (|s.timeRanges| > 0 ==> (o.r.Ok? <==> |res| > 0 && res[0].body.interval != 0.0))
      && (o.r.Ok? && |s.timeRanges| > 0 ==>
            var dt := res[0].body.interval;
            var x := PlainSamples(res);
            var k1 := CutK1(x, dt);
            && o.r.value.Some?
            && TotalNval(o.r.value.value)
                 == CountWindow(x, Edge(k1, 0, dt), Edge(k1, CutBins(CutEdges(x, dt)), dt)) <= |res|
            && (dt < 0.0 ==> o.r.value.value == [] && o.s.saved[false] == [])
            && o.s.monitoringInterval == Some(dt)
            && o.s.fixed == s.fixed)
  {
  }

  /** With the corrected binning the same table counts every resource
      sample once and records the procsum stage. */
  lemma BuildProcsumPlainIntended(s: Session)
    requires false !in s.saved && s.store.Resolved? && |s.timeRanges| > 0
    ensures var o := BuildProcsum(s, false, Intended);
      var res := s.store.db.resource;
      && (o.r.Ok? <==> |res| > 0 && res[0].body.interval > 0.0)
      && (o.r.Ok? ==>
            && o.r.value.Some?
            && TotalNval(o.r.value.value) == |res|
            && o.s.monitoringInterval == Some(res[0].body.interval)
            && ProcsumStage in o.s.fixed)
  {
  }

  // ---- fix ----

  /** The stages in the order `fix` runs them. */
  const AllFixes: seq<Stage> := [RunsStage, WorkflowsStage, TimesStage, TasksStage, ProcsumStage]

  /** `fix`: runs, workflows, times, tasks, then the procsum table. */
  function Fix(s: Session, dodelta: bool, v: Variant): (o: Outcome<()>) {
    var o1 := FixRuns(s);
    if o1.r.Err? then o1 else FixAfterRuns(o1.s, dodelta, v)
  }

  function FixAfterRuns(s: Session, dodelta: bool, v: Variant): (o: Outcome<()>) {
    var o2 := FixWorkflows(s);
    var o3 := FixTimes(o2.s);
    if o3.r.Err? then o3 else FixAfterTimes(o3.s, dodelta, v)
  }

  function FixAfterTimes(s: Session, dodelta: bool, v: Variant): (o: Outcome<()>) {
    var o4 := FixTasks(s);
    if o4.r.Err? then o4
    else
      var o5 := BuildProcsum(o4.s, dodelta, v);
      Outcome(o5.s, if o5.r.Err? then Err(o5.r.error) else Ok(()))
  }

  /** `taskproc` on a reader whose tasks and times are fixed touches only
      the memos, the interval and the warning count. */
  lemma TaskProcAtKeeps(s: Session, runidx: int, taskid: int, dodelta: bool, v: Variant)
    requires TasksStage in s.fixed && |s.timeRanges| > 0
    ensures var o := TaskProcAt(s, runidx, taskid, dodelta, v).s;
      o.fixed == s.fixed && o.timeRanges == s.timeRanges && o.store == s.store && o.saved == s.saved
  {
    match MemoLookup(Procs(s, dodelta), runidx, taskid)
    case None =>
    case Some(Some(_)) =>
    case Some(None) =>
      assert TaskProcAt(s, runidx, taskid, dodelta, v) == BuildTaskProc(s, runidx, taskid, dodelta, v);
  }

  lemma {:induction false} CollectKeeps(s: Session, pairs: seq<(nat, int)>, acc: seq<TrajRow>, v: Variant)
    requires TasksStage in s.fixed && |s.timeRanges| > 0
    ensures var o := Collect(s, pairs, acc, v).s;
      o.fixed == s.fixed && o.timeRanges == s.timeRanges && o.store == s.store && o.saved == s.saved
    decreases |pairs|
  {
    if |pairs| > 0 {
      var o1 := TaskProcAt(s, pairs[0].0, pairs[0].1, true, v);
      TaskProcAtKeeps(s, pairs[0].0, pairs[0].1, true, v);
      match o1.r
      case Err(_) =>
      case Ok(None) => CollectKeeps(o1.s, pairs[1..], acc, v);
      case Ok(Some(rows)) => CollectKeeps(o1.s, pairs[1..], acc + rows, v);
    }
  }

  // ---- the delta memo, pair by pair ----

  /** The delta table memoised for a (run, task id) pair, if any. */
  function Memoised(s: Session, p: (nat, int)): Option<seq<TrajRow>> {
    if p.0 < |s.procsDelta| && p.1 in s.procsDelta[p.0] then Some(s.procsDelta[p.0][p.1]) else None
  }

  /** The memoised delta tables of the pairs, concatenated in order; a pair
      with no table adds nothing. */
  function MemoTables(s: Session, pairs: seq<(nat, int)>): seq<TrajRow>
    decreases |pairs|
  {
    if |pairs| == 0 then [] else Memoised(s, pairs[0]).GetOr([]) + MemoTables(s, pairs[1..])
  }

  /** Memo lists where `b` only adds runs to `a`, each with an empty
      dictionary. */
  predicate MemosGrow(a: seq<map<int, seq<TrajRow>>>, b: seq<map<int, seq<TrajRow>>>) {
    a <= b && forall k :: |a| <= k < |b| ==> b[k] == map[]
  }

  /** A later session's memo entries are an earlier one's when its memo
      list only grew. */
  lemma MemosGrowFrame(a: Session, b: Session)
    requires MemosGrow(a.procsDelta, b.procsDelta)
    ensures forall q :: Memoised(b, q) == Memoised(a, q)
  {
  }

  lemma FixRunsKeepsMemos(s: Session)
    ensures FixRuns(s).s.procsDelta == s.procsDelta
  {
  }

  lemma FixTasksKeepsMemos(s: Session)
    ensures FixTasks(s).s.procsDelta == s.procsDelta
  {
    FixRunsKeepsMemos(s);
    if |s.taskNames| == 0 {
      var o1 := if |s.runIds| == 0 then FixRuns(s) else Outcome(s, Ok(()));
      if o1.r.Ok? && o1.s.store.Resolved? {
        assert FixTasks(s) == ScanTasks(o1.s, o1.s.store.db);
        ScanTasksKeepsMemos(o1.s, o1.s.store.db);
      }
    }
  }

  lemma ScanTasksKeepsMemos(s: Session, db: Db<nat>)
    ensures ScanTasks(s, db).s.procsDelta == s.procsDelta
  {
  }

  lemma ShiftAndFillGrowsMemos(s: Session, db: Db<nat>)
    ensures MemosGrow(s.procsDelta, ShiftAndFill(s, db).s.procsDelta)
  {
    if |db.workflow| > 0 {
      var t0 := db.workflow[0].body.timeBegan;
      var shifted := ShiftDb(db, t0);
      var f := FillEnds(shifted.workflow, Timestamps(shifted.resource), |shifted.workflow|);
      assert ShiftAndFill(s, db).s.procsDelta == AddMemos(s.procsDelta, |f.ranges|);
    }
  }

  lemma FixTimesGrowsMemos(s: Session)
    ensures MemosGrow(s.procsDelta, FixTimes(s).s.procsDelta)
  {
    if TimesStage !in s.fixed {
      var o1 := FixRuns(s);
      FixRunsKeepsMemos(s);
      if o1.r.Ok? && !o1.s.timesShifted && o1.s.store.Resolved? {
        assert FixTimes(s) == ShiftAndFill(o1.s, o1.s.store.db);
        ShiftAndFillGrowsMemos(o1.s, o1.s.store.db);
      }
    }
  }

  /** The build stores the table it returns in its pair's entry and
      changes the delta memo in no other way. */
  lemma BuildTableStores(s: Session, runidx: nat, taskid: int)
    ensures var o := BuildTable(s, runidx, taskid, true);
      if o.r.Ok? && o.r.value.Some?
      then runidx < |s.procsDelta|
        && o.s.procsDelta == s.procsDelta[runidx := s.procsDelta[runidx][taskid := o.r.value.value]]
      else o.s.procsDelta == s.procsDelta
  {
    if runidx < |s.timeRanges| && s.store.Resolved? {
      var sel := Samples(s.store.db.resource, runidx, taskid);
      if |sel| > 0 {
        var dt := s.monitoringInterval.GetOr(sel[0].body.interval);
        var s1 := s.(monitoringInterval := Some(dt));
        var t := TaskProc(sel, s.store.db.tries, runidx, taskid, dt, true);
        if t.Ok? {
          assert BuildTable(s, runidx, taskid, true) == StoreRows(s1, runidx, taskid, true, t.value);
        } else {
          assert BuildTable(s, runidx, taskid, true).s == s1;
        }
      }
    }
  }

  /** Building a pair's delta table touches no other pair's entry, and
      stores nothing when there is nothing to return. */
  lemma BuildTaskProcFrame(s: Session, runidx: nat, taskid: int, v: Variant)
    ensures var o := BuildTaskProc(s, runidx, taskid, true, v);
      && (forall q :: q != (runidx, taskid) ==> Memoised(o.s, q) == Memoised(s, q))
      && (o.r.Ok? && o.r.value.None? ==> o.s.procsDelta == s.procsDelta)
      && (o.r.Ok? && o.r.value.Some? ==> Memoised(o.s, (runidx, taskid)) == o.r.value)
  {
    var o := BuildTaskProc(s, runidx, taskid, true, v);
    var b := BuildTable(s, runidx, taskid, true);
    assert o.s.procsDelta == b.s.procsDelta && o.r == b.r by {
      BuildTaskProcIsBuildTable(s, runidx, taskid, v);
    }
    BuildTableStores(s, runidx, taskid);
    if b.r.Ok? && b.r.value.Some? {
      MemoUpdateFrame(s, o.s, runidx, taskid, b.r.value.value);
    }
  }

  /** Apart from the warning count, `taskproc`'s build is the table build. */
  lemma BuildTaskProcIsBuildTable(s: Session, runidx: nat, taskid: int, v: Variant)
    ensures BuildTaskProc(s, runidx, taskid, true, v).s.procsDelta == BuildTable(s, runidx, taskid, true).s.procsDelta
    ensures BuildTaskProc(s, runidx, taskid, true, v).r == BuildTable(s, runidx, taskid, true).r
  {
  }

  /** Storing a table under one pair changes only that pair's entry. */
  lemma MemoUpdateFrame(a: Session, b: Session, runidx: nat, taskid: int, rows: seq<TrajRow>)
    requires runidx < |a.procsDelta| && b.procsDelta == a.procsDelta[runidx := a.procsDelta[runidx][taskid := rows]]
    ensures forall q :: q != (runidx, taskid) ==> Memoised(b, q) == Memoised(a, q)
    ensures Memoised(b, (runidx, taskid)) == Some(rows)
  {
  }

  /** `taskproc` for the delta table of a pair leaves every other pair's
      memo entry as it was, and on success the pair's own entry is the
      table returned, or none when the task has no samples. */
  lemma TaskProcAtFrame(s: Session, runidx: nat, taskid: int, v: Variant)
    ensures var o := TaskProcAt(s, runidx, taskid, true, v);
      && (forall q :: q != (runidx, taskid) ==> Memoised(o.s, q) == Memoised(s, q))
      && (o.r.Ok? ==> Memoised(o.s, (runidx, taskid)) == o.r.value)
  {
    var o := TaskProcAt(s, runidx, taskid, true, v);
    if MemoLookup(s.procsDelta, runidx, taskid) == Some(None) {
      assert Memoised(s, (runidx, taskid)) == None;
      var o1 := if TasksStage !in s.fixed then FixTasks(s) else Outcome(s, Ok(()));
      assert o1.s.procsDelta == s.procsDelta by { FixTasksKeepsMemos(s); }
      if o1.r.Ok? {
        var o2 := if |o1.s.timeRanges| == 0 then FixTimes(o1.s) else o1;
        assert MemosGrow(s.procsDelta, o2.s.procsDelta) by { FixTimesGrowsMemos(o1.s); }
        MemosGrowFrame(s, o2.s);
        if o2.r.Ok? {
          assert o == BuildTaskProc(o2.s, runidx, taskid, true, v);
          BuildTaskProcFrame(o2.s, runidx, taskid, v);
        } else {
          assert o.s == o2.s;
        }
      } else {
        assert o.s == o1.s;
      }
    }
  }

  lemma {:induction false} CollectFrame(s: Session, pairs: seq<(nat, int)>, acc: seq<TrajRow>, v: Variant, q: (nat, int))
    requires q !in pairs
    ensures Memoised(Collect(s, pairs, acc, v).s, q) == Memoised(s, q)
    decreases |pairs|
  {
    if |pairs| > 0 {
      var o1 := TaskProcAt(s, pairs[0].0, pairs[0].1, true, v);
      TaskProcAtFrame(s, pairs[0].0, pairs[0].1, v);
      assert q !in pairs[1..];
      match o1.r
      case Err(_) =>
      case Ok(None) => CollectFrame(o1.s, pairs[1..], acc, v, q);
      case Ok(Some(rows)) => CollectFrame(o1.s, pairs[1..], acc + rows, v, q);
    }
  }

  /** For distinct pairs, `build_procsum`'s concatenation is the accumulated
      rows followed by each pair's delta taskproc table, in the order of
      the pairs, as memoised on the reader it leaves: every table built is
      kept, and a pair with no samples contributes nothing. */
  lemma {:induction false} CollectTables(s: Session, pairs: seq<(nat, int)>, acc: seq<TrajRow>, v: Variant)
    requires NoDups(pairs)
    ensures var o := Collect(s, pairs, acc, v);
      o.r.Ok? ==> o.r.value == acc + MemoTables(o.s, pairs)
    decreases |pairs|
  {
    if |pairs| > 0 {
      var o1 := TaskProcAt(s, pairs[0].0, pairs[0].1, true, v);
      if o1.r.Ok? {
        var rest := pairs[1..];
        NoDupsTail(pairs);
        var acc1 := acc + o1.r.value.GetOr([]);
        var o := Collect(o1.s, rest, acc1, v);
        assert Collect(s, pairs, acc, v) == o by { CollectStep(s, pairs, acc, v); }
        assert o.r.Ok? ==> o.r.value == acc1 + MemoTables(o.s, rest) by {
          CollectTables(o1.s, rest, acc1, v);
        }
        assert Memoised(o.s, pairs[0]) == o1.r.value by {
          CollectFrame(o1.s, rest, acc1, v, pairs[0]);
          TaskProcAtFrame(s, pairs[0].0, pairs[0].1, v);
        }
        assert MemoTables(o.s, pairs) == Memoised(o.s, pairs[0]).GetOr([]) + MemoTables(o.s, rest);
      }
    }
  }

  /** The rows `build_procsum` bins for the delta table are the delta
      taskproc tables of every (run, task id) pair with samples, run by run,
      as memoised on the reader it leaves. */
  lemma DeltaRowsAreMemoised(s: Session, res: seq<Keyed<nat, ResourceRow>>, v: Variant)
    ensures var c := Collect(s, Pairs(res, |s.timeRanges|), [], v);
      c.r.Ok? ==> c.r.value == MemoTables(c.s, Pairs(res, |s.timeRanges|))
  {
    PairsNoDups(res, |s.timeRanges|);
    CollectTables(s, Pairs(res, |s.timeRanges|), [], v);
  }

  /** One pair of the concatenation: its table, if any, joins the rows. */
  lemma CollectStep(s: Session, pairs: seq<(nat, int)>, acc: seq<TrajRow>, v: Variant)
    requires |pairs| > 0
    ensures var o1 := TaskProcAt(s, pairs[0].0, pairs[0].1, true, v);
      o1.r.Ok? ==> Collect(s, pairs, acc, v) == Collect(o1.s, pairs[1..], acc + o1.r.value.GetOr([]), v)
  {
    var o1 := TaskProcAt(s, pairs[0].0, pairs[0].1, true, v);
    if o1.r == Ok(None) {
      assert acc + o1.r.value.GetOr([]) == acc;
    }
  }

  lemma {:induction false} WithRunNoDups(irun: nat, ids: seq<int>)
    requires NoDups(ids)
    ensures NoDups(WithRun(irun, ids))
    decreases |ids|
  {
    if |ids| > 0 {
      var tl := ids[1..];
      NoDupsTail(ids);
      WithRunNoDups(irun, tl);
      var w := WithRun(irun, ids);
      assert w == [(irun, ids[0])] + WithRun(irun, tl);
      forall i, j | 0 <= i < j < |w| ensures w[i] != w[j] {
        if i == 0 {
          assert w[j] in WithRun(irun, tl);
        } else {
          assert w[i] == WithRun(irun, tl)[i - 1] && w[j] == WithRun(irun, tl)[j - 1];
        }
      }
    }
  }

  /** `build_procsum` visits each (run, task id) pair once. */
  lemma {:induction false} PairsNoDups(res: seq<Keyed<nat, ResourceRow>>, nrun: nat)
    ensures NoDups(Pairs(res, nrun))
    decreases nrun
  {
    if nrun > 0 {
      var a := Pairs(res, nrun - 1);
      var b := WithRun(nrun - 1, RunTaskIds(res, nrun - 1));
      assert NoDups(a) by { PairsNoDups(res, nrun - 1); }
      assert NoDups(b) by { WithRunNoDups(nrun - 1, RunTaskIds(res, nrun - 1)); }
      assert forall p :: p in a ==> p !in b by {
        PairsRunsBelow(res, nrun - 1);
        WithRunRun(nrun - 1, RunTaskIds(res, nrun - 1));
        RunsApart(a, b, nrun - 1);
      }
      NoDupsAppend(a, b);
      PairsStep(res, nrun);
    }
  }

  lemma PairsStep(res: seq<Keyed<nat, ResourceRow>>, nrun: nat)
    requires nrun > 0
    ensures Pairs(res, nrun) == Pairs(res, nrun - 1) + WithRun(nrun - 1, RunTaskIds(res, nrun - 1))
  {
  }

  lemma PairsRunsBelow(res: seq<Keyed<nat, ResourceRow>>, n: nat)
    ensures forall p :: p in Pairs(res, n) ==> p.0 < n
  {
  }

  lemma WithRunRun(irun: nat, ids: seq<int>)
    ensures forall p :: p in WithRun(irun, ids) ==> p.0 == irun
  {
  }

  /** Pairs of earlier runs and pairs of run `r` have none in common. */
  lemma RunsApart(a: seq<(nat, int)>, b: seq<(nat, int)>, r: nat)
    requires forall p :: p in a ==> p.0 < r
    requires forall p :: p in b ==> p.0 == r
    ensures forall p :: p in a ==> p !in b
  {
  }

  /** After the tasks are fixed on a reader with time ranges and no saved
      table, a successful `build_procsum` leaves `fixed` as it was in the
      code as written, and records its stage last as intended. */
  lemma BuildProcsumRecords(s: Session, dodelta: bool, v: Variant)
    requires TasksStage in s.fixed && |s.timeRanges| > 0 && s.store.Resolved? && dodelta !in s.saved
    requires BuildProcsum(s, dodelta, v).r.Ok?
    ensures BuildProcsum(s, dodelta, v).s.fixed == if v.Intended? then Record(s.fixed, ProcsumStage) else s.fixed
  {
    if dodelta {
      CollectKeeps(s, Pairs(s.store.db.resource, |s.timeRanges|), [], v);
    }
  }

  /** A successful `fix` on a freshly opened reader has fixed every stage
      but the procsum one in the code as written, and every stage, each
      once and in the order the stages run, as intended. */
  lemma FixRecordsAllStages(db: Db<string>, dodelta: bool, v: Variant)
    requires Fix(Open(db), dodelta, v).r.Ok?
    ensures Fix(Open(db), dodelta, v).s.fixed == if v.Intended? then AllFixes else AllFixes[..4]
  {
    FixFromScratch(Open(db), dodelta, v);
  }

  lemma FixFromScratch(s: Session, dodelta: bool, v: Variant)
    requires s.fixed == [] && s.store.Raw? && s.runIds == [] && s.taskNames == [] && s.saved == map[]
    requires !s.timesShifted && Fix(s, dodelta, v).r.Ok?
    ensures Fix(s, dodelta, v).s.fixed == if v.Intended? then AllFixes else AllFixes[..4]
  {
    var o1 := FixRuns(s);
    assert o1.s.fixed == [RunsStage] && o1.s.store.Resolved? && |o1.s.runIds| > 0;
    assert o1.s.taskNames == [] && o1.s.saved == map[] && !o1.s.timesShifted;
    FixAfterRunsRecords(o1.s, dodelta, v);
  }

  lemma FixAfterRunsRecords(s: Session, dodelta: bool, v: Variant)
    requires s.fixed == [RunsStage] && s.store.Resolved? && |s.runIds| > 0 && s.taskNames == [] && s.saved == map[]
    requires !s.timesShifted && FixAfterRuns(s, dodelta, v).r.Ok?
    ensures FixAfterRuns(s, dodelta, v).s.fixed == if v.Intended? then AllFixes else AllFixes[..4]
  {
    var o2 := FixWorkflows(s);
    FixWorkflowsStep(s);
    var o3 := FixTimes(o2.s);
    assert o3.r.Ok?;
    FixTimesStep(o2.s);
    FixAfterTimesRecords(o3.s, dodelta, v);
  }

  lemma FixTimesStep(s: Session)
    requires s.fixed == [RunsStage, WorkflowsStage] && s.store.Resolved? && |s.runIds| > 0
    requires s.taskNames == [] && s.saved == map[] && !s.timesShifted && FixTimes(s).r.Ok?
    ensures var o := FixTimes(s).s;
      && o.fixed == [RunsStage, WorkflowsStage, TimesStage] && o.store.Resolved? && |o.runIds| > 0
      && o.taskNames == [] && o.saved == map[] && |o.timeRanges| > 0
  {
  }

  lemma FixWorkflowsStep(s: Session)
    requires s.fixed == [RunsStage] && s.store.Resolved? && |s.runIds| > 0 && s.taskNames == [] && s.saved == map[]
    ensures var o := FixWorkflows(s).s;
      && o.fixed == [RunsStage, WorkflowsStage] && o.store.Resolved?
      && o.taskNames == [] && o.saved == map[] && o.runIds == s.runIds && o.timesShifted == s.timesShifted
  {
  }

  lemma FixAfterTimesRecords(s: Session, dodelta: bool, v: Variant)
    requires s.fixed == [RunsStage, WorkflowsStage, TimesStage] && s.store.Resolved? && |s.runIds| > 0
    requires s.taskNames == [] && s.saved == map[] && |s.timeRanges| > 0
    requires FixAfterTimes(s, dodelta, v).r.Ok?
    ensures FixAfterTimes(s, dodelta, v).s.fixed == if v.Intended? then AllFixes else AllFixes[..4]
  {
    var o4 := FixTasks(s);
    FixTasksStep(s);
    ProcsumStep(o4.s, dodelta, v);
  }

  lemma FixTasksStep(s: Session)
    requires s.fixed == [RunsStage, WorkflowsStage, TimesStage] && s.store.Resolved? && |s.runIds| > 0
    requires s.taskNames == [] && s.saved == map[] && |s.timeRanges| > 0
    ensures var o := FixTasks(s);
      o.r.Ok? ==> o.s.fixed == [RunsStage, WorkflowsStage, TimesStage, TasksStage]
                  && o.s.saved == map[] && |o.s.timeRanges| > 0 && o.s.store.Resolved?
  {
  }

  lemma ProcsumStep(s: Session, dodelta: bool, v: Variant)
    requires s.fixed == [RunsStage, WorkflowsStage, TimesStage, TasksStage]
    requires |s.timeRanges| > 0 && s.store.Resolved? && s.saved == map[]
    ensures BuildProcsum(s, dodelta, v).r.Ok? ==>
      BuildProcsum(s, dodelta, v).s.fixed == if v.Intended? then AllFixes else AllFixes[..4]
  {
    if BuildProcsum(s, dodelta, v).r.Ok? {
      BuildProcsumRecords(s, dodelta, v);
    }
  }

  /** As written, the stage list a successful `fix` leaves on a fresh
      reader lacks the procsum stage that the module's own test expects. */
  lemma ProcsumStageMissingAsWritten(db: Db<string>, dodelta: bool)
    requires Fix(Open(db), dodelta, AsWritten).r.Ok?
    ensures ProcsumStage !in Fix(Open(db), dodelta, AsWritten).s.fixed
    ensures Fix(Open(db), dodelta, AsWritten).s.fixed != AllFixes
  {
    FixRecordsAllStages(db, dodelta, AsWritten);
    NoProcsumStage(Fix(Open(db), dodelta, AsWritten).s.fixed);
  }

  lemma NoProcsumStage(fixed: seq<Stage>)
    requires fixed == AllFixes[..4]
    ensures ProcsumStage !in fixed && fixed != AllFixes
  {
    assert fixed == [RunsStage, WorkflowsStage, TimesStage, TasksStage];
  }

  // ---- workflow_time_range ----

  /** Seconds per unit of the units `workflow_time_range` accepts. */
  function UnitSeconds(unit: string): (r: Option<real>)
    ensures r.Some? ==> r.value >= 1.0
    ensures r.Some? <==> unit in {"second", "minute", "hour", "day"}
  {
    if unit == "second" then Some(1.0)
    else if unit == "minute" then Some(60.0)
    else if unit == "hour" then Some(3600.0)
    else if unit == "day" then Some(24.0 * 3600.0)
    else None
  }

  /** The factor applied to seconds: `1/60` for minutes and so on. */
  function UnitFactor(unit: string): Option<real> {
    if unit == "second" then Some(1.0)
    else if unit == "minute" then Some(1.0 / 60.0)
    else if unit == "hour" then Some(1.0 / 3600.0)
    else if unit == "day" then Some(1.0 / (24.0 * 3600.0))
    else None
  }

  function WorkflowTable(st: Store): seq<WorkflowRow> {
    match st
    case Raw(db) => seq(|db.workflow|, k requires 0 <= k < |db.workflow| => db.workflow[k].body)
    case Resolved(db) => seq(|db.workflow|, k requires 0 <= k < |db.workflow| => db.workflow[k].body)
  }

  /** A cell as a number, `None` for a null or NaN. */
  function Value(c: Cell): (r: Option<real>)
    ensures r.Some? <==> c.Num?
    ensures c.Num? ==> r.value == c.v
  {
    if c.Num? then Some(c.v) else None
  }

  /** `workflow_time_range`: the start and end of workflow `iwkf` in the
      given unit, with a NaN end as `None`. An index past the end or an
      unknown unit gives `None`. A negative index is a `KeyError`. Before
      `fix_times` the columns hold time strings, and multiplying one, or a
      null end, by the factor raises. */
  function WorkflowTimeRange(s: Session, iwkf: int, unit: string): (r: Result<Option<(real, Option<real>)>, Fault>)
    ensures var wkf := WorkflowTable(s.store);
      && (iwkf >= |wkf| || UnitFactor(unit).None? ==> r == Ok(None))
      && (r.Err? <==> iwkf < |wkf| && UnitFactor(unit).Some?
                      && (iwkf < 0 || !s.timesShifted || wkf[iwkf].timeCompleted.Null?))
      && (r.Ok? && r.value.Some? ==>
            && 0 <= iwkf < |wkf| && UnitFactor(unit).Some?
            && r.value.value.0 == UnitFactor(unit).value * wkf[iwkf].timeBegan
            && (r.value.value.1.Some? <==> wkf[iwkf].timeCompleted.Num?)
            && (r.value.value.1.Some? ==> r.value.value.1.value == UnitFactor(unit).value * wkf[iwkf].timeCompleted.v))
  {
    var wkf := WorkflowTable(s.store);
    if iwkf >= |wkf| then Ok(None)
    else
      match UnitFactor(unit)
      case None => Ok(None)
      case Some(fac) =>
        if iwkf < 0 then Err(BadIndex)
        else if !s.timesShifted then Err(NotArithmetic)
        else
          var w := wkf[iwkf];
          match w.timeCompleted
          case Null => Err(NotArithmetic)
          case NaN => Ok(Some((fac * w.timeBegan, None)))
          case Num(t) => Ok(Some((fac * w.timeBegan, Some(fac * t))))
  }

  /** Converting back: a range in any accepted unit, times the unit's
      length in seconds, is the range in seconds. */
  lemma WorkflowTimeRangeUnits(s: Session, iwkf: int, unit: string)
    requires WorkflowTimeRange(s, iwkf, unit).Ok? && WorkflowTimeRange(s, iwkf, unit).value.Some?
    ensures var r := WorkflowTimeRange(s, iwkf, unit).value.value;
      var r1 := WorkflowTimeRange(s, iwkf, "second").value.value;
      var u := UnitSeconds(unit).value;
      && UnitSeconds(unit).Some?
      && r.0 * u == r1.0
      && r.1.Some? == r1.1.Some?
      && (r.1.Some? ==> r.1.value * u == r1.1.value)
  {
  }

  /** After `fix_times` on a reader with resolved runs, the range reported
      in seconds for each workflow is the range recorded for it. */
  lemma WorkflowTimeRangeAfterFixTimes(s: Session, k: nat)
    requires Valid(s) && TimesStage !in s.fixed && RunsStage in s.fixed && !s.timesShifted
    requires FixTimes(s).r.Ok? && k < |s.store.db.workflow|
    ensures var o := FixTimes(s);
      WorkflowTimeRange(o.s, k, "second") == Ok(Some((o.s.timeRanges[k].began, Value(o.s.timeRanges[k].completed))))
  {
    FixTimesRanges(s);
  }

  // ---- taskcounts ----

  /** The state names `taskcounts` accepts. */
  function StateNamed(name: string): (st: Option<State>)
    ensures st.Some? <==> name in {"launched", "running", "returned"}
  {
    if name == "launched" then Some(Launched)
    else if name == "running" then Some(Running)
    else if name == "returned" then Some(Returned)
    else None
  }

  /** The recorded ranges as numbers; a NaN end is missing. */
  function RangePairs(r: seq<TimeRange>): (p: seq<(real, Option<real>)>)
    ensures |p| == |r| && forall k :: 0 <= k < |r| ==> p[k] == (r[k].began, Value(r[k].completed))
  {
    seq(|r|, k requires 0 <= k < |r| => (r[k].began, Value(r[k].completed)))
  }

  /** The rebuild of the memoised tables: one table set per workflow name,
      all the same set, built with the step `delt` of this call. */
  function RebuildCounts(s: Session, delt: real): (o: Outcome<()>)
    requires |s.workflowNames| > 0
    ensures o.s.taskcountDelt == Some(delt)
    ensures o.r.Ok? ==> |o.s.taskcounts| == |s.workflowNames|
  {
    var nrun := |s.workflowNames|;
    var s1 := s.(taskcountDelt := Some(delt));
    match s1.store
    case Raw(_) => Outcome(s1, Err(NotResolved))
    case Resolved(db) =>
      match Build(RangePairs(s.timeRanges), nrun, |s.taskNames|, db.tries, delt)
      case Err(_) => Outcome(s1, Err(CountFailure))
      case Ok(t) => Outcome(s1.(taskcounts := seq(nrun, _ => t)), Ok(()))
  }

  /** `taskcounts`: rebuild the tables unless there is one set per
      workflow; then the table of the named state for run `runidx`, with
      Python's indexing. No workflows or no state gives `None`; an unknown
      state or an index out of range raises. */
  function TaskCountsAt(s: Session, state: Option<string>, runidx: int, delt: real): (o: Outcome<Option<CountTable>>)
    ensures |s.workflowNames| == |s.taskcounts| ==> o.s == s
  {
    var nrun := |s.workflowNames|;
    if nrun == 0 then Outcome(s, Ok(None))
    else
      var o1 := if |s.taskcounts| != nrun then RebuildCounts(s, delt) else Outcome(s, Ok(()));
      if o1.r.Err? then Outcome(o1.s, Err(o1.r.error))
      else
        match state
        case None => Outcome(o1.s, Ok(None))
        case Some(name) =>
          match PyIndex(o1.s.taskcounts, runidx)
          case None => Outcome(o1.s, Err(BadIndex))
          case Some(t) =>
            match StateNamed(name)
            case None => Outcome(o1.s, Err(BadIndex))
            case Some(st) => Outcome(o1.s, Ok(Some(t.For(st))))
  }

  /** Once built, the tables are kept: a later call with any step returns
      the same table and changes nothing, and every run index Python
      accepts returns the same table. */
  lemma TaskCountsMemo(s: Session, state: string, runidx: int, delt: real, runidx2: int, delt2: real)
    requires Valid(s)
    requires TaskCountsAt(s, Some(state), runidx, delt).r.Ok?
    requires TaskCountsAt(s, Some(state), runidx, delt).r.value.Some?
    requires -|s.workflowNames| <= runidx2 < |s.workflowNames|
    ensures var o := TaskCountsAt(s, Some(state), runidx, delt);
      TaskCountsAt(o.s, Some(state), runidx2, delt2) == o
  {
    var o := TaskCountsAt(s, Some(state), runidx, delt);
    if |s.taskcounts| != |s.workflowNames| {
      var o1 := RebuildCounts(s, delt);
      assert o.s == o1.s;
      var t := o1.s.taskcounts[0];
      assert forall i :: 0 <= i < |o1.s.taskcounts| ==> o1.s.taskcounts[i] == t;
      assert PyIndex(o1.s.taskcounts, runidx) == Some(t);
      assert PyIndex(o1.s.taskcounts, runidx2) == Some(t);
    } else {
      assert PyIndex(s.taskcounts, runidx) == Some(s.taskcounts[0]);
      assert PyIndex(s.taskcounts, runidx2) == Some(s.taskcounts[0]);
    }
  }

  /** A freshly built table counts, per task index and grid time, the tries
      of every run that reached the state strictly before that time, on the
      grid of the last workflow, whose end is a number. */
  lemma TaskCountsCount(s: Session, state: string, runidx: int, delt: real, k: nat, c: nat)
    requires |s.workflowNames| > 0 && |s.taskcounts| != |s.workflowNames| && s.store.Resolved?
    requires TaskCountsAt(s, Some(state), runidx, delt).r.Ok?
    ensures var tab := TaskCountsAt(s, Some(state), runidx, delt).r.value.value;
      var n := |s.workflowNames|;
      var ranges := s.timeRanges;
      && StateNamed(state).Some?
      && n <= |ranges|
      && ranges[n - 1].completed.Num?
      && tab.times == Grid(ranges[n - 1].began, ranges[n - 1].completed.v, delt).value
      && (k < |tab.times| && c < |s.taskNames| ==>
            tab.counts[k][c] == Reached(s.store.db.tries, StateNamed(state).value, c, tab.times[k]))
  {
    var n := |s.workflowNames|;
    var db := s.store.db;
    var ps := RangePairs(s.timeRanges);
    var b := Build(ps, n, |s.taskNames|, db.tries, delt);
    assert b.Ok?;
    BuildCounts(ps, n, |s.taskNames|, db.tries, delt, StateNamed(state).value, k, c);
    var o1 := RebuildCounts(s, delt);
    assert forall i :: 0 <= i < |o1.s.taskcounts| ==> o1.s.taskcounts[i] == b.value;
  }

  /** A workflow end that stayed NaN, as `fix_times` leaves a missing end
      when another end is recorded, makes the rebuild raise at the `int()`
      of the row count. */
  lemma TaskCountsNaNEnd(s: Session, state: Option<string>, runidx: int, delt: real)
    requires |s.workflowNames| > 0 && |s.taskcounts| != |s.workflowNames| && s.store.Resolved?
    requires |s.workflowNames| <= |s.timeRanges| && !s.timeRanges[|s.workflowNames| - 1].completed.Num?
    ensures TaskCountsAt(s, state, runidx, delt) == Outcome(s.(taskcountDelt := Some(delt)), Err(CountFailure))
  {
    var n := |s.workflowNames|;
    assert RangePairs(s.timeRanges)[n - 1].1 == None;
  }
}
