/** `fix_times`: times relative to the first workflow's start, recovery of
    missing workflow end times from resource timestamps, and the per-workflow
    time ranges. */
module Times {
  import opened Wrappers
  import opened Tables

  /** A workflow's time range. The end is `NaN` when it was missing and
      was not filled. */
  datatype TimeRange = TimeRange(began: real, completed: Cell)

  /** `apply` on a nullable time column that pandas keeps as objects or
      floats alike: a null stays missing and a value moves to the new
      origin. */
  function ShiftOpt(t: Option<real>, t0: real): (r: Option<real>)
    ensures r.Some? <==> t.Some?
    ensures t.Some? ==> r.value == t.value - t0
  {
    match t
    case None => None
    case Some(v) => Some(v - t0)
  }

  /** No workflow has a recorded end. */
  predicate AllNull(wf: seq<Keyed<nat, WorkflowRow>>) {
    forall k :: 0 <= k < |wf| ==> wf[k].body.timeCompleted.Null?
  }

  /** One entry of the end column after `apply`. pandas infers the type of
      the new column: when every entry is `None` it stays a column of
      `None`s, and otherwise it becomes a float column in which each `None`
      is NaN. */
  function ShiftEnd(c: Cell, t0: real, allNull: bool): (r: Cell)
    ensures r.Num? <==> c.Num?
    ensures c.Num? ==> r.v == c.v - t0
    ensures r.Null? <==> c.Null? && allNull
  {
    match c
    case Num(v) => Num(v - t0)
    case NaN => NaN
    case Null => if allNull then Null else NaN
  }

  /** Every column whose name starts with `time`, `task_time` or
      `task_try_time` is moved to the new origin: the workflow start and
      end, the task's invoked and returned times, the try's launched,
      running and returned times, and the status and resource timestamps.
      No row is added, lost or reordered, and nothing else changes. */
  function ShiftDb(db: Db<nat>, t0: real): (r: Db<nat>)
    ensures |r.workflow| == |db.workflow| && |r.resource| == |db.resource|
    ensures |r.task| == |db.task| && |r.tries| == |db.tries| && |r.status| == |db.status|
    ensures forall k :: 0 <= k < |db.workflow| ==>
              var w := db.workflow[k];
              r.workflow[k] == w.(body := w.body.(timeBegan := w.body.timeBegan - t0,
                                                  timeCompleted := ShiftEnd(w.body.timeCompleted, t0, AllNull(db.workflow))))
    ensures forall k :: 0 <= k < |db.task| ==>
              var t := db.task[k];
              r.task[k] == t.(body := t.body.(timeInvoked := ShiftOpt(t.body.timeInvoked, t0),
                                              timeReturned := ShiftOpt(t.body.timeReturned, t0)))
    ensures forall k :: 0 <= k < |db.tries| ==>
              var t := db.tries[k];
              r.tries[k] == t.(body := t.body.(timeLaunched := ShiftOpt(t.body.timeLaunched, t0),
                                               timeRunning := ShiftOpt(t.body.timeRunning, t0),
                                               timeReturned := ShiftOpt(t.body.timeReturned, t0)))
    ensures forall k :: 0 <= k < |db.status| ==>
              r.status[k] == db.status[k].(body := db.status[k].body.(timestamp := db.status[k].body.timestamp - t0))
    ensures forall k :: 0 <= k < |db.resource| ==>
              r.resource[k] == db.resource[k].(body := db.resource[k].body.(timestamp := db.resource[k].body.timestamp - t0))
  {
    var allNull := AllNull(db.workflow);
    Db(seq(|db.workflow|, k requires 0 <= k < |db.workflow| =>
           var w := db.workflow[k];
           w.(body := w.body.(timeBegan := w.body.timeBegan - t0,
                              timeCompleted := ShiftEnd(w.body.timeCompleted, t0, allNull)))),
       seq(|db.task|, k requires 0 <= k < |db.task| =>
           var t := db.task[k];
           t.(body := t.body.(timeInvoked := ShiftOpt(t.body.timeInvoked, t0),
                              timeReturned := ShiftOpt(t.body.timeReturned, t0)))),
       seq(|db.tries|, k requires 0 <= k < |db.tries| =>
           var t := db.tries[k];
           t.(body := t.body.(timeLaunched := ShiftOpt(t.body.timeLaunched, t0),
                              timeRunning := ShiftOpt(t.body.timeRunning, t0),
                              timeReturned := ShiftOpt(t.body.timeReturned, t0)))),
       seq(|db.status|, k requires 0 <= k < |db.status| =>
           var s := db.status[k];
           s.(body := s.body.(timestamp := s.body.timestamp - t0))),
       seq(|db.resource|, k requires 0 <= k < |db.resource| =>
           var s := db.resource[k];
           s.(body := s.body.(timestamp := s.body.timestamp - t0))))
  }

  /** After the shift a workflow end is still `None` only when every end
      was; as soon as one end is recorded, every missing end is NaN. */
  lemma ShiftedNullsOnlyWhenAllNull(db: Db<nat>, t0: real)
    ensures var wf := ShiftDb(db, t0).workflow;
      && (AllNull(db.workflow) <==> AllNull(wf))
      && (!AllNull(db.workflow) ==> forall k :: 0 <= k < |wf| ==> !wf[k].body.timeCompleted.Null?)
  {
  }

  function Timestamps(res: seq<Keyed<nat, ResourceRow>>): (ts: seq<real>)
    ensures |ts| == |res| && forall k :: 0 <= k < |res| ==> ts[k] == res[k].body.timestamp
  {
    seq(|res|, k requires 0 <= k < |res| => res[k].body.timestamp)
  }

  /** Python's `max` of a non-empty sequence. */
  function Max(s: seq<real>): (m: real)
    requires |s| > 0
    ensures m in s && forall k :: 0 <= k < |s| ==> s[k] <= m
  {
    if |s| == 1 then s[0]
    else
      var m := Max(s[..|s| - 1]);
      assert s[..|s| - 1] <= s;
      if s[|s| - 1] > m then s[|s| - 1] else m
  }

  /** The timestamps strictly below `bound`, in order. */
  function Below(s: seq<real>, bound: real): (b: seq<real>)
    ensures forall k :: 0 <= k < |b| ==> b[k] in s && b[k] < bound
    ensures forall k :: 0 <= k < |s| && s[k] < bound ==> s[k] in b
  {
    if |s| == 0 then []
    else (if s[0] < bound then [s[0]] else []) + Below(s[1..], bound)
  }

  /** The end time of workflow `i` as the fill loop leaves it. Only a
      `None` end (`is None`) is filled: with the largest resource timestamp,
      or the largest one below the next workflow's start when there is a
      next workflow. `Err` is the `max()` of an empty selection. A recorded
      end and a NaN end are kept. */
  function EndOf(wf: seq<Keyed<nat, WorkflowRow>>, ts: seq<real>, i: nat): (r: Result<Cell, ()>)
    requires i < |wf|
    ensures !wf[i].body.timeCompleted.Null? ==> r == Ok(wf[i].body.timeCompleted)
    ensures r.Ok? ==> r.value.Num? || r.value.NaN?
    ensures wf[i].body.timeCompleted.Null? && i + 1 == |wf| ==>
              (r.Ok? <==> |ts| > 0)
              && (r.Ok? ==> r.value.Num? && r.value.v in ts && forall k :: 0 <= k < |ts| ==> ts[k] <= r.value.v)
    ensures wf[i].body.timeCompleted.Null? && i + 1 < |wf| ==>
              var b := wf[i + 1].body.timeBegan;
              (r.Ok? <==> exists k :: 0 <= k < |ts| && ts[k] < b)
              && (r.Ok? ==> r.value.Num? && r.value.v in ts && r.value.v < b
                            && forall k :: 0 <= k < |ts| && ts[k] < b ==> ts[k] <= r.value.v)
  {
    if !wf[i].body.timeCompleted.Null? then Ok(wf[i].body.timeCompleted)
    else if |ts| == 0 then Err(())
    else if i + 1 < |wf| then
      var below := Below(ts, wf[i + 1].body.timeBegan);
      if |below| == 0 then Err(()) else Ok(Num(Max(below)))
    else Ok(Num(Max(ts)))
  }

  datatype Filled = Filled(rows: seq<Keyed<nat, WorkflowRow>>, ranges: seq<TimeRange>, gap: Option<nat>)

  /** The workflow loop of `fix_times` over workflows `0 .. n-1`: each
      `None` end is filled and each workflow's range appended, in order; the
      loop stops at the first workflow whose end cannot be recovered, leaving
      the earlier workflows filled and their ranges appended. */
  function FillEnds(wf: seq<Keyed<nat, WorkflowRow>>, ts: seq<real>, n: nat): (f: Filled)
    requires n <= |wf|
    ensures |f.rows| == |wf|
    ensures f.gap.None? ==> |f.ranges| == n
    ensures f.gap.Some? ==> f.gap.value < n && |f.ranges| == f.gap.value && EndOf(wf, ts, f.gap.value).Err?
    ensures forall k :: 0 <= k < |f.ranges| ==>
              && EndOf(wf, ts, k).Ok?
              && f.ranges[k] == TimeRange(wf[k].body.timeBegan, EndOf(wf, ts, k).value)
              && f.rows[k] == wf[k].(body := wf[k].body.(timeCompleted := EndOf(wf, ts, k).value))
    ensures forall k :: |f.ranges| <= k < |wf| ==> f.rows[k] == wf[k]
  {
    if n == 0 then Filled(wf, [], None)
    else
      var f := FillEnds(wf, ts, n - 1);
      if f.gap.Some? then f
      else
        match EndOf(wf, ts, n - 1)
        case Err(_) => Filled(f.rows, f.ranges, Some(n - 1))
        case Ok(t) =>
          var w := wf[n - 1];
          var rows := f.rows[n - 1 := w.(body := w.body.(timeCompleted := t))];
          var ranges := f.ranges + [TimeRange(w.body.timeBegan, t)];
          assert forall k :: 0 <= k < n - 1 ==> ranges[k] == f.ranges[k] && rows[k] == f.rows[k];
          assert forall k :: n <= k < |wf| ==> rows[k] == f.rows[k];
          Filled(rows, ranges, None)
  }

  /** The fill stops exactly when some end cannot be recovered. */
  lemma FillEndsGap(wf: seq<Keyed<nat, WorkflowRow>>, ts: seq<real>)
    ensures FillEnds(wf, ts, |wf|).gap.Some? <==> exists k :: 0 <= k < |wf| && EndOf(wf, ts, k).Err?
  {
    var f := FillEnds(wf, ts, |wf|);
    if f.gap.None? {
      forall k | 0 <= k < |wf| ensures EndOf(wf, ts, k).Ok? {
        assert k < |f.ranges|;
      }
    }
  }

  /** Range `k`'s end is the latest timestamp before range `k+1` starts, or
      the latest of all for the last range. */
  predicate RecoveredEnd(r: seq<TimeRange>, ts: seq<real>, k: nat)
    requires k < |r|
  {
    var e := r[k].completed;
    && e.Num? && e.v in ts
    && (k + 1 < |r| ==>
          e.v < r[k + 1].began && forall i :: 0 <= i < |ts| && ts[i] < r[k + 1].began ==> ts[i] <= e.v)
    && (k + 1 == |r| ==> forall i :: 0 <= i < |ts| ==> ts[i] <= e.v)
  }

  /** When every end is missing and the fill completes, every end is
      recovered from the timestamps. */
  lemma AllNullRecovered(wf: seq<Keyed<nat, WorkflowRow>>, ts: seq<real>)
    requires AllNull(wf) && FillEnds(wf, ts, |wf|).gap.None?
    ensures forall k :: 0 <= k < |wf| ==> RecoveredEnd(FillEnds(wf, ts, |wf|).ranges, ts, k)
  {
    var f := FillEnds(wf, ts, |wf|);
    forall k | 0 <= k < |wf| ensures RecoveredEnd(f.ranges, ts, k) {
      assert wf[k].body.timeCompleted.Null?;
      assert EndOf(wf, ts, k).Ok?;
      if k + 1 < |wf| {
        assert f.ranges[k + 1].began == wf[k + 1].body.timeBegan;
      }
    }
  }

  /** With no `None` end, nothing is filled and nothing fails: each range is
      the workflow's (start, end) pair, NaN ends included. */
  lemma {:induction false} NoneNull(wf: seq<Keyed<nat, WorkflowRow>>, ts: seq<real>, n: nat)
    requires n <= |wf|
    requires forall k :: 0 <= k < |wf| ==> !wf[k].body.timeCompleted.Null?
    ensures FillEnds(wf, ts, n).gap.None?
    ensures FillEnds(wf, ts, n).rows == wf
    ensures forall k :: 0 <= k < n ==> FillEnds(wf, ts, n).ranges[k] == TimeRange(wf[k].body.timeBegan, wf[k].body.timeCompleted)
  {
    if n > 0 {
      NoneNull(wf, ts, n - 1);
      var w := wf[n - 1];
      assert w.(body := w.body.(timeCompleted := w.body.timeCompleted)) == w;
    }
  }

  /** The shift then the fill, as `fix_times` runs them: once any workflow
      has a recorded end, no missing end is recovered. Each workflow keeps
      its shifted end, and a workflow whose end was missing gets the range
      `(start, NaN)`. */
  lemma MixedEndsNotFilled(db: Db<nat>, t0: real)
    requires !AllNull(db.workflow)
    ensures var sh := ShiftDb(db, t0);
      var f := FillEnds(sh.workflow, Timestamps(sh.resource), |sh.workflow|);
      && f.gap.None? && f.rows == sh.workflow
      && |f.ranges| == |db.workflow|
      && forall k :: 0 <= k < |db.workflow| ==>
           && f.ranges[k].began == db.workflow[k].body.timeBegan - t0
           && (db.workflow[k].body.timeCompleted.Null? ==> f.ranges[k].completed == NaN)
  {
    var sh := ShiftDb(db, t0);
    ShiftedNullsOnlyWhenAllNull(db, t0);
    NoneNull(sh.workflow, Timestamps(sh.resource), |sh.workflow|);
  }
}
