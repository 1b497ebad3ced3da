/** `taskproc`: the time-ordered resource samples of one task of one run, with
    the binning offset, the clock time since the try started running, sample
    numbering, and optionally per-sample deltas of the cumulative counters. */
module Trajectory {
  import opened Wrappers
  import opened Tables
  import opened PyMath
  import opened Sorting
  import opened Differences
  import opened Times

  /** One row of a taskproc table. `clock` is the time since the try started
      running (or its delta); `None` stands for a missing value (NaN). */
  datatype TrajRow = TrajRow(timestamp: real, run: nat, taskIdx: Option<nat>, taskId: int, tryId: int,
                             toff: real, clock: Option<real>, nsam: nat, isam: nat,
                             pid: int, status: string,
                             memPercent: real, memResident: real, memVirtual: real,
                             counters: Counters)

  datatype TrajError =
    | NoSamples             // no resource rows for the task: `None` is returned
    | InconsistentInterval  // a sample's monitoring interval differs: raises
    | OffsetLoopDiverges    // a non-positive interval above -2 s: the offset loop never ends

  predicate Matches<B>(row: Keyed<nat, B>, runidx: int, taskid: int, taskIdOf: B -> int) {
    row.run == runidx && taskIdOf(row.body) == taskid
  }

  /** The rows of one run and task id, in table order. */
  function Select<B(==,!new)>(rows: seq<Keyed<nat, B>>, runidx: int, taskid: int, taskIdOf: B -> int): (r: seq<Keyed<nat, B>>)
    ensures forall x :: multiset(r)[x] == if Matches(x, runidx, taskid, taskIdOf) then multiset(rows)[x] else 0
  {
    if |rows| == 0 then []
    else
      var p := Select(rows[..|rows| - 1], runidx, taskid, taskIdOf);
      var last := rows[|rows| - 1];
      assert rows == rows[..|rows| - 1] + [last];
      if Matches(last, runidx, taskid, taskIdOf) then p + [last] else p
  }

  function TimeOf(r: Keyed<nat, ResourceRow>): real { r.body.timestamp }

  /** The task's resource samples ordered by timestamp. */
  function Samples(res: seq<Keyed<nat, ResourceRow>>, runidx: int, taskid: int): (s: seq<Keyed<nat, ResourceRow>>)
    ensures SortedBy(s, TimeOf)
    ensures forall x :: multiset(s)[x] == if Matches(x, runidx, taskid, ResourceTaskId) then multiset(res)[x] else 0
  {
    SortBy(Select(res, runidx, taskid, ResourceTaskId), TimeOf)
  }

  // ---- The binning offset ----

  /** How far apart the phases of samples `i-1` and `i` are within a bin of
      width `dt` once shifted by `toff`. */
  function Jump(ts: seq<real>, i: nat, toff: real, dt: real): real
    requires dt > 0.0 && 1 <= i < |ts|
  {
    Abs(PyMod(ts[i] + toff, dt) - PyMod(ts[i - 1] + toff, dt))
  }

  /** The largest jump over samples `2 .. n-1` (the first difference is skipped). */
  function MaxJump(ts: seq<real>, n: nat, toff: real, dt: real): (m: real)
    requires dt > 0.0 && 2 < n <= |ts|
    ensures forall i :: 2 <= i < n ==> Jump(ts, i, toff, dt) <= m
    ensures exists i :: 2 <= i < n && m == Jump(ts, i, toff, dt)
  {
    var d := Jump(ts, n - 1, toff, dt);
    if n == 3 then d
    else
      var m := MaxJump(ts, n - 1, toff, dt);
      if d > m then d else m
  }

  /** Under this offset no two consecutive samples (from the second on) are
      half a bin or more apart in phase. */
  predicate Aligned(ts: seq<real>, toff: real, dt: real)
    requires dt > 0.0 && |ts| > 2
  {
    MaxJump(ts, |ts|, toff, dt) < dt / 2.0
  }

  function OffsetStep(dt: real): real { Min(1.0, 0.1 * dt) }
  function OffsetBound(dt: real): real { dt / 2.0 + 1.0 }

  /** The `k`-th offset tried. */
  function Cand(k: nat, dt: real): real { k as real * OffsetStep(dt) }

  function CandLimit(dt: real): int
    requires dt > 0.0
  {
    (OffsetBound(dt) / OffsetStep(dt)).Floor + 1
  }

  lemma CandBelowLimit(k: nat, dt: real)
    requires dt > 0.0 && Cand(k, dt) <= OffsetBound(dt)
    ensures k < CandLimit(dt)
  {
    var s := OffsetStep(dt);
    var b := OffsetBound(dt);
    assert s > 0.0;
    assert k as real * s <= (b / s) * s;
  }

  lemma CandNext(j: nat, dt: real)
    requires dt > 0.0
    ensures 0.0 <= Cand(j, dt) && Cand(j + 1, dt) == Cand(j, dt) + OffsetStep(dt)
  {
    assert (j + 1) as real * OffsetStep(dt) == j as real * OffsetStep(dt) + OffsetStep(dt);
  }

  /** The search loop from the `k`-th offset on. */
  function Search(ts: seq<real>, dt: real, k: nat): (r: (real, bool))
    requires dt > 0.0 && |ts| > 2
    decreases CandLimit(dt) - k
  {
    if Aligned(ts, Cand(k, dt), dt) then (Cand(k, dt), false)
    else if Cand(k, dt) > OffsetBound(dt) then (0.0, true)
    else
      CandBelowLimit(k, dt);
      Search(ts, dt, k + 1)
  }

  /** Offset `j` is examined: every earlier offset was within the bound. */
  predicate Examined(j: nat, dt: real) {
    forall i :: 0 <= i < j ==> Cand(i, dt) <= OffsetBound(dt)
  }

  lemma {:induction false} SearchResult(ts: seq<real>, dt: real, k: nat)
    requires dt > 0.0 && |ts| > 2
    requires Examined(k, dt)
    requires forall i :: 0 <= i < k ==> !Aligned(ts, Cand(i, dt), dt)
    ensures var r := Search(ts, dt, k);
      && (!r.1 ==>
            exists j :: k <= j && r.0 == Cand(j, dt) && Examined(j, dt) && Aligned(ts, Cand(j, dt), dt)
              && forall i :: 0 <= i < j ==> !Aligned(ts, Cand(i, dt), dt))
      && (r.1 ==>
            && r.0 == 0.0
            && exists j :: k <= j && Examined(j, dt) && OffsetBound(dt) < Cand(j, dt)
                 && forall i :: 0 <= i <= j ==> !Aligned(ts, Cand(i, dt), dt))
    decreases CandLimit(dt) - k
  {
    if Aligned(ts, Cand(k, dt), dt) {
    } else if Cand(k, dt) > OffsetBound(dt) {
    } else {
      CandBelowLimit(k, dt);
      assert Examined(k + 1, dt);
      SearchResult(ts, dt, k + 1);
    }
  }

  /** The offset added to the timestamps before binning, and whether the
      search gave up. With at most two samples there is nothing to align. */
  function FindOffset(ts: seq<real>, dt: real): (r: Result<(real, bool), TrajError>)
    ensures |ts| <= 2 ==> r == Ok((0.0, false))
    ensures r.Err? <==> |ts| > 2 && -2.0 <= dt <= 0.0
  {
    if |ts| <= 2 then Ok((0.0, false))
    else if dt > 0.0 then Ok(Search(ts, dt, 0))
    else if OffsetBound(dt) < 0.0 then Ok((0.0, true))
    else Err(OffsetLoopDiverges)
  }

  /** With a positive interval the offset found is the first candidate
      `k * min(1, dt/10)` that aligns the samples; if every candidate up to
      the first beyond `dt/2 + 1` fails, the search gives up with offset 0. */
  lemma FindOffsetFirstAligned(ts: seq<real>, dt: real)
    requires dt > 0.0 && |ts| > 2
    ensures FindOffset(ts, dt).Ok?
    ensures var r := FindOffset(ts, dt).value;
      && (!r.1 ==>
            exists j: nat :: r.0 == Cand(j, dt) && Examined(j, dt) && Aligned(ts, Cand(j, dt), dt)
              && forall i :: 0 <= i < j ==> !Aligned(ts, Cand(i, dt), dt))
      && (r.1 ==>
            && r.0 == 0.0
            && exists j: nat :: Examined(j, dt) && OffsetBound(dt) < Cand(j, dt)
                 && forall i :: 0 <= i <= j ==> !Aligned(ts, Cand(i, dt), dt))
  {
    SearchResult(ts, dt, 0);
  }

  /** The offset found never exceeds the search bound by more than a step. */
  lemma FindOffsetBounds(ts: seq<real>, dt: real)
    requires dt > 0.0 && |ts| > 2
    ensures 0.0 <= FindOffset(ts, dt).value.0 <= OffsetBound(dt) + OffsetStep(dt)
  {
    SearchResult(ts, dt, 0);
    var r := FindOffset(ts, dt).value;
    if !r.1 {
      var j: nat :| r.0 == Cand(j, dt) && Examined(j, dt);
      CandNext(j, dt);
      if j > 0 {
        assert Cand(j - 1, dt) <= OffsetBound(dt);
        CandNext(j - 1, dt);
      } else {
        assert OffsetStep(dt) > 0.0;
      }
    }
  }

  // ---- The table ----

  /** The running time of the task's try when it has exactly one try row:
      `squeeze()` then gives that row's value. A null is NaN. */
  function RunningTime(tries: seq<Keyed<nat, TryRow>>, runidx: int, taskid: int): (t0: Option<real>)
    requires |Select(tries, runidx, taskid, TryTaskId)| == 1
    ensures exists k :: 0 <= k < |tries| && Matches(tries[k], runidx, taskid, TryTaskId)
                        && tries[k].body.timeRunning == t0
  {
    var sel := Select(tries, runidx, taskid, TryTaskId);
    assert sel[0] in multiset(sel);
    sel[0].body.timeRunning
  }

  /** The try row labelled `k`, when it is one of the task's tries: the try
      table's labels are its positions. */
  function LabelledRunning(tries: seq<Keyed<nat, TryRow>>, runidx: int, taskid: int, k: nat): Option<real> {
    if k < |tries| && Matches(tries[k], runidx, taskid, TryTaskId) then tries[k].body.timeRunning else None
  }

  function Since(t: real, t0: Option<real>): (r: Option<real>)
    ensures r.Some? <==> t0.Some?
    ensures r.Some? ==> r.value == t - t0.value
  {
    match t0
    case None => None
    case Some(v) => Some(t - v)
  }

  /** `olddf['timestamp'] - t0` as assigned to the table, whose labels are
      the sample positions. With exactly one try row `t0` is a number and
      every sample is measured from it. With none or several, `squeeze()`
      leaves a series labelled by try-table position, pandas aligns the two
      by label, and sample `k` is measured from the running time of try row
      `k` when that row is one of the task's tries, and is NaN otherwise. */
  function SinceRunning(ts: seq<real>, tries: seq<Keyed<nat, TryRow>>, runidx: int, taskid: int): (c: seq<Option<real>>)
    ensures |c| == |ts|
    ensures |Select(tries, runidx, taskid, TryTaskId)| == 1 ==>
      forall k :: 0 <= k < |ts| ==> c[k] == Since(ts[k], RunningTime(tries, runidx, taskid))
    ensures |Select(tries, runidx, taskid, TryTaskId)| != 1 ==>
      forall k :: 0 <= k < |ts| ==>
        && (c[k].Some? <==> k < |tries| && Matches(tries[k], runidx, taskid, TryTaskId)
                            && tries[k].body.timeRunning.Some?)
        && (c[k].Some? ==> c[k].value == ts[k] - tries[k].body.timeRunning.value)
  {
    if |Select(tries, runidx, taskid, TryTaskId)| == 1 then
      var t0 := RunningTime(tries, runidx, taskid);
      seq(|ts|, k requires 0 <= k < |ts| => Since(ts[k], t0))
    else
      seq(|ts|, k requires 0 <= k < |ts| => Since(ts[k], LabelledRunning(tries, runidx, taskid, k)))
  }

  /** A task tried twice, its tries the first two rows of the try table,
      with three samples: the first two samples are measured from the
      running times of tries 0 and 1, and the third has no clock. */
  lemma RetryClockByLabel(ts: seq<real>, a: TryRow, b: TryRow, runidx: nat)
    requires |ts| == 3 && a.taskId == b.taskId
    requires a.timeRunning.Some? && b.timeRunning.Some?
    ensures var tries := [Keyed(runidx, a), Keyed(runidx, b)];
      SinceRunning(ts, tries, runidx, a.taskId)
        == [Some(ts[0] - a.timeRunning.value), Some(ts[1] - b.timeRunning.value), None]
  {
    var tries := [Keyed(runidx, a), Keyed(runidx, b)];
    var sel := Select(tries, runidx, a.taskId, TryTaskId);
    assert multiset(sel)[tries[0]] >= 1;
    if a == b {
      assert multiset(sel)[tries[0]] == 2;
    } else {
      assert multiset(sel)[tries[1]] == 1;
    }
    assert |sel| == |multiset(sel)| >= 2;
  }

  /** The clock column: time since the try started running, or its deltas. */
  function Clocks(since: seq<Option<real>>, dodelta: bool): (c: seq<Option<real>>)
    ensures |c| == |since|
  {
    if dodelta then OptDeltas(since) else since
  }

  function CounterSeq(s: seq<Keyed<nat, ResourceRow>>): (cs: seq<Counters>)
    ensures |cs| == |s| && forall i :: 0 <= i < |s| ==> cs[i] == s[i].body.counters
  {
    seq(|s|, i requires 0 <= i < |s| => s[i].body.counters)
  }

  predicate IntervalsAre(s: seq<Keyed<nat, ResourceRow>>, dt: real) {
    forall i :: 0 <= i < |s| ==> s[i].body.interval == dt
  }

  /** The taskproc rows built from the ordered samples `s` with monitoring
      interval `dt`. */
  function BuildRows(s: seq<Keyed<nat, ResourceRow>>, toff: real, clocks: seq<Option<real>>,
                     counters: seq<Counters>): (rows: seq<TrajRow>)
    requires |clocks| == |s| && |counters| == |s|
    ensures |rows| == |s|
  {
    seq(|s|, i requires 0 <= i < |s| =>
      var b := s[i].body;
      TrajRow(b.timestamp, s[i].run, b.taskIdx, b.taskId, b.tryId, toff, clocks[i], |s|, i,
              b.pid, b.status, b.memPercent, b.memResident, b.memVirtual, counters[i]))
  }

  /** The taskproc table of one task from its ordered samples. */
  function TaskProc(s: seq<Keyed<nat, ResourceRow>>, tries: seq<Keyed<nat, TryRow>>,
                    runidx: int, taskid: int, dt: real, dodelta: bool): (r: Result<seq<TrajRow>, TrajError>)
    ensures r.Err? <==> |s| == 0 || !IntervalsAre(s, dt) || FindOffset(Timestamps(s), dt).Err?
    ensures r == Err(NoSamples) <==> |s| == 0
    ensures r.Ok? ==>
      && |r.value| == |s|
      && forall i :: 0 <= i < |s| ==>
           && r.value[i].timestamp == s[i].body.timestamp
           && r.value[i].run == s[i].run && r.value[i].taskId == s[i].body.taskId
           && r.value[i].tryId == s[i].body.tryId && r.value[i].taskIdx == s[i].body.taskIdx
           && r.value[i].toff == FindOffset(Timestamps(s), dt).value.0
           && r.value[i].clock == Clocks(SinceRunning(Timestamps(s), tries, runidx, taskid), dodelta)[i]
           && r.value[i].nsam == |s| && r.value[i].isam == i
           && r.value[i].pid == s[i].body.pid && r.value[i].status == s[i].body.status
           && r.value[i].memPercent == s[i].body.memPercent
           && r.value[i].memResident == s[i].body.memResident
           && r.value[i].memVirtual == s[i].body.memVirtual
           && (!dodelta ==> r.value[i].counters == s[i].body.counters)
           && (dodelta ==> r.value[i].counters == CounterDeltas(CounterSeq(s))[i])
  {
    if |s| == 0 then Err(NoSamples)
    else if !IntervalsAre(s, dt) then Err(InconsistentInterval)
    else
      var ts := Timestamps(s);
      match FindOffset(ts, dt)
      case Err(e) => Err(e)
      case Ok(off) =>
        var cs := CounterSeq(s);
        Ok(BuildRows(s, off.0, Clocks(SinceRunning(ts, tries, runidx, taskid), dodelta),
                     if dodelta then CounterDeltas(cs) else cs))
  }

  function TrajCounters(rows: seq<TrajRow>): (cs: seq<Counters>)
    ensures |cs| == |rows| && forall i :: 0 <= i < |rows| ==> cs[i] == rows[i].counters
  {
    seq(|rows|, i requires 0 <= i < |rows| => rows[i].counters)
  }

  function TrajClocks(rows: seq<TrajRow>): (c: seq<Option<real>>)
    ensures |c| == |rows| && forall i :: 0 <= i < |rows| ==> c[i] == rows[i].clock
  {
    seq(|rows|, i requires 0 <= i < |rows| => rows[i].clock)
  }

  /** The delta table is the plain table with its counters replaced by their
      deltas: both succeed or fail together, and summing any delta counter
      column gives back the plain table's cumulative column. */
  lemma DeltaTableSumsToPlain(s: seq<Keyed<nat, ResourceRow>>, tries: seq<Keyed<nat, TryRow>>,
                              runidx: int, taskid: int, dt: real, col: CounterCol)
    ensures TaskProc(s, tries, runidx, taskid, dt, true).Ok? <==> TaskProc(s, tries, runidx, taskid, dt, false).Ok?
    ensures TaskProc(s, tries, runidx, taskid, dt, true).Ok? ==>
      PrefixSums(Column(TrajCounters(TaskProc(s, tries, runidx, taskid, dt, true).value), col))
        == Column(TrajCounters(TaskProc(s, tries, runidx, taskid, dt, false).value), col)
  {
    TaskProcCounters(s, tries, runidx, taskid, dt, true);
    TaskProcCounters(s, tries, runidx, taskid, dt, false);
    if TaskProc(s, tries, runidx, taskid, dt, true).Ok? {
      CounterDeltasRoundTrip(CounterSeq(s), col);
    }
  }

  /** The counter columns of a built table: the samples' counters, or their
      deltas. */
  lemma TaskProcCounters(s: seq<Keyed<nat, ResourceRow>>, tries: seq<Keyed<nat, TryRow>>,
                         runidx: int, taskid: int, dt: real, dodelta: bool)
    ensures TaskProc(s, tries, runidx, taskid, dt, dodelta).Ok? <==>
            |s| > 0 && IntervalsAre(s, dt) && FindOffset(Timestamps(s), dt).Ok?
    ensures TaskProc(s, tries, runidx, taskid, dt, dodelta).Ok? ==>
      TrajCounters(TaskProc(s, tries, runidx, taskid, dt, dodelta).value)
        == if dodelta then CounterDeltas(CounterSeq(s)) else CounterSeq(s)
  {
    var r := TaskProc(s, tries, runidx, taskid, dt, dodelta);
    if r.Ok? {
      var cs := if dodelta then CounterDeltas(CounterSeq(s)) else CounterSeq(s);
      assert |cs| == |s|;
      assert forall i :: 0 <= i < |s| ==> TrajCounters(r.value)[i] == cs[i];
    }
  }

  /** With a clock for every sample (a single try with a running time),
      the delta clock sums back to the plain clock. */
  lemma ClockDeltasSumToClock(since: seq<Option<real>>)
    requires forall i :: 0 <= i < |since| ==> since[i].Some?
    ensures forall i :: 0 <= i < |since| ==> Clocks(since, true)[i].Some?
    ensures PrefixSums(Present(Clocks(since, true))) == Present(Clocks(since, false))
  {
    OptDeltasRoundTrip(since);
  }
}
