/** `taskcounts`: for each try state, a table over a time grid counting, per
    task index, the tries that reached the state strictly before each grid
    time, plus the total over task indices.

    As written, the per-run tables are one dictionary shared by every run
    (`[{}]*nrun`): each run overwrites the previous run's zeroed tables, so
    the final tables use the last run's time grid and count the tries of
    all runs, and every run index returns the same tables. */
module TaskCounts {
  import opened Wrappers
  import opened Seqs
  import opened Tables
  import opened PyMath

  /** One state's table: grid times and `counts[k][c]` for task index `c`. */
  datatype CountTable = CountTable(times: seq<real>, counts: seq<seq<nat>>)

  datatype CountError =
    | BadInterval      // a zero time step: `int()` of an infinite or NaN row count
    | NotANumber       // a run whose end time is NaN: `int()` of a NaN row count
    | MissingRange     // fewer time ranges than workflow names
    | NegativeRows     // a negative row count with a non-empty time column
    | BadTry           // a try row with an unknown run or without a valid task index

  /** Length of `numpy.arange(0, stop, step)` for a non-zero step of either
      sign: `ceil(stop/step)`, or 0 when that is negative. */
  function ArangeLen(stop: real, step: real): nat
    requires step != 0.0
  {
    var c := -((-(stop / step)).Floor);
    if c < 0 then 0 else c
  }

  /** The time grid of a run with range `(t1, t2)` and a step `delt` of
      either sign: `k * delt` for `k < int((t2 - t1)/delt) + 1`, the first
      values of `numpy.arange(0, t2 - t1 + 10*delt, delt)`. A negative row
      count leaves an empty table, which keeps no row when the sliced time
      column is empty too. */
  function Grid(t1: real, t2: real, delt: real): (r: Result<seq<real>, CountError>)
    requires delt != 0.0
    ensures r.Ok? ==> forall k :: 0 <= k < |r.value| ==> r.value[k] == k as real * delt
    ensures r.Ok? && Trunc((t2 - t1) / delt) + 1 > 0 ==> |r.value| == Trunc((t2 - t1) / delt) + 1
  {
    GridRows(Trunc((t2 - t1) / delt) + 1, ArangeLen(t2 - t1 + 10.0 * delt, delt), delt)
  }

  /** The zeroed table's `ntim` rows against the `len` values of the time
      column. */
  function GridRows(ntim: int, len: nat, delt: real): (r: Result<seq<real>, CountError>)
    ensures r.Ok? ==> forall k :: 0 <= k < |r.value| ==> r.value[k] == k as real * delt
    ensures r.Ok? && ntim > 0 ==> |r.value| == ntim
  {
    if ntim >= 0 then Ok(seq(ntim, k requires 0 <= k < ntim => k as real * delt))
    else if len + ntim > 0 then Err(NegativeRows)
    else Ok([])
  }

  /** A negative step counts down from 0 as a positive one counts up: the
      grid of a step `-d` is the grid of `d` negated, for the run with its
      ends swapped. */
  lemma NegativeStepGrid(t1: real, t2: real, d: real)
    requires d > 0.0
    ensures Grid(t1, t2, -d).Ok? <==> Grid(t2, t1, d).Ok?
    ensures Grid(t1, t2, -d).Ok? ==>
      && |Grid(t1, t2, -d).value| == |Grid(t2, t1, d).value|
      && forall k :: 0 <= k < |Grid(t1, t2, -d).value| ==> Grid(t1, t2, -d).value[k] == -Grid(t2, t1, d).value[k]
  {
    var x := (t2 - t1) / -d;
    var y := t2 - t1 + 10.0 * -d;
    DivNeg(t2 - t1, d);
    DivNeg(y, d);
    assert -(t2 - t1) == t1 - t2;
    assert -y == t1 - t2 + 10.0 * d;
    var n := Trunc(x) + 1;
    var len := ArangeLen(y, -d);
    assert len == ArangeLen(t1 - t2 + 10.0 * d, d);
    GridRowsNegated(n, len, d);
  }

  /** With equal ends the grid is the single time 0, whatever the step's
      sign. */
  lemma EqualEndsGrid(t: real, delt: real)
    requires delt != 0.0
    ensures Grid(t, t, delt) == Ok([0.0])
  {
    assert (t - t) / delt == 0.0;
    assert Trunc((t - t) / delt) + 1 == 1;
    var g := GridRows(1, ArangeLen(t - t + 10.0 * delt, delt), delt);
    assert g.Ok? && |g.value| == 1 && g.value[0] == 0.0;
    assert g.value == [0.0];
  }

  lemma GridRowsNegated(ntim: int, len: nat, d: real)
    ensures GridRows(ntim, len, -d).Ok? <==> GridRows(ntim, len, d).Ok?
    ensures GridRows(ntim, len, -d).Ok? ==>
      && |GridRows(ntim, len, -d).value| == |GridRows(ntim, len, d).value|
      && forall k :: 0 <= k < |GridRows(ntim, len, -d).value| ==>
           GridRows(ntim, len, -d).value[k] == -GridRows(ntim, len, d).value[k]
  {
  }

  lemma DivNeg(x: real, d: real)
    requires d > 0.0
    ensures x / -d == (-x) / d
  {
  }

  function Zeros(ntim: nat, ntsk: nat): (z: seq<seq<nat>>)
    ensures |z| == ntim && forall k :: 0 <= k < ntim ==> |z[k]| == ntsk && forall c :: 0 <= c < ntsk ==> z[k][c] == 0
  {
    seq(ntim, _ => seq(ntsk, _ => 0))
  }

  /** `tab.loc[tab['time'] > t, c] += 1`: a missing time selects nothing. */
  function AddTry(counts: seq<seq<nat>>, times: seq<real>, c: nat, t: Option<real>): (r: seq<seq<nat>>)
    requires |counts| == |times|
    ensures |r| == |counts|
    ensures forall k :: 0 <= k < |r| ==> |r[k]| == |counts[k]|
  {
    seq(|counts|, k requires 0 <= k < |counts| =>
      if t.Some? && times[k] > t.value && c < |counts[k]| then counts[k][c := counts[k][c] + 1]
      else counts[k])
  }

  predicate TryValid(row: Keyed<nat, TryRow>, nrun: nat, ntsk: nat) {
    row.run < nrun && row.body.taskIdx.Some? && row.body.taskIdx.value < ntsk
  }

  /** The try loop for one state, in table order. */
  function Fill(counts: seq<seq<nat>>, times: seq<real>, tries: seq<Keyed<nat, TryRow>>, st: State): (r: seq<seq<nat>>)
    requires |counts| == |times|
    ensures |r| == |counts|
    ensures forall k :: 0 <= k < |r| ==> |r[k]| == |counts[k]|
  {
    if |tries| == 0 then counts
    else
      var last := tries[|tries| - 1];
      var c := if last.body.taskIdx.Some? then last.body.taskIdx.value else 0;
      AddTry(Fill(counts, times, tries[..|tries| - 1], st), times, c, StateTime(last.body, st))
  }

  /** Reference count: tries with task index `c` that reached state `st`
      strictly before time `t`. */
  function Reached(tries: seq<Keyed<nat, TryRow>>, st: State, c: nat, t: real): nat {
    if |tries| == 0 then 0
    else
      var last := tries[|tries| - 1].body;
      Reached(tries[..|tries| - 1], st, c, t)
        + (if last.taskIdx == Some(c) && StateTime(last, st).Some? && t > StateTime(last, st).value then 1 else 0)
  }

  /** Tries of any task index that reached `st` before `t`. */
  function ReachedAny(tries: seq<Keyed<nat, TryRow>>, st: State, t: real): nat {
    if |tries| == 0 then 0
    else
      var last := tries[|tries| - 1].body;
      ReachedAny(tries[..|tries| - 1], st, t)
        + (if StateTime(last, st).Some? && t > StateTime(last, st).value then 1 else 0)
  }

  /** The try loop fills cell `(k, c)` with the reference count. */
  lemma {:induction false} FillIsReached(ntsk: nat, times: seq<real>, tries: seq<Keyed<nat, TryRow>>, st: State,
                                         k: nat, c: nat)
    requires forall i :: 0 <= i < |tries| ==> TryValid(tries[i], tries[i].run + 1, ntsk)
    requires k < |times| && c < ntsk
    ensures Fill(Zeros(|times|, ntsk), times, tries, st)[k][c] == Reached(tries, st, c, times[k])
  {
    if |tries| > 0 {
      var p := tries[..|tries| - 1];
      assert forall i :: 0 <= i < |p| ==> p[i] == tries[i];
      FillIsReached(ntsk, times, p, st, k, c);
    }
  }

  function CountWith(tries: seq<Keyed<nat, TryRow>>, st: State, t: real, n: nat): nat {
    if n == 0 then 0 else CountWith(tries, st, t, n - 1) + Reached(tries, st, n - 1, t)
  }

  lemma {:induction false} CountWithSplit(tries: seq<Keyed<nat, TryRow>>, st: State, t: real, n: nat)
    requires |tries| > 0
    ensures var p := tries[..|tries| - 1];
      var last := tries[|tries| - 1].body;
      CountWith(tries, st, t, n) == CountWith(p, st, t, n)
        + (if last.taskIdx.Some? && last.taskIdx.value < n && StateTime(last, st).Some? && t > StateTime(last, st).value
           then 1 else 0)
  {
    if n > 0 {
      CountWithSplit(tries, st, t, n - 1);
    }
  }

  /** With every try's task index below `n`, the per-index counts add up to
      the count over all tries. */
  lemma {:induction false} CountWithAll(tries: seq<Keyed<nat, TryRow>>, st: State, t: real, n: nat)
    requires forall i :: 0 <= i < |tries| ==> tries[i].body.taskIdx.Some? && tries[i].body.taskIdx.value < n
    ensures CountWith(tries, st, t, n) == ReachedAny(tries, st, t)
  {
    if |tries| == 0 {
      CountWithEmpty(tries, st, t, n);
    } else {
      var p := tries[..|tries| - 1];
      assert forall i :: 0 <= i < |p| ==> p[i] == tries[i];
      CountWithAll(p, st, t, n);
      CountWithSplit(tries, st, t, n);
    }
  }

  lemma {:induction false} CountWithEmpty(tries: seq<Keyed<nat, TryRow>>, st: State, t: real, n: nat)
    requires |tries| == 0
    ensures CountWith(tries, st, t, n) == 0
  {
    if n > 0 {
      CountWithEmpty(tries, st, t, n - 1);
    }
  }

  /** The `all` column. */
  function Totals(counts: seq<seq<nat>>): (a: seq<nat>)
    ensures |a| == |counts| && forall k :: 0 <= k < |counts| ==> a[k] == Sum(counts[k])
  {
    seq(|counts|, k requires 0 <= k < |counts| => Sum(counts[k]))
  }

  predicate AllTriesValid(tries: seq<Keyed<nat, TryRow>>, nrun: nat, ntsk: nat) {
    forall i :: 0 <= i < |tries| ==> TryValid(tries[i], nrun, ntsk)
  }

  /** The tables of the three states. */
  datatype ByState = ByState(launched: CountTable, running: CountTable, returned: CountTable) {
    function For(st: State): CountTable {
      match st
      case Launched => launched
      case Running => running
      case Returned => returned
    }
  }

  /** The tables after the rebuild: the last run's grid, filled with the
      tries of every run. `Err` when no table can be built. */
  function Build(ranges: seq<(real, Option<real>)>, nrun: nat, ntsk: nat, tries: seq<Keyed<nat, TryRow>>,
                 delt: real): (r: Result<ByState, CountError>)
    requires nrun > 0
    ensures r.Ok? ==> delt != 0.0 && nrun <= |ranges| && AllTriesValid(tries, nrun, ntsk)
    ensures r.Ok? ==> forall i :: 0 <= i < nrun ==> ranges[i].1.Some?
    ensures delt == 0.0 ==> r == Err(BadInterval)
  {
    if delt == 0.0 then Err(BadInterval)
    else if |ranges| < nrun then Err(MissingRange)
    else
      match LastGrid(ranges, nrun, delt)
      case Err(e) => Err(e)
      case Ok(times) =>
        if !AllTriesValid(tries, nrun, ntsk) then Err(BadTry)
        else
          var z := Zeros(|times|, ntsk);
          Ok(ByState(CountTable(times, Fill(z, times, tries, Launched)),
                     CountTable(times, Fill(z, times, tries, Running)),
                     CountTable(times, Fill(z, times, tries, Returned))))
  }

  /** The grids of runs `0 .. n-1` are built in order; the first failure is
      reported, and otherwise the last one is kept. A NaN end is missing. */
  function LastGrid(ranges: seq<(real, Option<real>)>, n: nat, delt: real): (r: Result<seq<real>, CountError>)
    requires delt != 0.0 && 0 < n <= |ranges|
    ensures r.Ok? ==> forall i :: 0 <= i < n ==> ranges[i].1.Some?
    ensures r.Ok? ==> r == Grid(ranges[n - 1].0, ranges[n - 1].1.value, delt)
  {
    var prev := if n == 1 then Ok([]) else LastGrid(ranges, n - 1, delt);
    if prev.Err? then prev
    else
      match ranges[n - 1].1
      case None => Err(NotANumber)
      case Some(t2) => Grid(ranges[n - 1].0, t2, delt)
  }

  /** Each cell counts the tries, of any run, with that task index that
      reached the state strictly before the grid time, and the `all` column
      counts the tries of every task index. */
  lemma BuildCounts(ranges: seq<(real, Option<real>)>, nrun: nat, ntsk: nat, tries: seq<Keyed<nat, TryRow>>,
                    delt: real, st: State, k: nat, c: nat)
    requires nrun > 0 && Build(ranges, nrun, ntsk, tries, delt).Ok?
    ensures var tab := Build(ranges, nrun, ntsk, tries, delt).value.For(st);
      && ranges[nrun - 1].1.Some?
      && tab.times == Grid(ranges[nrun - 1].0, ranges[nrun - 1].1.value, delt).value
      && |tab.counts| == |tab.times|
      && (k < |tab.times| && c < ntsk ==> tab.counts[k][c] == Reached(tries, st, c, tab.times[k]))
      && (k < |tab.times| ==> |tab.counts[k]| == ntsk)
  {
    var tab := Build(ranges, nrun, ntsk, tries, delt).value.For(st);
    if k < |tab.times| && c < ntsk {
      FillIsReached(ntsk, tab.times, tries, st, k, c);
    }
  }

  /** The row sums (`all`) count every try that reached the state in time. */
  lemma {:induction false} TotalsCountAll(ntsk: nat, times: seq<real>, tries: seq<Keyed<nat, TryRow>>, st: State, k: nat)
    requires forall i :: 0 <= i < |tries| ==> TryValid(tries[i], tries[i].run + 1, ntsk)
    requires k < |times|
    ensures Totals(Fill(Zeros(|times|, ntsk), times, tries, st))[k] == ReachedAny(tries, st, times[k])
  {
    var row := Fill(Zeros(|times|, ntsk), times, tries, st)[k];
    forall c | 0 <= c < ntsk ensures row[c] == Reached(tries, st, c, times[k]) {
      FillIsReached(ntsk, times, tries, st, k, c);
    }
    SumIsCountWith(row, tries, st, times[k], ntsk);
    CountWithAll(tries, st, times[k], ntsk);
  }

  lemma {:induction false} SumIsCountWith(row: seq<nat>, tries: seq<Keyed<nat, TryRow>>, st: State, t: real, n: nat)
    requires |row| == n && forall c :: 0 <= c < n ==> row[c] == Reached(tries, st, c, t)
    ensures Sum(row) == CountWith(tries, st, t, n)
  {
    if n > 0 {
      SumIsCountWith(row[..n - 1], tries, st, t, n - 1);
    }
  }

  /** Counts never decrease along the grid. */
  lemma {:induction false} ReachedMonotone(tries: seq<Keyed<nat, TryRow>>, st: State, c: nat, t: real, u: real)
    requires t <= u
    ensures Reached(tries, st, c, t) <= Reached(tries, st, c, u)
  {
    if |tries| > 0 {
      ReachedMonotone(tries[..|tries| - 1], st, c, t, u);
    }
  }
}
