/** The procsum aggregation: samples are grouped into time bins of the
    monitoring interval, each bin reporting its sample count, its number of
    distinct processes, the run of its first sample and the sums of the
    summed columns; bins without processes are dropped.

    `CutTable` follows the code as written (right-closed `pandas.cut` bins over
    `numpy.arange` edges, which stop one interval short); `FloorTable` is the
    corrected binning in which every sample lands in exactly one bin. */
module Binning {
  import opened Wrappers
  import opened Seqs
  import opened PyMath

  /** One input row of the aggregation. `vals` holds the summed columns. */
  datatype Sample = Sample(t: real, pid: int, run: nat, vals: seq<real>)

  /** One procsum row: the bin centre, `nval`, `nproc`, the first sample's
      run, and the column sums. */
  datatype BinRow = BinRow(timestamp: real, nval: nat, nproc: nat, run: nat, sums: seq<real>)

  function Ceil(x: real): int {
    -((-x).Floor)
  }

  /** Dividing by a positive width and taking the floor locates the width-long
      interval `[m*dt, (m+1)*dt)` holding `t`. */
  lemma FloorDiv(t: real, dt: real, m: int)
    requires dt > 0.0
    ensures (t / dt).Floor == m <==> m as real * dt <= t < (m + 1) as real * dt
  {
    DivLe(m as real, t, dt);
    DivLe((m + 1) as real, t, dt);
  }

  lemma DivLe(a: real, t: real, dt: real)
    requires dt > 0.0
    ensures a <= t / dt <==> a * dt <= t
  {
    var y := t / dt;
    assert y * dt == t;
    if a <= y {
      MulLe(a, y, dt);
    } else {
      MulLt(y, a, dt);
    }
  }

  /** The ceiling locates the interval `((m-1)*dt, m*dt]` holding `t`. */
  lemma CeilDiv(t: real, dt: real, m: int)
    requires dt > 0.0
    ensures Ceil(t / dt) == m <==> (m - 1) as real * dt < t <= m as real * dt
  {
    assert -t / dt == -(t / dt);
    FloorDiv(-t, dt, -m);
    assert (-m) as real * dt == -(m as real * dt);
    assert (-m + 1) as real * dt == -((m - 1) as real * dt);
  }

  function Edge(k1: int, j: int, dt: real): real {
    (k1 + j) as real * dt
  }

  // ---- Grouping by bin index ----

  /** The samples whose bin index is `j`, in input order. */
  function Bucket(samples: seq<Sample>, idxs: seq<int>, j: int): (b: seq<Sample>)
    requires |idxs| == |samples|
    ensures |b| == Count(idxs, j)
  {
    if |samples| == 0 then []
    else
      var n := |samples| - 1;
      var p := Bucket(samples[..n], idxs[..n], j);
      if idxs[n] == j then p + [samples[n]] else p
  }

  function Pids(b: seq<Sample>): (p: seq<int>)
    ensures |p| == |b| && forall i :: 0 <= i < |b| ==> p[i] == b[i].pid
  {
    seq(|b|, i requires 0 <= i < |b| => b[i].pid)
  }

  function ValAt(s: Sample, c: nat): real {
    if c < |s.vals| then s.vals[c] else 0.0
  }

  function ColumnSum(b: seq<Sample>, c: nat): real {
    if |b| == 0 then 0.0 else ColumnSum(b[..|b| - 1], c) + ValAt(b[|b| - 1], c)
  }

  /** The aggregate of one bin: count, distinct pids, first run, column sums. */
  function MakeRow(b: seq<Sample>, centre: real, width: nat): (r: BinRow)
    ensures r.nval == |b| && r.timestamp == centre && |r.sums| == width
    ensures r.nproc == |Distinct(Pids(b))|
    ensures |b| > 0 ==> r.run == b[0].run
    ensures forall c :: 0 <= c < width ==> r.sums[c] == ColumnSum(b, c)
  {
    BinRow(centre, |b|, |Distinct(Pids(b))|, if |b| == 0 then 0 else b[0].run,
           seq(width, c requires 0 <= c < width => ColumnSum(b, c)))
  }

  /** A bin has a process exactly when it has a sample. */
  lemma NprocPositive(b: seq<Sample>)
    ensures |Distinct(Pids(b))| > 0 <==> |b| > 0
  {
    if |b| > 0 {
      assert Pids(b)[0] in Distinct(Pids(b));
    }
  }

  /** One row per bin index below `nb`, centred on its bin. */
  function AllRows(samples: seq<Sample>, idxs: seq<int>, nb: nat, k1: int, dt: real, width: nat): (rows: seq<BinRow>)
    requires |idxs| == |samples|
    ensures |rows| == nb
    ensures forall j :: 0 <= j < nb ==>
      rows[j] == MakeRow(Bucket(samples, idxs, j), Edge(k1, j, dt) + dt / 2.0, width)
  {
    seq(nb, j requires 0 <= j < nb => MakeRow(Bucket(samples, idxs, j), Edge(k1, j, dt) + dt / 2.0, width))
  }

  /** The `query('nproc>0')` step. */
  function KeepNonEmpty(rows: seq<BinRow>): (r: seq<BinRow>)
    ensures forall i :: 0 <= i < |r| ==> r[i].nproc > 0
    ensures forall i :: 0 <= i < |rows| && rows[i].nproc > 0 ==> rows[i] in r
    ensures forall i :: 0 <= i < |r| ==> r[i] in rows
  {
    if |rows| == 0 then []
    else
      var p := KeepNonEmpty(rows[..|rows| - 1]);
      var last := rows[|rows| - 1];
      assert forall i :: 0 <= i < |rows| - 1 ==> rows[i] == rows[..|rows| - 1][i];
      if last.nproc > 0 then p + [last] else p
  }

  function TotalNval(rows: seq<BinRow>): nat {
    if |rows| == 0 then 0 else TotalNval(rows[..|rows| - 1]) + rows[|rows| - 1].nval
  }

  /** Number of bin indices in `0 .. nb-1`. */
  function CountIn(idxs: seq<int>, nb: nat): nat {
    if |idxs| == 0 then 0
    else CountIn(idxs[..|idxs| - 1], nb) + (if 0 <= idxs[|idxs| - 1] < nb then 1 else 0)
  }

  /** `sum_{j < nb} Count(idxs, j)`. */
  function CountBelow(idxs: seq<int>, nb: nat): nat {
    if nb == 0 then 0 else CountBelow(idxs, nb - 1) + Count(idxs, nb - 1)
  }

  lemma {:induction false} CountBelowSnoc(idxs: seq<int>, x: int, nb: nat)
    ensures CountBelow(idxs + [x], nb) == CountBelow(idxs, nb) + (if 0 <= x < nb then 1 else 0)
  {
    if nb > 0 {
      CountBelowSnoc(idxs, x, nb - 1);
      assert (idxs + [x])[..|idxs|] == idxs;
    }
  }

  /** Counting bin by bin counts every index that names a bin. */
  lemma {:induction false} CountBelowIsCountIn(idxs: seq<int>, nb: nat)
    ensures CountBelow(idxs, nb) == CountIn(idxs, nb)
  {
    if |idxs| == 0 {
      CountBelowEmpty(idxs, nb);
    } else {
      var p := idxs[..|idxs| - 1];
      assert idxs == p + [idxs[|idxs| - 1]];
      CountBelowIsCountIn(p, nb);
      CountBelowSnoc(p, idxs[|idxs| - 1], nb);
    }
  }

  lemma {:induction false} CountBelowEmpty(idxs: seq<int>, nb: nat)
    requires |idxs| == 0
    ensures CountBelow(idxs, nb) == 0
  {
    if nb > 0 {
      CountBelowEmpty(idxs, nb - 1);
    }
  }

  lemma {:induction false} TotalNvalAll(samples: seq<Sample>, idxs: seq<int>, nb: nat, k1: int, dt: real, width: nat)
    requires |idxs| == |samples|
    ensures TotalNval(AllRows(samples, idxs, nb, k1, dt, width)) == CountBelow(idxs, nb)
  {
    if nb > 0 {
      var rows := AllRows(samples, idxs, nb, k1, dt, width);
      assert rows[..nb - 1] == AllRows(samples, idxs, nb - 1, k1, dt, width);
      TotalNvalAll(samples, idxs, nb - 1, k1, dt, width);
    }
  }

  /** Dropping the rows without processes loses no samples. */
  lemma {:induction false} KeepNonEmptyNval(rows: seq<BinRow>)
    requires forall i :: 0 <= i < |rows| ==> (rows[i].nproc > 0 <==> rows[i].nval > 0)
    ensures TotalNval(KeepNonEmpty(rows)) == TotalNval(rows)
  {
    if |rows| > 0 {
      var p := rows[..|rows| - 1];
      KeepNonEmptyNval(p);
      var last := rows[|rows| - 1];
      if last.nproc > 0 {
        var k := KeepNonEmpty(p);
        assert (k + [last])[..|k + [last]| - 1] == k;
      }
    }
  }

  lemma {:induction false} BinnedTotal(samples: seq<Sample>, idxs: seq<int>, nb: nat, k1: int, dt: real, width: nat)
    requires |idxs| == |samples|
    ensures TotalNval(KeepNonEmpty(AllRows(samples, idxs, nb, k1, dt, width))) == CountIn(idxs, nb)
  {
    var rows := AllRows(samples, idxs, nb, k1, dt, width);
    forall i | 0 <= i < |rows| ensures rows[i].nproc > 0 <==> rows[i].nval > 0 {
      NprocPositive(Bucket(samples, idxs, i));
    }
    KeepNonEmptyNval(rows);
    TotalNvalAll(samples, idxs, nb, k1, dt, width);
    CountBelowIsCountIn(idxs, nb);
  }

  // ---- Extremes ----

  function MinT(s: seq<Sample>): (m: real)
    requires |s| > 0
    ensures forall i :: 0 <= i < |s| ==> m <= s[i].t
    ensures exists i :: 0 <= i < |s| && m == s[i].t
  {
    if |s| == 1 then s[0].t
    else
      var p := MinT(s[..|s| - 1]);
      if s[|s| - 1].t < p then s[|s| - 1].t else p
  }

  function MaxT(s: seq<Sample>): (m: real)
    requires |s| > 0
    ensures forall i :: 0 <= i < |s| ==> s[i].t <= m
    ensures exists i :: 0 <= i < |s| && m == s[i].t
  {
    if |s| == 1 then s[0].t
    else
      var p := MaxT(s[..|s| - 1]);
      if s[|s| - 1].t > p then s[|s| - 1].t else p
  }

  // ---- The binning as written ----

  /** The first edge index `int(min/dt)` and the edge count of
      `arange(int(min/dt)*dt, int(max/dt + 1)*dt, dt)`, which is the
      difference of the two indices for a step of either sign. */
  function CutK1(s: seq<Sample>, dt: real): int
    requires |s| > 0 && dt != 0.0
  {
    Trunc(MinT(s) / dt)
  }

  function CutEdges(s: seq<Sample>, dt: real): nat
    requires |s| > 0 && dt != 0.0
  {
    var n := Trunc(MaxT(s) / dt + 1.0) - CutK1(s, dt);
    if n < 0 then 0 else n
  }

  /** The bin `pandas.cut` assigns to `t` given `n` edges `(k1+i)*dt`, or -1
      when `t` lies outside `(edge 0, edge n-1]`. */
  function CutIndex(t: real, k1: int, n: nat, dt: real): (j: int)
    requires dt > 0.0
    ensures -1 <= j
    ensures forall b: nat :: j == b <==> b + 1 < n && Edge(k1, b, dt) < t <= Edge(k1, b + 1, dt)
  {
    var c := Ceil(t / dt) - k1;
    CutIndexBins(t, k1, dt, c);
    if 1 <= c < n then c - 1 else -1
  }

  lemma CutIndexBins(t: real, k1: int, dt: real, c: int)
    requires dt > 0.0 && c == Ceil(t / dt) - k1
    ensures Edge(k1, c - 1, dt) < t <= Edge(k1, c, dt)
    ensures forall b: nat :: Edge(k1, b, dt) < t <= Edge(k1, b + 1, dt) ==> b == c - 1
  {
    CeilDiv(t, dt, c + k1);
    assert Edge(k1, c - 1, dt) == (c + k1 - 1) as real * dt;
    forall b: nat | Edge(k1, b, dt) < t <= Edge(k1, b + 1, dt) ensures b == c - 1 {
      var m := k1 + b + 1;
      assert Edge(k1, b, dt) == (m - 1) as real * dt && Edge(k1, b + 1, dt) == m as real * dt;
      CeilDiv(t, dt, m);
      assert Ceil(t / dt) == m;
    }
  }

  function CutIdxs(s: seq<Sample>, k1: int, n: nat, dt: real): (idxs: seq<int>)
    requires dt > 0.0
    ensures |idxs| == |s| && forall i :: 0 <= i < |s| ==> idxs[i] == CutIndex(s[i].t, k1, n, dt)
  {
    seq(|s|, i requires 0 <= i < |s| => CutIndex(s[i].t, k1, n, dt))
  }

  /** Number of samples in the right-closed window `(lo, hi]`. */
  function CountWindow(s: seq<Sample>, lo: real, hi: real): (c: nat)
    ensures c <= |s|
  {
    if |s| == 0 then 0
    else CountWindow(s[..|s| - 1], lo, hi) + (if lo < s[|s| - 1].t <= hi then 1 else 0)
  }

  /** The as-written bin `j` holds exactly the samples of `(edge j, edge j+1]`. */
  lemma {:induction false} CutBinIsWindow(s: seq<Sample>, k1: int, n: nat, dt: real, j: nat)
    requires dt > 0.0 && j + 1 < n
    ensures Count(CutIdxs(s, k1, n, dt), j) == CountWindow(s, Edge(k1, j, dt), Edge(k1, j + 1, dt))
  {
    if |s| > 0 {
      var p := s[..|s| - 1];
      assert CutIdxs(s, k1, n, dt)[..|s| - 1] == CutIdxs(p, k1, n, dt);
      CutBinIsWindow(p, k1, n, dt, j);
    }
  }

  /** The procsum rows as the code builds them. `None` when there is no
      sample (the minimum of nothing) or the interval is zero (`int` of an
      infinite quotient). A negative interval leaves at most one edge, so
      no bin and an empty table. */
  function CutTable(s: seq<Sample>, dt: real, width: nat): (r: Option<seq<BinRow>>)
    ensures r.Some? <==> |s| > 0 && dt != 0.0
    ensures r.Some? && dt < 0.0 ==> CutBins(CutEdges(s, dt)) == 0 && r.value == []
  {
    if |s| == 0 || dt == 0.0 then None
    else if dt < 0.0 then
      NegativeIntervalNoBins(s, dt);
      Some([])
    else
      var k1 := CutK1(s, dt);
      var n := CutEdges(s, dt);
      var nb := CutBins(n);
      Some(KeepNonEmpty(AllRows(s, CutIdxs(s, k1, n, dt), nb, k1, dt, width)))
  }

  /** Every bin of the as-written table reports the samples of its window
      `(centre - dt/2, centre + dt/2]`, and no row is kept without them. */
  lemma CutTableRows(s: seq<Sample>, dt: real, width: nat, j: nat)
    requires |s| > 0 && dt > 0.0
    requires j + 1 < CutEdges(s, dt)
    ensures var k1 := CutK1(s, dt);
      var n := CutEdges(s, dt);
      var row := AllRows(s, CutIdxs(s, k1, n, dt), n - 1, k1, dt, width)[j];
      && row.timestamp == Edge(k1, j, dt) + dt / 2.0
      && row.nval == CountWindow(s, Edge(k1, j, dt), Edge(k1, j + 1, dt))
      && (row.nproc > 0 <==> row.nval > 0)
      && (row in CutTable(s, dt, width).value <==> row.nval > 0)
  {
    var k1 := CutK1(s, dt);
    var n := CutEdges(s, dt);
    var idxs := CutIdxs(s, k1, n, dt);
    CutBinIsWindow(s, k1, n, dt, j);
    NprocPositive(Bucket(s, idxs, j));
  }

  /** Samples counted by the as-written table are exactly those inside
      `(first edge, last edge]`. */
  lemma CutTableCounts(s: seq<Sample>, dt: real, width: nat)
    requires |s| > 0 && dt > 0.0
    ensures var k1 := CutK1(s, dt);
      var n := CutEdges(s, dt);
      TotalNval(CutTable(s, dt, width).value) == CountIn(CutIdxs(s, k1, n, dt), CutBins(n))
  {
    var k1 := CutK1(s, dt);
    var n := CutEdges(s, dt);
    var nb := CutBins(n);
    BinnedTotal(s, CutIdxs(s, k1, n, dt), nb, k1, dt, width);
  }

  lemma EdgeMono(k1: int, a: int, b: int, dt: real)
    requires dt > 0.0 && a <= b
    ensures Edge(k1, a, dt) <= Edge(k1, b, dt)
  {
    MulLe((k1 + a) as real, (k1 + b) as real, dt);
  }

  /** The number of bins of the as-written table. */
  function CutBins(n: nat): nat {
    if n == 0 then 0 else n - 1
  }

  /** A sample gets a bin exactly when it lies in `(first edge, last edge]`. */
  lemma CutIndexInWindow(t: real, k1: int, n: nat, dt: real)
    requires dt > 0.0
    ensures 0 <= CutIndex(t, k1, n, dt) < CutBins(n) <==> Edge(k1, 0, dt) < t <= Edge(k1, CutBins(n), dt)
  {
    var nb := CutBins(n);
    var c := Ceil(t / dt) - k1;
    CutIndexBins(t, k1, dt, c);
    var j := CutIndex(t, k1, n, dt);
    if 0 <= j < nb {
      EdgeMono(k1, 0, j, dt);
      EdgeMono(k1, j + 1, nb, dt);
    }
    if Edge(k1, 0, dt) < t <= Edge(k1, nb, dt) {
      if c <= 0 {
        EdgeMono(k1, c, 0, dt);
        assert false;
      }
      if c > nb {
        EdgeMono(k1, nb, c - 1, dt);
        assert false;
      }
    }
  }

  /** The as-written table counts the samples of `(first edge, last edge]`. */
  lemma {:induction false} CutCountIsWindow(s: seq<Sample>, k1: int, n: nat, dt: real)
    requires dt > 0.0
    ensures CountIn(CutIdxs(s, k1, n, dt), CutBins(n)) == CountWindow(s, Edge(k1, 0, dt), Edge(k1, CutBins(n), dt))
  {
    if |s| > 0 {
      var p := s[..|s| - 1];
      assert CutIdxs(s, k1, n, dt)[..|s| - 1] == CutIdxs(p, k1, n, dt);
      CutCountIsWindow(p, k1, n, dt);
      CutIndexInWindow(s[|s| - 1].t, k1, n, dt);
    }
  }

  /** The as-written table's total count: the samples inside its window,
      never more than the samples given. With a negative interval the
      window is empty. */
  lemma CutTableTotal(s: seq<Sample>, dt: real, width: nat)
    requires |s| > 0 && dt != 0.0
    ensures var k1 := CutK1(s, dt);
      var nb := CutBins(CutEdges(s, dt));
      TotalNval(CutTable(s, dt, width).value) == CountWindow(s, Edge(k1, 0, dt), Edge(k1, nb, dt)) <= |s|
  {
    if dt > 0.0 {
      CutTableCounts(s, dt, width);
      CutCountIsWindow(s, CutK1(s, dt), CutEdges(s, dt), dt);
    } else {
      EmptyWindow(s, Edge(CutK1(s, dt), 0, dt));
    }
  }

  lemma {:induction false} EmptyWindow(s: seq<Sample>, e: real)
    ensures CountWindow(s, e, e) == 0
  {
    if |s| > 0 {
      EmptyWindow(s[..|s| - 1], e);
    }
  }

  /** With a negative interval `int(max/dt + 1)` is at most one above
      `int(min/dt)`, because `max/dt <= min/dt`: `arange` gives at most
      one edge and `cut` no bin. */
  lemma NegativeIntervalNoBins(s: seq<Sample>, dt: real)
    requires |s| > 0 && dt < 0.0
    ensures CutEdges(s, dt) <= 1 && CutBins(CutEdges(s, dt)) == 0
  {
    var a := MinT(s) / dt;
    var b := MaxT(s) / dt;
    assert MinT(s) <= MaxT(s) by {
      assert MinT(s) <= s[0].t <= MaxT(s);
    }
    DivNegFlips(MinT(s), MaxT(s), dt);
    TruncMono(b + 1.0, a + 1.0);
    TruncStep(a);
  }

  lemma DivNegFlips(x: real, y: real, dt: real)
    requires x <= y && dt < 0.0
    ensures y / dt <= x / dt
  {
    var m := -1.0 / dt;
    MulLe(x, y, m);
    assert x / dt == -(x * m) && y / dt == -(y * m);
  }

  /** Two samples ten seconds apart with a ten-second interval: the edges are
      `arange(0, 20, 10) = [0, 10]`, one bin `(0, 10]`, and the sample at 15 s
      is in no bin. */
  lemma CutTableLosesLastSample()
    ensures var s := [Sample(5.0, 1, 0, []), Sample(15.0, 1, 0, [])];
      TotalNval(CutTable(s, 10.0, 0).value) == 1 < |s|
  {
    var s := [Sample(5.0, 1, 0, []), Sample(15.0, 1, 0, [])];
    ExampleEdges(s);
    ExampleIdxs(s);
    CutTableCounts(s, 10.0, 0);
    ExampleCount();
  }

  lemma ExampleEdges(s: seq<Sample>)
    requires s == [Sample(5.0, 1, 0, []), Sample(15.0, 1, 0, [])]
    ensures CutK1(s, 10.0) == 0 && CutEdges(s, 10.0) == 2
  {
    assert MinT(s) == 5.0 && MaxT(s) == 15.0;
  }

  lemma ExampleIdxs(s: seq<Sample>)
    requires s == [Sample(5.0, 1, 0, []), Sample(15.0, 1, 0, [])]
    ensures CutIdxs(s, 0, 2, 10.0) == [0, -1]
  {
    CeilDiv(5.0, 10.0, 1);
    CeilDiv(15.0, 10.0, 2);
    assert CutIndex(5.0, 0, 2, 10.0) == 0;
    assert CutIndex(15.0, 0, 2, 10.0) == -1;
  }

  lemma ExampleCount()
    ensures CountIn([0, -1], 1) == 1
  {
    assert [0, -1][..1] == [0];
    assert [0][..0] == [];
  }

  // ---- The corrected binning ----

  function FloorIdxs(s: seq<Sample>, k1: int, dt: real): (idxs: seq<int>)
    requires dt > 0.0
    ensures |idxs| == |s| && forall i :: 0 <= i < |s| ==> idxs[i] == (s[i].t / dt).Floor - k1
  {
    seq(|s|, i requires 0 <= i < |s| => (s[i].t / dt).Floor - k1)
  }

  /** Left-closed bins `[k*dt, (k+1)*dt)` from the one holding the earliest
      sample to the one holding the latest. */
  function FloorTable(s: seq<Sample>, dt: real, width: nat): (r: Option<seq<BinRow>>)
    ensures r.Some? <==> |s| > 0 && dt > 0.0
  {
    if |s| == 0 || dt <= 0.0 then None
    else
      var k1 := (MinT(s) / dt).Floor;
      FloorMono(MinT(s), MaxT(s), dt);
      var nb := (MaxT(s) / dt).Floor - k1 + 1;
      Some(KeepNonEmpty(AllRows(s, FloorIdxs(s, k1, dt), nb, k1, dt, width)))
  }

  lemma FloorMono(a: real, b: real, dt: real)
    requires dt > 0.0 && a <= b
    ensures (a / dt).Floor <= (b / dt).Floor
  {
    MulLe(a, b, 1.0 / dt);
    assert a / dt == a * (1.0 / dt) && b / dt == b * (1.0 / dt);
  }

  /** Each sample lies in its bin `[edge, edge + dt)`. */
  lemma FloorIndexInBin(t: real, k1: int, dt: real)
    requires dt > 0.0
    ensures var j := (t / dt).Floor - k1;
      Edge(k1, j, dt) <= t < Edge(k1, j + 1, dt)
  {
    FloorDiv(t, dt, (t / dt).Floor);
  }

  /** The corrected table counts every sample exactly once. */
  lemma FloorTableConserves(s: seq<Sample>, dt: real, width: nat)
    requires |s| > 0 && dt > 0.0
    ensures FloorTable(s, dt, width).Some?
    ensures TotalNval(FloorTable(s, dt, width).value) == |s|
  {
    var k1 := (MinT(s) / dt).Floor;
    var kmax := (MaxT(s) / dt).Floor;
    FloorMono(MinT(s), MaxT(s), dt);
    var nb: nat := kmax - k1 + 1;
    var idxs := FloorIdxs(s, k1, dt);
    assert FloorTable(s, dt, width) == Some(KeepNonEmpty(AllRows(s, idxs, nb, k1, dt, width)));
    FloorIdxsInRange(s, k1, kmax, dt);
    BinnedTotal(s, idxs, nb, k1, dt, width);
    CountInAll(idxs, nb);
  }

  /** Every sample's floor bin lies between the earliest's and the latest's. */
  lemma FloorIdxsInRange(s: seq<Sample>, k1: int, kmax: int, dt: real)
    requires |s| > 0 && dt > 0.0 && k1 == (MinT(s) / dt).Floor && kmax == (MaxT(s) / dt).Floor
    ensures forall i :: 0 <= i < |s| ==> 0 <= FloorIdxs(s, k1, dt)[i] < kmax - k1 + 1
  {
    var idxs := FloorIdxs(s, k1, dt);
    forall i | 0 <= i < |s| ensures 0 <= idxs[i] < kmax - k1 + 1 {
      FloorMono(MinT(s), s[i].t, dt);
      FloorMono(s[i].t, MaxT(s), dt);
    }
  }

  lemma {:induction false} CountInAll(idxs: seq<int>, nb: nat)
    requires forall i :: 0 <= i < |idxs| ==> 0 <= idxs[i] < nb
    ensures CountIn(idxs, nb) == |idxs|
  {
    if |idxs| > 0 {
      CountInAll(idxs[..|idxs| - 1], nb);
    }
  }
}
