/** Per-sample deltas of cumulative values: the first sample is kept as it
    is and every later one is replaced by its increase over the previous one. */
module Differences {
  import opened Wrappers
  import opened Tables

  function Deltas(s: seq<real>): (d: seq<real>)
    ensures |d| == |s|
    ensures |s| > 0 ==> d[0] == s[0]
    ensures forall i :: 0 < i < |s| ==> d[i] == s[i] - s[i - 1]
  {
    seq(|s|, i requires 0 <= i < |s| => if i == 0 then s[0] else s[i] - s[i - 1])
  }

  /** `Deltas` on a column with missing values (NaN): a difference with a
      missing side is missing. */
  function OptDeltas(s: seq<Option<real>>): (d: seq<Option<real>>)
    ensures |d| == |s|
    ensures |s| > 0 ==> d[0] == s[0]
    ensures forall i :: 0 < i < |s| ==> (d[i].Some? <==> s[i].Some? && s[i - 1].Some?)
    ensures forall i :: 0 < i < |s| && s[i].Some? && s[i - 1].Some? ==> d[i] == Some(s[i].value - s[i - 1].value)
  {
    seq(|s|, i requires 0 <= i < |s| =>
      if i == 0 then s[0]
      else if s[i].Some? && s[i - 1].Some? then Some(s[i].value - s[i - 1].value)
      else None)
  }

  /** The values of a column with no missing entry. */
  function Present(s: seq<Option<real>>): (v: seq<real>)
    requires forall i :: 0 <= i < |s| ==> s[i].Some?
    ensures |v| == |s| && forall i :: 0 <= i < |s| ==> s[i] == Some(v[i])
  {
    seq(|s|, i requires 0 <= i < |s| => s[i].value)
  }

  /** With nothing missing, the deltas are the plain deltas, and summing
      them gives back the column. */
  lemma OptDeltasRoundTrip(s: seq<Option<real>>)
    requires forall i :: 0 <= i < |s| ==> s[i].Some?
    ensures forall i :: 0 <= i < |s| ==> OptDeltas(s)[i].Some?
    ensures Present(OptDeltas(s)) == Deltas(Present(s))
    ensures PrefixSums(Present(OptDeltas(s))) == Present(s)
  {
    assert Present(OptDeltas(s)) == Deltas(Present(s));
    DeltasRoundTrip(Present(s));
  }

  /** Running totals: the inverse of `Deltas`. */
  function PrefixSums(d: seq<real>): (s: seq<real>)
    ensures |s| == |d|
  {
    if |d| == 0 then [] else
      var p := PrefixSums(d[..|d| - 1]);
      p + [(if |p| == 0 then 0.0 else p[|p| - 1]) + d[|d| - 1]]
  }

  lemma {:induction false} PrefixSumsPrefix(d: seq<real>, n: nat)
    requires n <= |d|
    ensures PrefixSums(d[..n]) == PrefixSums(d)[..n]
    decreases |d|
  {
    if n < |d| {
      assert d[..|d| - 1][..n] == d[..n];
      PrefixSumsPrefix(d[..|d| - 1], n);
    } else {
      assert d[..n] == d;
    }
  }

  /** Summing the deltas gives back the cumulative values. */
  lemma {:induction false} DeltasRoundTrip(s: seq<real>)
    ensures PrefixSums(Deltas(s)) == s
  {
    if |s| > 0 {
      var n := |s|;
      var d := Deltas(s);
      var p := s[..n - 1];
      DeltasPrefix(s);
      DeltasRoundTrip(p);
      var q := PrefixSums(d[..n - 1]);
      assert PrefixSums(d) == q + [(if n == 1 then 0.0 else q[n - 2]) + d[n - 1]];
      assert p + [s[n - 1]] == s;
    }
  }

  lemma DeltasPrefix(s: seq<real>)
    requires |s| > 0
    ensures Deltas(s)[..|s| - 1] == Deltas(s[..|s| - 1])
  {
    var n := |s|;
    var p := s[..n - 1];
    var dp := Deltas(p);
    forall i | 0 <= i < n - 1 ensures Deltas(s)[..n - 1][i] == dp[i] {
      if i > 0 {
        assert dp[i] == p[i] - p[i - 1];
      }
    }
  }

  /** The sum of the deltas up to a sample is that sample's cumulative value:
      the deltas telescope. */
  lemma DeltasTelescope(s: seq<real>, i: nat)
    requires i < |s|
    ensures PrefixSums(Deltas(s))[i] == s[i]
  {
    DeltasRoundTrip(s);
  }

  function Sub(a: Counters, b: Counters): Counters {
    Counters(a.childrenCount - b.childrenCount, a.timeUser - b.timeUser, a.timeSystem - b.timeSystem,
             a.diskRead - b.diskRead, a.diskWrite - b.diskWrite)
  }

  function Column(cs: seq<Counters>, col: CounterCol): (c: seq<real>)
    ensures |c| == |cs| && forall i :: 0 <= i < |cs| ==> c[i] == Get(cs[i], col)
  {
    seq(|cs|, i requires 0 <= i < |cs| => Get(cs[i], col))
  }

  /** The five counters of a sample sequence replaced by their deltas, all at once. */
  function CounterDeltas(cs: seq<Counters>): (d: seq<Counters>)
    ensures |d| == |cs|
  {
    seq(|cs|, i requires 0 <= i < |cs| => if i == 0 then cs[0] else Sub(cs[i], cs[i - 1]))
  }

  /** Each counter column of `CounterDeltas` is that column's `Deltas`. */
  lemma CounterDeltasByColumn(cs: seq<Counters>, col: CounterCol)
    ensures Column(CounterDeltas(cs), col) == Deltas(Column(cs, col))
  {
    var d := CounterDeltas(cs);
    var a := Column(d, col);
    var b := Deltas(Column(cs, col));
    forall i | 0 <= i < |cs| ensures a[i] == b[i] {
      if i > 0 {
        assert d[i] == Sub(cs[i], cs[i - 1]);
        GetSub(cs[i], cs[i - 1], col);
      }
    }
  }

  lemma GetSub(a: Counters, b: Counters, col: CounterCol)
    ensures Get(Sub(a, b), col) == Get(a, col) - Get(b, col)
  {
  }

  /** Summing a column of counter deltas restores the cumulative counter. */
  lemma CounterDeltasRoundTrip(cs: seq<Counters>, col: CounterCol)
    ensures PrefixSums(Column(CounterDeltas(cs), col)) == Column(cs, col)
  {
    CounterDeltasByColumn(cs, col);
    DeltasRoundTrip(Column(cs, col));
  }
}
