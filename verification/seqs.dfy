/** Sequence helpers shared by the resolvers: first-seen de-duplication and positions. */
module Seqs {
  import opened Wrappers

  predicate NoDups<T(==)>(s: seq<T>) {
    forall i, j :: 0 <= i < j < |s| ==> s[i] != s[j]
  }

  /** Dropping the head keeps the rest distinct, and the head is not in it. */
  lemma NoDupsTail<T>(s: seq<T>)
    requires |s| > 0 && NoDups(s)
    ensures NoDups(s[1..]) && s[0] !in s[1..]
  {
    var tl := s[1..];
    forall i, j | 0 <= i < j < |tl| ensures tl[i] != tl[j] {
      assert tl[i] == s[i + 1] && tl[j] == s[j + 1];
    }
    forall i | 0 <= i < |tl| ensures tl[i] != s[0] {
      assert tl[i] == s[i + 1];
    }
  }

  /** Two distinct sequences with no common element join into one. */
  lemma NoDupsAppend<T>(a: seq<T>, b: seq<T>)
    requires NoDups(a) && NoDups(b)
    requires forall x :: x in a ==> x !in b
    ensures NoDups(a + b)
  {
    var w := a + b;
    forall i, j | 0 <= i < j < |w| ensures w[i] != w[j] {
      if j < |a| {
        assert w[i] == a[i] && w[j] == a[j];
      } else if i >= |a| {
        assert w[i] == b[i - |a|] && w[j] == b[j - |a|];
      } else {
        assert w[i] == a[i] && a[i] in a && w[j] == b[j - |a|] && b[j - |a|] in b;
      }
    }
  }

  /** Position of the first occurrence of `x` in `s`. */
  function IndexOf<T(==)>(s: seq<T>, x: T): (i: nat)
    requires x in s
    ensures i < |s| && s[i] == x
    ensures forall j :: 0 <= j < i ==> s[j] != x
  {
    if s[0] == x then 0 else 1 + IndexOf(s[1..], x)
  }

  /** Appends to `acc`, in order, each element of `s` that is not yet present:
      the behaviour of a Python list filled with `if x not in l: l.append(x)`,
      and of `list(dict.fromkeys(s))` when `acc` is empty. */
  function Extend<T(==)>(acc: seq<T>, s: seq<T>): (r: seq<T>)
    ensures acc <= r
    ensures forall i :: 0 <= i < |r| ==> r[i] in acc || r[i] in s
    ensures forall i :: 0 <= i < |s| ==> s[i] in r
    ensures NoDups(acc) ==> NoDups(r)
  {
    if |s| == 0 then acc
    else
      var e := Extend(acc, s[..|s| - 1]);
      if s[|s| - 1] in e then e else e + [s[|s| - 1]]
  }

  /** The elements of `s`, each once, in first-seen order. */
  function Distinct<T(==)>(s: seq<T>): seq<T> {
    Extend([], s)
  }

  /** `Distinct` keeps exactly the elements of its input, each once. */
  lemma DistinctElements<T>(s: seq<T>)
    ensures NoDups(Distinct(s))
    ensures forall i :: 0 <= i < |Distinct(s)| ==> Distinct(s)[i] in s
    ensures forall i :: 0 <= i < |s| ==> s[i] in Distinct(s)
  {
  }

  lemma {:induction false} IndexOfPrefix<T>(s: seq<T>, n: nat, x: T)
    requires n <= |s| && x in s[..n]
    ensures IndexOf(s, x) == IndexOf(s[..n], x)
  {
    var a := IndexOf(s, x);
    var b := IndexOf(s[..n], x);
    assert forall j :: 0 <= j <= b ==> s[..n][j] == s[j];
  }

  /** The distinct values keep the order of their first occurrences. */
  lemma {:induction false} DistinctFirstSeenOrder<T>(s: seq<T>)
    ensures NoDups(Distinct(s))
    ensures forall i, j :: 0 <= i < j < |Distinct(s)| ==>
              IndexOf(s, Distinct(s)[i]) < IndexOf(s, Distinct(s)[j])
  {
    if |s| > 0 {
      var p := s[..|s| - 1];
      var last := s[|s| - 1];
      DistinctFirstSeenOrder(p);
      var d := Distinct(p);
      assert s[..|s| - 1] == p;
      forall i | 0 <= i < |d|
        ensures IndexOf(s, d[i]) == IndexOf(p, d[i])
      {
        assert d[i] in p;
        IndexOfPrefix(s, |s| - 1, d[i]);
      }
      if last !in d {
        assert last !in p;
        var r := Distinct(s);
        assert r == d + [last];
        forall i, j | 0 <= i < j < |r|
          ensures IndexOf(s, r[i]) < IndexOf(s, r[j])
        {
          if j < |d| {
          } else {
            assert r[i] == d[i] && d[i] in p;
            var k := IndexOf(p, d[i]);
            assert s[k] == d[i];
            assert IndexOf(s, last) == |s| - 1;
          }
        }
      }
    }
  }

  /** A distinct list is indexed bijectively by its positions. */
  lemma IndexOfInverse<T>(s: seq<T>, i: nat)
    requires NoDups(s) && i < |s|
    ensures IndexOf(s, s[i]) == i
  {
  }

  function Count<T(==)>(s: seq<T>, x: T): nat {
    if |s| == 0 then 0 else Count(s[..|s| - 1], x) + (if s[|s| - 1] == x then 1 else 0)
  }

  function Sum(s: seq<nat>): nat {
    if |s| == 0 then 0 else Sum(s[..|s| - 1]) + s[|s| - 1]
  }

  function RealSum(s: seq<real>): real {
    if |s| == 0 then 0.0 else RealSum(s[..|s| - 1]) + s[|s| - 1]
  }

  /** Python list indexing, where -len(s) <= i < 0 counts from the end. */
  function PyIndex<T>(s: seq<T>, i: int): (r: Option<T>)
    ensures r.Some? <==> -|s| <= i < |s|
    ensures 0 <= i < |s| ==> r == Some(s[i])
  {
    if 0 <= i < |s| then Some(s[i])
    else if -|s| <= i < 0 then Some(s[|s| + i])
    else None
  }

  /** An insertion-ordered dictionary: `keys` in insertion order, each once. */
  datatype Dict<V> = Dict(keys: seq<string>, m: map<string, V>)

  predicate Ordered<V>(d: Dict<V>) {
    NoDups(d.keys) && (forall k :: k in d.m ==> k in d.keys) && (forall k :: k in d.keys ==> k in d.m)
  }

  function Empty<V>(): (d: Dict<V>)
    ensures Ordered(d) && d.m == map[]
  {
    Dict([], map[])
  }

  /** `d[k] = v`: an existing key keeps its place, a new one goes last. */
  function Put<V>(d: Dict<V>, k: string, v: V): (r: Dict<V>)
    requires Ordered(d)
    ensures Ordered(r)
    ensures r.m == d.m[k := v]
    ensures d.keys <= r.keys && |r.keys| == |d.keys| + (if k in d.m then 0 else 1)
  {
    if k in d.m then d.(m := d.m[k := v]) else Dict(d.keys + [k], d.m[k := v])
  }
}
