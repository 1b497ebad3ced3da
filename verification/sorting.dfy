/** A stable insertion sort by a real-valued key, used for ordering resource
    samples by timestamp. */
module Sorting {

  predicate SortedBy<T>(s: seq<T>, key: T -> real) {
    forall i, j :: 0 <= i < j < |s| ==> key(s[i]) <= key(s[j])
  }

  /** Inserts `x` before the first element whose key is larger. */
  function Insert<T(==)>(x: T, s: seq<T>, key: T -> real): (r: seq<T>)
    requires SortedBy(s, key)
    ensures SortedBy(r, key)
    ensures multiset(r) == multiset(s) + multiset{x}
    ensures |r| == |s| + 1
    ensures forall i :: 0 <= i < |r| ==> r[i] == x || r[i] in s
  {
    if |s| == 0 then [x]
    else if key(x) < key(s[0]) then
      InsertFront(x, s, key);
      [x] + s
    else
      SortedTail(s, key);
      var t := Insert(x, s[1..], key);
      InsertBehind(x, s, t, key);
      [s[0]] + t
  }

  lemma SortedTail<T>(s: seq<T>, key: T -> real)
    requires |s| > 0 && SortedBy(s, key)
    ensures SortedBy(s[1..], key)
  {
    var t := s[1..];
    forall i, j | 0 <= i < j < |t| ensures key(t[i]) <= key(t[j]) {
      assert t[i] == s[i + 1] && t[j] == s[j + 1];
    }
  }

  lemma InsertFront<T>(x: T, s: seq<T>, key: T -> real)
    requires |s| > 0 && SortedBy(s, key) && key(x) < key(s[0])
    ensures SortedBy([x] + s, key)
  {
    ConsSorted(x, s, key);
  }

  /** The insertion point lies past `s[0]`: `s[0]` followed by the insertion
      into the rest. */
  lemma InsertBehind<T>(x: T, s: seq<T>, t: seq<T>, key: T -> real)
    requires |s| > 0 && SortedBy(s, key) && key(s[0]) <= key(x)
    requires SortedBy(t, key) && multiset(t) == multiset(s[1..]) + multiset{x}
    requires forall i :: 0 <= i < |t| ==> t[i] == x || t[i] in s[1..]
    ensures SortedBy([s[0]] + t, key)
    ensures multiset([s[0]] + t) == multiset(s) + multiset{x}
    ensures forall i :: 0 <= i < |[s[0]] + t| ==> ([s[0]] + t)[i] == x || ([s[0]] + t)[i] in s
  {
    assert s == [s[0]] + s[1..];
    forall j | 0 <= j < |s[1..]| ensures key(s[0]) <= key(s[1..][j]) {
      assert s[1..][j] == s[j + 1];
    }
    BoundedBelow(t, s[1..], x, key, key(s[0]));
    ConsSorted(s[0], t, key);
    var r := [s[0]] + t;
    forall i | 0 <= i < |r| ensures r[i] == x || r[i] in s {
      if i > 0 {
        assert r[i] == t[i - 1];
      }
    }
  }

  /** Every element of `t` comes from `s` or is `x`, so a lower bound of
      both bounds `t`. */
  lemma BoundedBelow<T>(t: seq<T>, s: seq<T>, x: T, key: T -> real, lo: real)
    requires forall i :: 0 <= i < |t| ==> t[i] == x || t[i] in s
    requires lo <= key(x) && forall j :: 0 <= j < |s| ==> lo <= key(s[j])
    ensures forall i :: 0 <= i < |t| ==> lo <= key(t[i])
  {
    forall i | 0 <= i < |t| ensures lo <= key(t[i]) {
      if t[i] != x {
        var j :| 0 <= j < |s| && s[j] == t[i];
      }
    }
  }

  lemma ConsSorted<T>(a: T, t: seq<T>, key: T -> real)
    requires SortedBy(t, key) && forall i :: 0 <= i < |t| ==> key(a) <= key(t[i])
    ensures SortedBy([a] + t, key)
  {
    var r := [a] + t;
    forall i, j | 0 <= i < j < |r| ensures key(r[i]) <= key(r[j]) {
      assert r[j] == t[j - 1];
      if i > 0 {
        assert r[i] == t[i - 1];
      }
    }
  }

  /** Sorted by `key`, a permutation of the input. */
  function SortBy<T(==)>(s: seq<T>, key: T -> real): (r: seq<T>)
    ensures SortedBy(r, key)
    ensures multiset(r) == multiset(s)
    ensures |r| == |s|
  {
    if |s| == 0 then []
    else
      assert s == s[..|s| - 1] + [s[|s| - 1]];
      Insert(s[|s| - 1], SortBy(s[..|s| - 1], key), key)
  }
}
