/** The Python string operations the log parsers rely on: `split()`,
    `strip()`, `split('#')[0]`, `replace(',', '')`, `'-'.join`, `lower()`,
    `int()` and `float()` of a token, and `os.path` on '/'-separated paths. */
module Text {
  import opened Wrappers

  /** The characters `str.split()` and `str.strip()` treat as whitespace,
      those for which `str.isspace()` holds: the ASCII tab, line feed,
      vertical tab, form feed, carriage return and space, the four
      information separators, next line, no-break space, and the Unicode
      space separators and line and paragraph separators. */
  predicate IsSpace(c: char) {
    || ('\U{09}' <= c <= '\U{0D}') || ('\U{1C}' <= c <= '\U{20}')
    || c == '\U{85}' || c == '\U{A0}' || c == '\U{1680}'
    || ('\U{2000}' <= c <= '\U{200A}') || c == '\U{2028}' || c == '\U{2029}'
    || c == '\U{202F}' || c == '\U{205F}' || c == '\U{3000}'
  }

  predicate NoSpace(w: string) {
    forall i :: 0 <= i < |w| ==> !IsSpace(w[i])
  }

  /** The longest prefix of `s` without whitespace. */
  function TakeWord(s: string): (w: string)
    ensures w <= s && NoSpace(w)
    ensures |w| < |s| ==> IsSpace(s[|w|])
  {
    if |s| == 0 || IsSpace(s[0]) then ""
    else [s[0]] + TakeWord(s[1..])
  }

  /** `s.split()`: the maximal runs of non-whitespace characters. */
  function Words(s: string): (ws: seq<string>)
    ensures forall i :: 0 <= i < |ws| ==> |ws[i]| > 0 && NoSpace(ws[i])
    decreases |s|
  {
    if |s| == 0 then []
    else if IsSpace(s[0]) then Words(s[1..])
    else
      var w := TakeWord(s);
      [w] + Words(s[|w|..])
  }

  /** `sep.join(ws)`. */
  function Join(ws: seq<string>, sep: string): string {
    if |ws| == 0 then ""
    else if |ws| == 1 then ws[0]
    else ws[0] + sep + Join(ws[1..], sep)
  }

  lemma {:induction false} TakeWordOfJoin(w: string, rest: string)
    requires |w| > 0 && NoSpace(w) && (|rest| == 0 || IsSpace(rest[0]))
    ensures TakeWord(w + rest) == w
  {
    var s := w + rest;
    var tw := TakeWord(s);
    assert |w| < |s| ==> s[|w|] == rest[0];
    MaximalWordUnique(s, tw, w);
  }

  /** Two prefixes of `s` without whitespace that each end at whitespace
      or at the end of `s` are the same word. */
  lemma MaximalWordUnique(s: string, a: string, b: string)
    requires a <= s && NoSpace(a) && (|a| < |s| ==> IsSpace(s[|a|]))
    requires b <= s && NoSpace(b) && (|b| < |s| ==> IsSpace(s[|b|]))
    ensures a == b
  {
  }

  /** Splitting a list of words joined by any one whitespace character, a
      no-break space or an information separator as much as a space, gives
      the words back. */
  lemma {:induction false} WordsOfJoin(ws: seq<string>, c: char)
    requires IsSpace(c)
    requires forall i :: 0 <= i < |ws| ==> |ws[i]| > 0 && NoSpace(ws[i])
    ensures Words(Join(ws, [c])) == ws
  {
    if |ws| == 1 {
      TakeWordOfJoin(ws[0], "");
      assert ws[0] + "" == ws[0];
      assert ws[0][|ws[0]|..] == "";
      assert !IsSpace(ws[0][0]);
      assert Words(ws[0]) == [ws[0]] + Words("");
    } else if |ws| > 1 {
      var rest := [c] + Join(ws[1..], [c]);
      var s := ws[0] + rest;
      assert Join(ws, [c]) == s;
      TakeWordOfJoin(ws[0], rest);
      assert s[|ws[0]|..] == rest;
      assert rest[1..] == Join(ws[1..], [c]);
      assert !IsSpace(s[0]);
      assert Words(s) == [ws[0]] + Words(rest);
      WordsOfJoin(ws[1..], c);
      assert ws == [ws[0]] + ws[1..];
    }
  }

  /** `"1.5\xa0name".split()` is two words. */
  lemma WordsSplitsOnNoBreakSpace()
    ensures Words("1.5\U{A0}name") == ["1.5", "name"]
  {
    var ws := ["1.5", "name"];
    assert Join(ws, "\U{A0}") == "1.5\U{A0}name";
    assert NoSpace(ws[0]) && NoSpace(ws[1]);
    WordsOfJoin(ws, '\U{A0}');
  }

  /** Joining at least two parts puts `sep` between them and nowhere else
      at the ends: the result starts with the first part and ends with the
      last. */
  lemma {:induction false} JoinEnds(ws: seq<string>, sep: string)
    requires |ws| > 0
    ensures ws[0] <= Join(ws, sep)
    ensures |Join(ws, sep)| >= |ws[|ws| - 1]|
    ensures Join(ws, sep)[|Join(ws, sep)| - |ws[|ws| - 1]|..] == ws[|ws| - 1]
  {
    if |ws| > 1 {
      JoinEnds(ws[1..], sep);
      var j := Join(ws[1..], sep);
      var l := ws[|ws| - 1];
      assert Join(ws, sep) == (ws[0] + sep) + j;
      assert ws[1..][|ws[1..]| - 1] == l;
      assert Join(ws, sep)[|Join(ws, sep)| - |l|..] == j[|j| - |l|..];
    }
  }

  /** `s.strip()`. */
  function Strip(s: string): (r: string)
    ensures |r| <= |s|
    ensures |r| > 0 ==> !IsSpace(r[0]) && !IsSpace(r[|r| - 1])
    decreases |s|
  {
    if |s| == 0 then s
    else if IsSpace(s[0]) then Strip(s[1..])
    else if IsSpace(s[|s| - 1]) then Strip(s[..|s| - 1])
    else s
  }

  /** `s.rstrip()`. */
  function RStrip(s: string): (r: string)
    ensures r <= s
    ensures |r| > 0 ==> !IsSpace(r[|r| - 1])
    ensures forall i :: |r| <= i < |s| ==> IsSpace(s[i])
  {
    if |s| == 0 || !IsSpace(s[|s| - 1]) then s
    else RStrip(s[..|s| - 1])
  }

  /** `s.split(c)[0]`: the text before the first `c`. */
  function Before(s: string, c: char): (r: string)
    ensures r <= s && c !in r
    ensures |r| < |s| ==> s[|r|] == c
  {
    if |s| == 0 || s[0] == c then ""
    else [s[0]] + Before(s[1..], c)
  }

  /** The text before a separator that does not occur in it. */
  lemma {:induction false} BeforeSeparator(w: string, c: char, rest: string)
    requires c !in w
    ensures Before(w + [c] + rest, c) == w
    ensures Before(w, c) == w
  {
    if |w| > 0 {
      assert (w + [c] + rest)[1..] == w[1..] + [c] + rest;
      BeforeSeparator(w[1..], c, rest);
      assert w == [w[0]] + w[1..];
    }
  }

  /** `s.split(c)`: the pieces between occurrences of `c`. */
  function Split(s: string, c: char): (ps: seq<string>)
    ensures |ps| > 0 && forall i :: 0 <= i < |ps| ==> c !in ps[i]
    decreases |s|
  {
    var b := Before(s, c);
    if |b| == |s| then [s] else [b] + Split(s[|b| + 1..], c)
  }

  /** Splitting on a separator that no part contains undoes the join. */
  lemma {:induction false} SplitJoin(ws: seq<string>, c: char)
    requires |ws| > 0 && forall i :: 0 <= i < |ws| ==> c !in ws[i]
    ensures Split(Join(ws, [c]), c) == ws
  {
    BeforeSeparator(ws[0], c, "");
    if |ws| > 1 {
      var j := Join(ws[1..], [c]);
      var s := ws[0] + [c] + j;
      assert Join(ws, [c]) == s;
      BeforeSeparator(ws[0], c, j);
      assert s[|ws[0]| + 1..] == j;
      SplitJoin(ws[1..], c);
      assert ws == [ws[0]] + ws[1..];
    }
  }

  /** `s.replace(c, '')`. */
  function Remove(s: string, c: char): (r: string)
    ensures c !in r
    ensures forall x :: x != c ==> multiset(r)[x] == multiset(s)[x]
  {
    if |s| == 0 then ""
    else
      assert s == [s[0]] + s[1..];
      (if s[0] == c then "" else [s[0]]) + Remove(s[1..], c)
  }

  /** `pat in s`. */
  predicate Contains(s: string, pat: string) {
    exists i :: 0 <= i <= |s| && pat <= s[i..]
  }

  /** `s.lower()` on ASCII letters. */
  function LowerChar(c: char): char {
    if 'A' <= c <= 'Z' then (c as int + 32) as char else c
  }

  function Lower(s: string): (r: string)
    ensures |r| == |s| && forall i :: 0 <= i < |s| ==> r[i] == LowerChar(s[i])
  {
    seq(|s|, i requires 0 <= i < |s| => LowerChar(s[i]))
  }

  /** Lowering twice is lowering once. */
  lemma LowerIdempotent(s: string)
    ensures Lower(Lower(s)) == Lower(s)
  {
  }

  // ---- Numbers ----

  predicate IsDigit(c: char) { '0' <= c <= '9' }

  predicate AllDigits(s: string) {
    forall i :: 0 <= i < |s| ==> IsDigit(s[i])
  }

  /** The value of a string of decimal digits. */
  function DigitsValue(s: string): nat
    requires AllDigits(s)
  {
    if |s| == 0 then 0 else DigitsValue(s[..|s| - 1]) * 10 + (s[|s| - 1] as int - '0' as int)
  }

  /** `int(s)` of a token: an optional sign and at least one digit. */
  function ParseInt(s: string): (r: Option<int>)
    ensures r.Some? <==> (|s| > 0 && AllDigits(s)) || (|s| > 1 && (s[0] == '-' || s[0] == '+') && AllDigits(s[1..]))
  {
    if |s| > 0 && AllDigits(s) then Some(DigitsValue(s))
    else if |s| > 1 && s[0] == '-' && AllDigits(s[1..]) then Some(0 - DigitsValue(s[1..]) as int)
    else if |s| > 1 && s[0] == '+' && AllDigits(s[1..]) then Some(DigitsValue(s[1..]))
    else None
  }

  function Pow10(k: nat): (p: nat)
    ensures p > 0
  {
    if k == 0 then 1 else 10 * Pow10(k - 1)
  }

  /** An unsigned decimal `digits[.digits]` with at least one digit. */
  function UnsignedDecimal(s: string): Option<real> {
    if |s| == 0 then None
    else if AllDigits(s) then Some(DigitsValue(s) as real)
    else
      var a := Before(s, '.');
      var b := s[|a|..];
      if |b| == 0 || |a| + |b| < 2 then None
      else if AllDigits(a) && AllDigits(b[1..]) then
        Some(DigitsValue(a) as real + DigitsValue(b[1..]) as real / Pow10(|b| - 1) as real)
      else None
  }

  /** `float(s)` of a token: an optional sign and an unsigned decimal. */
  function ParseFloat(s: string): Option<real> {
    if |s| > 0 && (s[0] == '-' || s[0] == '+') then
      match UnsignedDecimal(s[1..])
      case None => None
      case Some(v) => Some(if s[0] == '-' then -v else v)
    else UnsignedDecimal(s)
  }

  /** The decimal digits of `n`, without leading zeros. */
  function ShowNat(n: nat): (s: string)
    ensures |s| > 0 && AllDigits(s)
    ensures |s| > 1 ==> s[0] != '0'
  {
    if n < 10 then [('0' as int + n) as char]
    else ShowNat(n / 10) + [('0' as int + n % 10) as char]
  }

  /** Reading back the digits of a number gives the number. */
  lemma {:induction false} ShowNatRoundTrip(n: nat)
    ensures DigitsValue(ShowNat(n)) == n
  {
    if n >= 10 {
      ShowNatRoundTrip(n / 10);
      var s := ShowNat(n);
      assert s[..|s| - 1] == ShowNat(n / 10);
    }
  }

  /** An integer written in decimal parses back to itself with `int()` and
      to the same value with `float()`. */
  lemma ParseShowNat(n: nat)
    ensures ParseInt(ShowNat(n)) == Some(n)
    ensures ParseFloat(ShowNat(n)) == Some(n as real)
    ensures ParseInt("-" + ShowNat(n)) == Some(0 - n as int)
  {
    ShowNatRoundTrip(n);
    var s := ShowNat(n);
    assert ("-" + s)[1..] == s;
    assert ("-" + s)[0] == '-' && !IsDigit(("-" + s)[0]);
  }

  /** Leading zeros: removed while more than one character is left. */
  function StripZeros(s: string): (r: string)
    ensures |s| > 0 ==> |r| > 0
    ensures |r| > 1 ==> r[0] != '0'
    ensures exists k :: 0 <= k <= |s| && r == s[k..] && forall i :: 0 <= i < k ==> s[i] == '0'
  {
    if |s| > 1 && s[0] == '0' then
      var r := StripZeros(s[1..]);
      var k :| 0 <= k <= |s[1..]| && r == s[1..][k..] && forall i :: 0 <= i < k ==> s[1..][i] == '0';
      assert r == s[k + 1..];
      r
    else
      assert s == s[0..];
      s
  }

  lemma {:induction false} DigitsValueLeadingZero(s: string)
    requires |s| > 0 && AllDigits(s) && s[0] == '0'
    ensures DigitsValue(s) == DigitsValue(s[1..])
  {
    if |s| > 1 {
      DigitsValueLeadingZero(s[..|s| - 1]);
      assert s[..|s| - 1][1..] == s[1..][..|s[1..]| - 1];
    }
  }

  /** Stripping leading zeros from a digit string keeps its value, and any
      number padded with zeros is recovered. */
  lemma {:induction false} StripZerosValue(s: string)
    requires AllDigits(s)
    ensures AllDigits(StripZeros(s)) && DigitsValue(StripZeros(s)) == DigitsValue(s)
  {
    if |s| > 1 && s[0] == '0' {
      DigitsValueLeadingZero(s);
      StripZerosValue(s[1..]);
    }
  }

  lemma {:induction false} StripZerosPadded(n: nat, k: nat)
    ensures StripZeros(seq(k, _ => '0') + ShowNat(n)) == ShowNat(n)
  {
    if k > 0 {
      var z := seq(k, _ => '0');
      assert (z + ShowNat(n))[1..] == seq(k - 1, _ => '0') + ShowNat(n);
      StripZerosPadded(n, k - 1);
    } else {
      assert seq(k, _ => '0') + ShowNat(n) == ShowNat(n);
    }
  }

  // ---- Paths ----

  /** Index just past the last '/', or 0. */
  function AfterLastSlash(p: string): (i: nat)
    ensures i <= |p|
    ensures i > 0 ==> p[i - 1] == '/'
    ensures forall j :: i <= j < |p| ==> p[j] != '/'
  {
    if |p| == 0 then 0
    else if p[|p| - 1] == '/' then |p|
    else AfterLastSlash(p[..|p| - 1])
  }

  /** Trailing slashes removed unless the text is nothing but slashes. */
  function TrimSlashes(h: string): (r: string)
    ensures r <= h
  {
    if |h| > 0 && h[|h| - 1] == '/' && exists j :: 0 <= j < |h| && h[j] != '/' then TrimSlashes(h[..|h| - 1])
    else h
  }

  /** `os.path.basename`. */
  function Basename(p: string): (b: string)
    ensures '/' !in b
  {
    p[AfterLastSlash(p)..]
  }

  /** `os.path.dirname`. */
  function Dirname(p: string): string {
    TrimSlashes(p[..AfterLastSlash(p)])
  }

  /** A path built from a directory without trailing slash and a name
      without slashes splits back into the two. */
  lemma PathRoundTrip(d: string, name: string)
    requires '/' !in name && |d| > 0 && d[|d| - 1] != '/'
    ensures Basename(d + "/" + name) == name
    ensures Dirname(d + "/" + name) == d
  {
    var p := d + "/" + name;
    PathSplitAt(p, |d|);
    assert p[..|d| + 1] == d + "/";
    assert (d + "/")[..|d|] == d;
    assert (d + "/")[|d| - 1] != '/';
    assert TrimSlashes(d + "/") == TrimSlashes(d);
  }

  lemma PathSplitAt(p: string, k: nat)
    requires k < |p| && p[k] == '/' && forall j :: k < j < |p| ==> p[j] != '/'
    ensures AfterLastSlash(p) == k + 1
    decreases |p|
  {
    if p[|p| - 1] != '/' {
      PathSplitAt(p[..|p| - 1], k);
    }
  }

  // ---- Ordering ----

  /** Python's string order: code point by code point, a proper prefix first. */
  predicate StrLe(a: string, b: string)
    decreases |a|
  {
    |a| == 0 || (|b| > 0 && (a[0] < b[0] || (a[0] == b[0] && StrLe(a[1..], b[1..]))))
  }

  lemma {:induction false} StrLeTotal(a: string, b: string)
    ensures StrLe(a, b) || StrLe(b, a)
    decreases |a|
  {
    if |a| > 0 && |b| > 0 && a[0] == b[0] {
      StrLeTotal(a[1..], b[1..]);
    }
  }

  lemma {:induction false} StrLeTrans(a: string, b: string, c: string)
    requires StrLe(a, b) && StrLe(b, c)
    ensures StrLe(a, c)
    decreases |a|
  {
    if |a| > 0 && a[0] == b[0] && b[0] == c[0] {
      StrLeTrans(a[1..], b[1..], c[1..]);
    }
  }

  lemma {:induction false} StrLeAntisym(a: string, b: string)
    requires StrLe(a, b) && StrLe(b, a)
    ensures a == b
    decreases |a|
  {
    if |a| > 0 {
      StrLeAntisym(a[1..], b[1..]);
      assert a == [a[0]] + a[1..] && b == [b[0]] + b[1..];
    }
  }

  predicate SortedStrings(s: seq<string>) {
    forall i, j :: 0 <= i < j < |s| ==> StrLe(s[i], s[j])
  }

  function InsertString(x: string, s: seq<string>): (r: seq<string>)
    requires SortedStrings(s)
    ensures SortedStrings(r)
    ensures multiset(r) == multiset(s) + multiset{x}
    ensures forall i :: 0 <= i < |r| ==> r[i] == x || r[i] in s
  {
    if |s| == 0 then [x]
    else if StrLe(x, s[0]) then
      InsertStringFront(x, s);
      [x] + s
    else
      StrLeTotal(x, s[0]);
      SortedStringsTail(s);
      var t := InsertString(x, s[1..]);
      InsertStringBehind(x, s, t);
      [s[0]] + t
  }

  lemma SortedStringsTail(s: seq<string>)
    requires |s| > 0 && SortedStrings(s)
    ensures SortedStrings(s[1..])
  {
    var t := s[1..];
    forall i, j | 0 <= i < j < |t| ensures StrLe(t[i], t[j]) {
      assert t[i] == s[i + 1] && t[j] == s[j + 1];
    }
  }

  lemma ConsSortedStrings(a: string, t: seq<string>)
    requires SortedStrings(t) && forall i :: 0 <= i < |t| ==> StrLe(a, t[i])
    ensures SortedStrings([a] + t)
  {
    var r := [a] + t;
    forall i, j | 0 <= i < j < |r| ensures StrLe(r[i], r[j]) {
      assert r[j] == t[j - 1];
      if i > 0 {
        assert r[i] == t[i - 1];
      }
    }
  }

  lemma InsertStringFront(x: string, s: seq<string>)
    requires |s| > 0 && SortedStrings(s) && StrLe(x, s[0])
    ensures SortedStrings([x] + s)
  {
    forall j | 0 <= j < |s| ensures StrLe(x, s[j]) {
      if j > 0 { StrLeTrans(x, s[0], s[j]); }
    }
    ConsSortedStrings(x, s);
  }

  lemma InsertStringBehind(x: string, s: seq<string>, t: seq<string>)
    requires |s| > 0 && SortedStrings(s) && StrLe(s[0], x)
    requires SortedStrings(t) && multiset(t) == multiset(s[1..]) + multiset{x}
    requires forall i :: 0 <= i < |t| ==> t[i] == x || t[i] in s[1..]
    ensures SortedStrings([s[0]] + t)
    ensures multiset([s[0]] + t) == multiset(s) + multiset{x}
    ensures forall i :: 0 <= i < |[s[0]] + t| ==> ([s[0]] + t)[i] == x || ([s[0]] + t)[i] in s
  {
    assert s == [s[0]] + s[1..];
    forall i | 0 <= i < |t| ensures StrLe(s[0], t[i]) {
      if t[i] != x {
        var j :| 0 <= j < |s[1..]| && s[1..][j] == t[i];
        assert s[j + 1] == t[i];
      }
    }
    ConsSortedStrings(s[0], t);
    var r := [s[0]] + t;
    forall i | 0 <= i < |r| ensures r[i] == x || r[i] in s {
      if i > 0 {
        assert r[i] == t[i - 1];
      }
    }
  }

  /** `list.sort()` of strings: ordered, and a permutation of the input. */
  function SortStrings(s: seq<string>): (r: seq<string>)
    ensures SortedStrings(r)
    ensures multiset(r) == multiset(s)
    ensures |r| == |s| && forall x :: x in r <==> x in s
  {
    if |s| == 0 then []
    else
      assert s == s[..|s| - 1] + [s[|s| - 1]];
      var r := InsertString(s[|s| - 1], SortStrings(s[..|s| - 1]));
      assert forall x :: x in multiset(r) <==> x in r;
      assert forall x :: x in multiset(s) <==> x in s;
      assert |r| == |multiset(r)|;
      r
  }
}
