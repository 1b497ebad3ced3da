/** `PerfStatLogReader`: reads the metrics `perf stat` prints after its
    "Performance counter stats for" line into an ordered dictionary, and
    appends them as one row of a column store whose columns always have one
    entry per row read. */
module PerfStat {
  import opened Wrappers
  import opened Seqs
  import opened Text

  /** A metric value: `int(...)` with no unit, `float(...)` with one. */
  datatype Value = IntVal(i: int) | RealVal(r: real)

  type Data = Dict<Value>

  // ---- Parsing the lines ----

  const FlagText := "Performance counter stats for"

  /** What the parse loop carries from line to line; `failed` is set by a
      raise (an empty value token, or a token `int()`/`float()` rejects),
      after which nothing more is read. */
  datatype Scan = Scan(inperf: bool, done: bool, nprf: nat, data: Data, failed: bool)

  /** One metric line's value and name: with two words an integer named by
      the second word; with more, a float with the second word as its unit,
      named by the remaining words joined with '-'. */
  function Metric(sval: string, words: seq<string>): (m: Option<(string, Value)>)
    requires |words| > 1
    ensures |words| == 2 ==>
      (m.Some? <==> ParseInt(sval).Some?) && (m.Some? ==> m.value == (words[1], IntVal(ParseInt(sval).value)))
    ensures |words| > 2 ==>
      (m.Some? <==> ParseFloat(sval).Some?) &&
      (m.Some? ==> m.value == (Join(words[2..], "-"), RealVal(ParseFloat(sval).value)))
  {
    if |words| > 2 then
      match ParseFloat(sval)
      case None => None
      case Some(x) => Some((Join(words[2..], "-"), RealVal(x)))
    else
      match ParseInt(sval)
      case None => None
      case Some(n) => Some((words[1], IntVal(n)))
  }

  /** One line of the log. */
  function Step(st: Scan, raw: string): (r: Scan)
    requires Ordered(st.data)
    ensures Ordered(r.data)
    ensures st.failed ==> r == st
    ensures !st.inperf && !st.failed ==> r == st.(inperf := st.inperf || (Contains(Strip(raw), FlagText) && !st.done))
    ensures st.inperf ==> r.inperf
  {
    if st.failed then st
    else
      var line := Strip(raw);
      if st.inperf then
        var words := Words(Before(line, '#'));
        if |words| <= 1 then st
        else
          var sval := Remove(words[0], ',');
          if |sval| == 0 then st.(failed := true)
          else if sval[0] == '<' then st
          else if sval in ["real", "user", "sys"] then st.(done := true)
          else
            match Metric(sval, words)
            case None => st.(failed := true)
            case Some(m) => st.(nprf := st.nprf + 1, data := Put(st.data, m.0, m.1))
      else if Contains(line, FlagText) then st.(inperf := !st.done)
      else st
  }

  function ScanLines(st: Scan, lines: seq<string>): (r: Scan)
    requires Ordered(st.data)
    ensures Ordered(r.data)
  {
    if |lines| == 0 then st else Step(ScanLines(st, lines[..|lines| - 1]), lines[|lines| - 1])
  }

  /** Until a line holding the flag text is seen, nothing is recorded: the
      data dictionary, the metric count and the failure flag stay as they
      were. */
  lemma {:induction false} NothingBeforeFlag(st: Scan, lines: seq<string>)
    requires Ordered(st.data) && !st.inperf
    requires forall i :: 0 <= i < |lines| ==> !Contains(Strip(lines[i]), FlagText)
    ensures ScanLines(st, lines) == st
  {
    if |lines| > 0 {
      NothingBeforeFlag(st, lines[..|lines| - 1]);
    }
  }

  /** Once the flag text has been seen the reader stays in the metric
      section: later flag lines or summary lines do not leave it. */
  lemma {:induction false} InPerfStays(st: Scan, lines: seq<string>)
    requires Ordered(st.data) && st.inperf
    ensures ScanLines(st, lines).inperf
  {
    if |lines| > 0 {
      InPerfStays(st, lines[..|lines| - 1]);
    }
  }

  /** The metric count only grows, and by one per recorded line. */
  lemma {:induction false} ScanCountGrows(st: Scan, lines: seq<string>)
    requires Ordered(st.data)
    ensures ScanLines(st, lines).nprf >= st.nprf
    ensures ScanLines(st, lines).nprf == st.nprf ==> ScanLines(st, lines).data == st.data
  {
    if |lines| > 0 {
      ScanCountGrows(st, lines[..|lines| - 1]);
      StepCount(ScanLines(st, lines[..|lines| - 1]), lines[|lines| - 1]);
    }
  }

  /** A line records at most one metric, and the data changes only when it does. */
  lemma StepCount(st: Scan, raw: string)
    requires Ordered(st.data)
    ensures Step(st, raw).nprf == st.nprf || Step(st, raw).nprf == st.nprf + 1
    ensures Step(st, raw).nprf == st.nprf ==> Step(st, raw).data == st.data
  {
  }

  /** `done` is only ever set inside the metric section, which is never
      left, so the test of `done` on a later flag line cannot fire. */
  lemma {:induction false} DoneOnlyInPerf(st: Scan, lines: seq<string>)
    requires Ordered(st.data) && (st.done ==> st.inperf)
    ensures ScanLines(st, lines).done ==> ScanLines(st, lines).inperf
  {
    if |lines| > 0 {
      DoneOnlyInPerf(st, lines[..|lines| - 1]);
    }
  }

  // ---- The column store ----

  type Columns = Dict<seq<Option<Value>>>

  /** Every column has `n` entries. */
  predicate Rect(cols: Columns, n: nat) {
    Ordered(cols) && forall k :: k in cols.m ==> |cols.m[k]| == n
  }

  /** The copy-and-pad step after a read that found metrics: every key of
      the row gets a column (new ones front-padded with `n` Nones, placed
      after the existing ones in the row's order), and every column gets the
      row's value or `None`. */
  function AddRow(cols: Columns, d: Data, n: nat): (r: Columns)
    requires Rect(cols, n) && Ordered(d)
    ensures Rect(r, n + 1)
    ensures cols.keys <= r.keys
    ensures forall k :: k in r.m <==> k in cols.m || k in d.m
    ensures forall k :: k in cols.m ==> r.m[k][..n] == cols.m[k]
    ensures forall k :: k in r.m && k !in cols.m ==> r.m[k][..n] == seq(n, _ => None)
    ensures forall k :: k in d.m ==> r.m[k][n] == Some(d.m[k])
    ensures forall k :: k in r.m && k !in d.m ==> r.m[k][n] == None
  {
    var keys := Extend(cols.keys, d.keys);
    Dict(keys, map k | k in keys :: Padded(cols, d, n, k))
  }

  /** One column after the row is added: its old entries, or `n` Nones for
      a new key, then the row's value for the key. */
  function Padded(cols: Columns, d: Data, n: nat, k: string): (c: seq<Option<Value>>)
    requires Rect(cols, n)
    ensures |c| == n + 1
    ensures c[..n] == if k in cols.m then cols.m[k] else seq(n, _ => None)
    ensures c[n] == if k in d.m then Some(d.m[k]) else None
  {
    (if k in cols.m then cols.m[k] else seq(n, _ => None)) + [if k in d.m then Some(d.m[k]) else None]
  }

  // ---- The reader ----

  /** `pandas.DataFrame(self.dict)`: a snapshot of the columns and its row count. */
  datatype Frame = Frame(rows: nat, cols: Columns)

  datatype Reader = Reader(nfile: nat, nval: nat, nmissing: nat, cols: Columns, cached: Frame)

  /** A fresh reader: no files, no rows, an empty cached frame. */
  function Init(): (r: Reader)
    ensures Valid(r) && r.nval == 0 && r.nfile == 0
  {
    Reader(0, 0, 0, Empty(), Frame(0, Empty()))
  }

  /** Every column has one entry per row read; the cached frame is at most
      as long as the store, and when as long, is a snapshot of it. */
  predicate Valid(r: Reader) {
    && Rect(r.cols, r.nval)
    && r.cached.rows <= r.nval
    && (r.cached.rows == r.nval && r.nval > 0 ==> r.cached.cols == r.cols)
  }

  /** The result of `read`: the reader, the dictionary the lines were merged
      into (the caller's `indata`, which the source mutates in place), and
      whether parsing raised. */
  datatype ReadOutcome = ReadOutcome(reader: Reader, data: Data, raised: bool)

  function Read(r: Reader, indata: Data, lines: seq<string>): (o: ReadOutcome)
    requires Valid(r) && Ordered(indata)
    ensures Ordered(o.data) && Valid(o.reader)
    ensures o.reader.nfile == r.nfile + 1
    ensures o.raised ==> o.reader == r.(nfile := r.nfile + 1)
    ensures !o.raised && o.reader.nval == r.nval + 1 ==>
      o.reader.cols == AddRow(r.cols, o.data, r.nval) && o.reader.nmissing == r.nmissing
    ensures !o.raised && o.reader.nval == r.nval ==>
      o.reader.nmissing == r.nmissing + 1 && o.data == indata && o.reader.cols == r.cols
    ensures !o.raised ==> o.reader.nval == r.nval || o.reader.nval == r.nval + 1
    ensures forall k :: k in indata.m ==> k in o.data.m
  {
    var st := ScanLines(Scan(false, false, 0, indata, false), lines);
    ScanCountGrows(Scan(false, false, 0, indata, false), lines);
    ScanKeepsKeys(Scan(false, false, 0, indata, false), lines);
    var r1 := r.(nfile := r.nfile + 1);
    if st.failed then ReadOutcome(r1, st.data, true)
    else if st.nprf > 0 then
      ReadOutcome(r1.(cols := AddRow(r.cols, st.data, r.nval), nval := r.nval + 1), st.data, false)
    else ReadOutcome(r1.(nmissing := r.nmissing + 1), st.data, false)
  }

  /** `table()`: `None` while no row has been read; otherwise the cached
      frame, rebuilt from the columns when rows were added since. */
  function Table(r: Reader): (o: (Reader, Option<Frame>))
    ensures o.1.None? <==> r.nval == 0
    ensures o.0.cols == r.cols && o.0.nval == r.nval
    ensures Valid(r) ==> Valid(o.0)
    ensures Valid(r) && r.nval > 0 ==> o.1 == Some(Frame(r.nval, r.cols))
  {
    if r.nval == 0 then (r, None)
    else if r.nval > r.cached.rows then
      var f := Frame(r.nval, r.cols);
      (r.(cached := f), Some(f))
    else (r, Some(r.cached))
  }

  /** Reading several files in turn, each with its own input dictionary. */
  function ReadFiles(r: Reader, files: seq<(Data, seq<string>)>): (o: Reader)
    requires Valid(r) && forall i :: 0 <= i < |files| ==> Ordered(files[i].0)
    ensures Valid(o)
    ensures o.nfile == r.nfile + |files|
    ensures r.nval <= o.nval && r.nmissing <= o.nmissing
    ensures o.nval + o.nmissing <= r.nval + r.nmissing + |files|
  {
    if |files| == 0 then r
    else
      var p := ReadFiles(r, files[..|files| - 1]);
      Read(p, files[|files| - 1].0, files[|files| - 1].1).reader
  }

  /** After any sequence of reads the table is exactly the column store,
      with one row per file in which metrics were found. */
  lemma TableAfterReads(files: seq<(Data, seq<string>)>)
    requires forall i :: 0 <= i < |files| ==> Ordered(files[i].0)
    ensures var r := ReadFiles(Init(), files);
      r.nval > 0 ==> Table(r).1 == Some(Frame(r.nval, r.cols)) && Rect(r.cols, r.nval)
  {
  }

  // ---- The shared default dictionary ----

  /** A line never removes a metric from the dictionary: the parse only
      ever sets a key. */
  lemma {:induction false} ScanKeepsKeys(st: Scan, lines: seq<string>)
    requires Ordered(st.data)
    ensures forall k :: k in st.data.m ==> k in ScanLines(st, lines).data.m
  {
    if |lines| > 0 {
      ScanKeepsKeys(st, lines[..|lines| - 1]);
      StepKeepsKeys(ScanLines(st, lines[..|lines| - 1]), lines[|lines| - 1]);
    }
  }

  lemma StepKeepsKeys(st: Scan, raw: string)
    requires Ordered(st.data)
    ensures forall k :: k in st.data.m ==> k in Step(st, raw).data.m
  {
  }

  /** `read` called without `indata`: the default `{}` is created once, when
      the method is defined, so every such call merges its metrics into the
      same dictionary, which is threaded here from call to call. */
  function ReadFilesShared(r: Reader, shared: Data, files: seq<seq<string>>): (o: (Reader, Data))
    requires Valid(r) && Ordered(shared)
    ensures Valid(o.0) && Ordered(o.1)
    ensures o.0.nfile == r.nfile + |files|
    ensures forall k :: k in shared.m ==> k in o.1.m
  {
    if |files| == 0 then (r, shared)
    else
      var p := ReadFilesShared(r, shared, files[..|files| - 1]);
      var q := Read(p.0, p.1, files[|files| - 1]);
      (q.reader, q.data)
  }

  /** Two reads that both rely on the default dictionary: every metric the
      first file put into it is still there for the second, and when the
      second adds a row, that row holds a value for each of them even if
      the second file does not report it. */
  lemma SharedDefaultCarriesOver(r: Reader, a: seq<string>, b: seq<string>)
    requires Valid(r)
    ensures var o := ReadFilesShared(r, Empty(), [a, b]);
      var o1 := Read(r, Empty(), a);
      var o2 := Read(o1.reader, o1.data, b);
      && o == (o2.reader, o2.data)
      && (forall k :: k in o1.data.m ==> k in o.1.m)
      && (!o2.raised && o.0.nval == o1.reader.nval + 1 ==>
            forall k :: k in o1.data.m ==> o.0.cols.m[k][o1.reader.nval].Some?)
  {
    SharedTwoReads(r, a, b);
  }

  lemma SharedTwoReads(r: Reader, a: seq<string>, b: seq<string>)
    requires Valid(r)
    ensures var o1 := Read(r, Empty(), a);
      var o2 := Read(o1.reader, o1.data, b);
      ReadFilesShared(r, Empty(), [a, b]) == (o2.reader, o2.data)
  {
    var o1 := Read(r, Empty(), a);
    assert ReadFilesShared(r, Empty(), []) == (r, Empty());
    assert [a][..0] == [];
    assert ReadFilesShared(r, Empty(), [a]) == (o1.reader, o1.data);
    assert [a, b][..1] == [a] && [a, b][1] == b;
  }
}
