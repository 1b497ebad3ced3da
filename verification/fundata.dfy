/** `FunctionData`: one row per parsl `function_data/<taskid>/log` file,
    holding the task id taken from the directory name and the `time name`
    pairs the file lists. */
module FunData {
  import opened Wrappers
  import opened Seqs
  import opened Text

  /** A cell: the task id, or a time read with `float`. */
  datatype Cell = TaskId(id: int) | Time(t: real)

  /** The per-file map (`mymap`): `taskid` first, then the names in the
      order first seen. */
  type Row = Dict<Cell>

  /** A `time name` line whose time `float` rejects: the exception ends the
      whole load. */
  datatype FunError = BadTime(path: string, line: string)

  /** The frame: its columns, and `|fnams|` rows of cells, `None` where
      pandas holds NaN. */
  datatype Table = Table(columns: seq<string>, rows: seq<seq<Option<Cell>>>)

  /** The task id string: the name of the directory holding the log, with
      leading zeros removed down to one character; `int` of it, if any. */
  function TaskIdOf(path: string): (r: Option<int>)
    ensures r.Some? ==> StripZeros(Basename(Dirname(path))) != ""
  {
    ParseInt(StripZeros(Basename(Dirname(path))))
  }

  /** Zero-padded directory names give back the number they pad. */
  lemma TaskIdOfPadded(top: string, n: nat, k: nat, name: string)
    requires |top| > 0 && top[|top| - 1] != '/' && '/' !in name
    ensures TaskIdOf(top + "/" + (seq(k, _ => '0') + ShowNat(n)) + "/" + name) == Some(n)
  {
    var dir := seq(k, _ => '0') + ShowNat(n);
    assert '/' !in dir by {
      assert forall i :: 0 <= i < |dir| ==> IsDigit(dir[i]);
    }
    var d := top + "/" + dir;
    PathRoundTrip(d, name);
    assert d + "/" + name == top + "/" + dir + "/" + name;
    PathRoundTrip(top, dir);
    StripZerosPadded(n, k);
    ParseShowNat(n);
  }

  /** A line with exactly two words, as `(time text, lower-cased name)`. */
  function TimeLine(line: string): (p: Option<(string, string)>)
    ensures p.Some? <==> |Words(RStrip(line))| == 2
    ensures p.Some? ==> p.value.1 == Lower(Words(RStrip(line))[1])
  {
    var w := Words(RStrip(line));
    if |w| == 2 then Some((w[0], Lower(w[1]))) else None
  }

  /** A line whose time does not parse. */
  predicate BadLine(line: string) {
    TimeLine(line).Some? && ParseFloat(TimeLine(line).value.0).None?
  }

  /** The lines of one file folded into the map. */
  function ParseLines(path: string, init: Row, lines: seq<string>): (r: Result<Row, FunError>)
    requires Ordered(init)
    ensures r.Err? <==> exists i :: 0 <= i < |lines| && BadLine(lines[i])
    ensures r.Ok? ==> Ordered(r.value) && init.keys <= r.value.keys
    ensures r.Ok? ==> forall k :: k in r.value.m && k !in init.m ==>
      exists i :: 0 <= i < |lines| && TimeLine(lines[i]).Some? && TimeLine(lines[i]).value.1 == k
  {
    if |lines| == 0 then Ok(init)
    else
      var p := lines[..|lines| - 1];
      var line := lines[|lines| - 1];
      assert forall i :: 0 <= i < |p| ==> p[i] == lines[i];
      match ParseLines(path, init, p)
      case Err(e) => Err(e)
      case Ok(row) =>
        match TimeLine(line)
        case None => Ok(row)
        case Some(tn) =>
          match ParseFloat(tn.0)
          case None => Err(BadTime(path, line))
          case Some(t) => Ok(Put(row, tn.1, Time(t)))
  }

  /** A later line with the same name overwrites the earlier time. */
  lemma LastLineWins(path: string, init: Row, lines: seq<string>, line: string, t: real)
    requires Ordered(init) && ParseLines(path, init, lines).Ok?
    requires TimeLine(line).Some? && ParseFloat(TimeLine(line).value.0) == Some(t)
    ensures ParseLines(path, init, lines + [line]).Ok?
    ensures ParseLines(path, init, lines + [line]).value.m[TimeLine(line).value.1] == Time(t)
  {
    assert (lines + [line])[..|lines|] == lines;
  }

  /** One file's row: `None` when the directory name is not a task id,
      otherwise the map seeded with `taskid`. */
  function RowOf(path: string, lines: seq<string>): (r: Result<Option<Row>, FunError>)
    ensures TaskIdOf(path).None? ==> r == Ok(None)
    ensures r.Ok? ==> (r.value.Some? <==> TaskIdOf(path).Some?)
    ensures r.Ok? && r.value.Some? ==> Ordered(r.value.value)
    ensures r.Ok? && r.value.Some? ==> |r.value.value.keys| > 0 && r.value.value.keys[0] == "taskid"
    ensures r.Err? <==> TaskIdOf(path).Some? && exists i :: 0 <= i < |lines| && BadLine(lines[i])
  {
    match TaskIdOf(path)
    case None => Ok(None)
    case Some(id) =>
      var init := Put(Empty(), "taskid", TaskId(id));
      match ParseLines(path, init, lines)
      case Err(e) => Err(e)
      case Ok(row) => Ok(Some(row))
  }

  /** The row of a frame with columns `cols` that `.loc[...] = row` writes:
      each column takes the row's value for its name, NaN where the row has
      none; names without a column are dropped. */
  function Aligned(cols: seq<string>, row: Row): (cells: seq<Option<Cell>>)
    ensures |cells| == |cols|
    ensures forall j :: 0 <= j < |cols| ==> (cells[j].Some? <==> cols[j] in row.m)
    ensures forall j :: 0 <= j < |cols| && cols[j] in row.m ==> cells[j] == Some(row.m[cols[j]])
  {
    seq(|cols|, j requires 0 <= j < |cols| => if cols[j] in row.m then Some(row.m[cols[j]]) else None)
  }

  /** What each file yields, in path order. */
  type Parsed = seq<Result<Option<Row>, FunError>>

  function ParseAll(fnams: seq<string>, contents: string -> seq<string>): (ps: Parsed)
    ensures |ps| == |fnams|
  {
    if |fnams| == 0 then []
    else ParseAll(fnams[..|fnams| - 1], contents) + [RowOf(fnams[|fnams| - 1], contents(fnams[|fnams| - 1]))]
  }

  lemma {:induction false} ParseAllAt(fnams: seq<string>, contents: string -> seq<string>, i: nat)
    requires i < |fnams|
    ensures ParseAll(fnams, contents)[i] == RowOf(fnams[i], contents(fnams[i]))
  {
    if i < |fnams| - 1 {
      ParseAllAt(fnams[..|fnams| - 1], contents, i);
    }
  }

  predicate Good(p: Result<Option<Row>, FunError>) {
    p.Ok? && p.value.Some?
  }

  /** The number of files among the first `n` that yield a row. */
  function GoodCount(ps: Parsed, n: nat): (c: nat)
    requires n <= |ps|
    ensures c <= n
  {
    if n == 0 then 0 else GoodCount(ps, n - 1) + (if Good(ps[n - 1]) then 1 else 0)
  }

  lemma {:induction false} GoodCountMono(ps: Parsed, a: nat, b: nat)
    requires a <= b <= |ps|
    ensures GoodCount(ps, a) <= GoodCount(ps, b)
    ensures a < b && Good(ps[a]) ==> GoodCount(ps, a) < GoodCount(ps, b)
    decreases b
  {
    if a < b {
      GoodCountMono(ps, a, b - 1);
    }
  }

  /** The frame has a row per path; rows from `nent` on are still all NaN. */
  predicate Shaped(t: Table, nfile: nat, nent: nat) {
    && |t.rows| == nfile
    && nent <= nfile
    && (forall i :: 0 <= i < |t.rows| ==> |t.rows[i]| == |t.columns|)
    && (forall i :: nent <= i < |t.rows| ==> forall j :: 0 <= j < |t.rows[i]| ==> t.rows[i][j].None?)
  }

  /** The frame built from the first good row: its keys as columns, and
      `nfile` rows of NaN. */
  function Fresh(row: Row, nfile: nat): (t: Table)
    ensures Shaped(t, nfile, 0) && t.columns == row.keys
  {
    Table(row.keys, seq(nfile, _ => seq(|row.keys|, _ => None)))
  }

  /** `.loc[nent] = row`, the next free row. */
  function Write(t: Table, nent: nat, row: Row): (t': Table)
    requires Shaped(t, |t.rows|, nent) && nent < |t.rows|
    ensures Shaped(t', |t.rows|, nent + 1) && t'.columns == t.columns
    ensures t'.rows[nent] == Aligned(t.columns, row)
    ensures forall i :: 0 <= i < |t.rows| && i != nent ==> t'.rows[i] == t.rows[i]
  {
    t.(rows := t.rows[nent := Aligned(t.columns, row)])
  }

  /** State after the first `n` files: the frame (None until a file yields
      a row) and the count of rows written; the first failing file ends the
      load. */
  function LoadPrefix(ps: Parsed, n: nat): (r: Result<(Option<Table>, nat), FunError>)
    requires n <= |ps|
    ensures r.Err? <==> exists i :: 0 <= i < n && ps[i].Err?
    ensures r.Ok? ==> r.value.1 == GoodCount(ps, n)
    ensures r.Ok? ==> (r.value.0.None? <==> r.value.1 == 0)
    ensures r.Ok? && r.value.0.Some? ==> Shaped(r.value.0.value, |ps|, r.value.1)
  {
    if n == 0 then Ok((None, 0))
    else
      match LoadPrefix(ps, n - 1)
      case Err(e) => Err(e)
      case Ok(prev) =>
        match ps[n - 1]
        case Err(e) => Err(e)
        case Ok(None) => Ok(prev)
        case Ok(Some(row)) =>
          var t := if prev.0.Some? then prev.0.value else Fresh(row, |ps|);
          GoodCountMono(ps, n - 1, |ps|);
          Ok((Some(Write(t, prev.1, row)), prev.1 + 1))
  }

  /** The frame's columns are the keys of the first file that yields a row. */
  lemma {:induction false} ColumnsOfFirstRow(ps: Parsed, n: nat, m: nat)
    requires m < n <= |ps| && Good(ps[m]) && GoodCount(ps, m) == 0
    requires LoadPrefix(ps, n).Ok?
    ensures LoadPrefix(ps, n).value.0.Some?
    ensures LoadPrefix(ps, n).value.0.value.columns == ps[m].value.value.keys
  {
    GoodCountMono(ps, m, n - 1);
    if m < n - 1 {
      ColumnsOfFirstRow(ps, n - 1, m);
    }
  }

  /** Rows are written consecutively: row `GoodCount(m)` holds the map of
      the `m`-th file when that file yields one. */
  lemma {:induction false} RowsConsecutive(ps: Parsed, n: nat, m: nat)
    requires m < n <= |ps| && Good(ps[m])
    requires LoadPrefix(ps, n).Ok?
    ensures LoadPrefix(ps, n).value.0.Some?
    ensures var t := LoadPrefix(ps, n).value.0.value;
      t.rows[GoodCount(ps, m)] == Aligned(t.columns, ps[m].value.value)
  {
    GoodCountMono(ps, m, n - 1);
    GoodCountMono(ps, m, n);
    if m < n - 1 {
      RowsConsecutive(ps, n - 1, m);
    }
  }

  lemma {:induction false} GoodCountZero(ps: Parsed, n: nat)
    requires n <= |ps|
    ensures GoodCount(ps, n) == 0 <==> forall i :: 0 <= i < n ==> !Good(ps[i])
  {
    if n > 0 {
      GoodCountZero(ps, n - 1);
    }
  }

  /** When every row starts with `taskid`, so do the frame's columns. */
  lemma {:induction false} ColumnsStartWithTaskId(ps: Parsed, n: nat)
    requires n <= |ps| && LoadPrefix(ps, n).Ok? && LoadPrefix(ps, n).value.0.Some?
    requires forall i :: 0 <= i < |ps| && Good(ps[i]) ==> |ps[i].value.value.keys| > 0 && ps[i].value.value.keys[0] == "taskid"
    ensures var t := LoadPrefix(ps, n).value.0.value;
      |t.columns| > 0 && t.columns[0] == "taskid"
  {
    if LoadPrefix(ps, n - 1).value.0.Some? {
      ColumnsStartWithTaskId(ps, n - 1);
    }
  }

  /** The constructor: the paths the pattern matched, sorted, then loaded. */
  function FunctionData(found: seq<string>, contents: string -> seq<string>): (r: Result<Option<Table>, FunError>)
    ensures r.Ok? && r.value.Some? ==>
      Shaped(r.value.value, |found|, GoodCount(ParseAll(SortStrings(found), contents), |found|))
  {
    var fnams := SortStrings(found);
    var ps := ParseAll(fnams, contents);
    match LoadPrefix(ps, |ps|)
    case Err(e) => Err(e)
    case Ok(p) => Ok(p.0)
  }

  lemma FunctionDataValue(found: seq<string>, contents: string -> seq<string>)
    requires FunctionData(found, contents).Ok?
    ensures FunctionData(found, contents).value == LoadPrefix(ParseAll(SortStrings(found), contents), |found|).value.0
  {
  }

  /** The frame's first column is the task id. */
  lemma FunctionDataColumns(found: seq<string>, contents: string -> seq<string>)
    requires FunctionData(found, contents).Ok? && FunctionData(found, contents).value.Some?
    ensures var t := FunctionData(found, contents).value.value;
      |t.columns| > 0 && t.columns[0] == "taskid"
  {
    FunctionDataValue(found, contents);
    var fnams := SortStrings(found);
    var ps := ParseAll(fnams, contents);
    forall i | 0 <= i < |ps| {
      ParseAllAt(fnams, contents, i);
    }
    ColumnsStartWithTaskId(ps, |ps|);
  }

  /** A file that parses yields a row exactly when its path has a task id. */
  lemma GoodIffTaskId(fnams: seq<string>, contents: string -> seq<string>)
    ensures var ps := ParseAll(fnams, contents);
      forall i :: 0 <= i < |ps| && ps[i].Ok? ==> (Good(ps[i]) <==> TaskIdOf(fnams[i]).Some?)
  {
    forall i | 0 <= i < |fnams| {
      ParseAllAt(fnams, contents, i);
    }
  }

  lemma LoadNone(ps: Parsed)
    requires LoadPrefix(ps, |ps|).Ok?
    ensures LoadPrefix(ps, |ps|).value.0.None? <==> forall i :: 0 <= i < |ps| ==> !Good(ps[i])
    ensures forall i :: 0 <= i < |ps| ==> ps[i].Ok?
  {
    GoodCountZero(ps, |ps|);
  }

  lemma FunctionDataEmptySorted(found: seq<string>, contents: string -> seq<string>)
    requires FunctionData(found, contents).Ok?
    ensures var fnams := SortStrings(found);
      FunctionData(found, contents).value.None? <==> forall i :: 0 <= i < |fnams| ==> TaskIdOf(fnams[i]).None?
  {
    FunctionDataValue(found, contents);
    var fnams := SortStrings(found);
    var ps := ParseAll(fnams, contents);
    LoadNone(ps);
    GoodIffTaskId(fnams, contents);
  }

  /** A property of every path holds of every sorted path and back. */
  lemma AllSorted(found: seq<string>, f: string -> bool)
    ensures var fnams := SortStrings(found);
      (forall i :: 0 <= i < |fnams| ==> f(fnams[i])) <==> forall p :: p in found ==> f(p)
  {
    var fnams := SortStrings(found);
    if forall p :: p in found ==> f(p) {
      assert forall i :: 0 <= i < |fnams| ==> fnams[i] in found;
    } else {
      var p :| p in found && !f(p);
      var i :| 0 <= i < |fnams| && fnams[i] == p;
    }
  }

  /** There is no frame exactly when no matched path names a task
      directory. */
  lemma FunctionDataEmpty(found: seq<string>, contents: string -> seq<string>)
    requires FunctionData(found, contents).Ok?
    ensures FunctionData(found, contents).value.None? <==> forall p :: p in found ==> TaskIdOf(p).None?
  {
    FunctionDataEmptySorted(found, contents);
    AllSorted(found, p => TaskIdOf(p).None?);
  }
}
