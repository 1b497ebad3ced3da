/** The system reporter's configuration record, the header of its CSV file,
    and the step that turns one poll of the system counters into a sample of
    changes since the previous poll. */
module Reporter {
  import opened Wrappers
  import opened Seqs
  import opened Text

  // ---- Params ----

  /** A value given for a parameter; `update` stores whatever it is given. */
  datatype PyVal = Str(s: string) | Int(i: int) | Bool(b: bool) | Callable(name: string)

  /** The attributes of a `Params` object. */
  datatype Param = FNam | Dt | Check | Timeout | Subcom | Dbg | Thr | Log

  datatype Params = Params(
    fnam: PyVal, dt: PyVal, check: PyVal, timeout: PyVal,
    subcom: PyVal, dbg: PyVal, thr: PyVal, log: PyVal)

  /** The attribute name of each parameter. */
  function ParamName(q: Param): string {
    match q
    case FNam => "fnam"
    case Dt => "dt"
    case Check => "check"
    case Timeout => "timeout"
    case Subcom => "subcom"
    case Dbg => "dbg"
    case Thr => "thr"
    case Log => "log"
  }

  /** The parameter a name selects; `None` for a name `update` rejects. */
  function ParamOf(key: string): (q: Option<Param>)
    ensures q.Some? ==> ParamName(q.value) == key
  {
    match key
    case "fnam" => Some(FNam)
    case "dt" => Some(Dt)
    case "check" => Some(Check)
    case "timeout" => Some(Timeout)
    case "subcom" => Some(Subcom)
    case "dbg" => Some(Dbg)
    case "thr" => Some(Thr)
    case "log" => Some(Log)
    case _ => None
  }

  /** Every parameter is selected by its own name, so the names are
      distinct and `ParamOf` rejects exactly the other strings. */
  lemma ParamOfName(q: Param)
    ensures ParamOf(ParamName(q)) == Some(q)
  {
  }

  /** `getattr(p, name)`. */
  function Get(p: Params, q: Param): PyVal {
    match q
    case FNam => p.fnam
    case Dt => p.dt
    case Check => p.check
    case Timeout => p.timeout
    case Subcom => p.subcom
    case Dbg => p.dbg
    case Thr => p.thr
    case Log => p.log
  }

  /** One assignment of `update`: the named parameter takes the value and
      every other keeps its own. */
  function Set(p: Params, q: Param, v: PyVal): (r: Params)
    ensures forall q' :: Get(r, q') == if q' == q then v else Get(p, q')
  {
    match q
    case FNam => p.(fnam := v)
    case Dt => p.(dt := v)
    case Check => p.(check := v)
    case Timeout => p.(timeout := v)
    case Subcom => p.(subcom := v)
    case Dbg => p.(dbg := v)
    case Thr => p.(thr := v)
    case Log => p.(log := v)
  }

  /** Two records that agree on every parameter are equal. */
  lemma ParamsExtensional(p: Params, r: Params)
    requires forall q :: Get(p, q) == Get(r, q)
    ensures p == r
  {
    assert Get(p, FNam) == Get(r, FNam) && Get(p, Dt) == Get(r, Dt);
    assert Get(p, Check) == Get(r, Check) && Get(p, Timeout) == Get(r, Timeout);
    assert Get(p, Subcom) == Get(r, Subcom) && Get(p, Dbg) == Get(r, Dbg);
    assert Get(p, Thr) == Get(r, Thr) && Get(p, Log) == Get(r, Log);
  }

  /** `Params()`: the class defaults, with `check` the function that always
      returns None. */
  function Defaults(): (p: Params)
    ensures Get(p, FNam) == Str("sysmon.csv") && Get(p, Dt) == Int(10) && Get(p, Check) == Callable("none")
    ensures Get(p, Timeout) == Int(0) && Get(p, Subcom) == Str("") && Get(p, Dbg) == Int(1)
    ensures Get(p, Thr) == Bool(false) && Get(p, Log) == Str("")
  {
    Params(Str("sysmon.csv"), Int(10), Callable("none"), Int(0), Str(""), Int(1), Bool(false), Str(""))
  }

  /** The value the last entry naming `q` gives, if any. */
  function LastFor(vals: seq<(string, PyVal)>, q: Param): Option<PyVal> {
    if |vals| == 0 then None
    else if ParamOf(vals[|vals| - 1].0) == Some(q) then Some(vals[|vals| - 1].1)
    else LastFor(vals[..|vals| - 1], q)
  }

  /** `update(vals)`, the entries in the dictionary's order: the record as
      far as it got, and the name that raised `KeyError`, if one did. With
      no error, each parameter holds the last value given for it, or its
      old value. */
  function Update(p: Params, vals: seq<(string, PyVal)>): (r: (Params, Option<string>))
    ensures r.1.None? <==> forall i :: 0 <= i < |vals| ==> ParamOf(vals[i].0).Some?
    ensures r.1.None? ==>
      forall q :: Get(r.0, q) == if LastFor(vals, q).Some? then LastFor(vals, q).value else Get(p, q)
  {
    if |vals| == 0 then (p, None)
    else
      var pre := vals[..|vals| - 1];
      var e := vals[|vals| - 1];
      assert forall i :: 0 <= i < |pre| ==> pre[i] == vals[i];
      var u := Update(p, pre);
      if u.1.Some? then u
      else
        match ParamOf(e.0)
        case None => (u.0, Some(e.0))
        case Some(q) => (Set(u.0, q, e.1), None)
  }

  /** The index of the first entry whose name is not a parameter. */
  function FirstUnknown(vals: seq<(string, PyVal)>): (i: nat)
    ensures i <= |vals|
    ensures forall j :: 0 <= j < i ==> ParamOf(vals[j].0).Some?
    ensures i < |vals| ==> ParamOf(vals[i].0).None?
  {
    if |vals| == 0 || ParamOf(vals[0].0).None? then 0 else 1 + FirstUnknown(vals[1..])
  }

  lemma FirstUnknownPrefix(vals: seq<(string, PyVal)>, n: nat)
    requires n <= |vals| && FirstUnknown(vals[..n]) < n
    ensures FirstUnknown(vals) == FirstUnknown(vals[..n])
  {
    var i := FirstUnknown(vals[..n]);
    assert forall j :: 0 <= j <= i ==> vals[..n][j] == vals[j];
  }

  /** On `KeyError` the entries before the offending one stay applied, and
      nothing after it is. */
  lemma {:induction false} UpdateStopsAtUnknown(p: Params, vals: seq<(string, PyVal)>)
    requires Update(p, vals).1.Some?
    ensures var i := FirstUnknown(vals);
      i < |vals| && Update(p, vals) == (Update(p, vals[..i]).0, Some(vals[i].0))
  {
    var n := |vals|;
    var pre := vals[..n - 1];
    if Update(p, pre).1.Some? {
      UpdateStopsAtUnknown(p, pre);
      FirstUnknownPrefix(vals, n - 1);
      var i := FirstUnknown(pre);
      assert pre[..i] == vals[..i];
    } else {
      assert forall j :: 0 <= j < n - 1 ==> ParamOf(vals[j].0).Some? by {
        assert forall j :: 0 <= j < n - 1 ==> pre[j] == vals[j];
      }
      assert pre == vals[..n - 1];
    }
  }

  /** Parameters no entry names keep their values, whether or not the
      update raised. */
  lemma {:induction false} UpdateKeepsOthers(p: Params, vals: seq<(string, PyVal)>, q: Param)
    requires forall i :: 0 <= i < |vals| ==> ParamOf(vals[i].0) != Some(q)
    ensures Get(Update(p, vals).0, q) == Get(p, q)
  {
    if |vals| > 0 {
      UpdateKeepsOthers(p, vals[..|vals| - 1], q);
    }
  }

  // ---- The CSV header ----

  /** The fields of one poll. */
  datatype Col =
    | Time | CpuCount | CpuPercent
    | CpuUser | CpuSystem | CpuIdle | CpuIowait | CpuTime
    | MemTotal | MemAvailable | MemSwapfree
    | DioReadcount | DioWritecount | DioReadsize | DioWritesize
    | NioReadsize | NioWritesize

  /** The dictionary key of each field. */
  function ColName(c: Col): string {
    match c
    case Time => "time"
    case CpuCount => "cpu_count"
    case CpuPercent => "cpu_percent"
    case CpuUser => "cpu_user"
    case CpuSystem => "cpu_system"
    case CpuIdle => "cpu_idle"
    case CpuIowait => "cpu_iowait"
    case CpuTime => "cpu_time"
    case MemTotal => "mem_total"
    case MemAvailable => "mem_available"
    case MemSwapfree => "mem_swapfree"
    case DioReadcount => "dio_readcount"
    case DioWritecount => "dio_writecount"
    case DioReadsize => "dio_readsize"
    case DioWritesize => "dio_writesize"
    case NioReadsize => "nio_readsize"
    case NioWritesize => "nio_writesize"
  }

  /** The recorded fields, in column order; the disk operation counts are
      computed but not written. */
  const KeyCols: seq<Col> := [
    Time, CpuCount, CpuPercent,
    CpuUser, CpuSystem, CpuIdle, CpuIowait, CpuTime,
    MemTotal, MemAvailable, MemSwapfree,
    DioReadsize, DioWritesize,
    NioReadsize, NioWritesize]

  const Keys: seq<string> := [
    "time", "cpu_count", "cpu_percent",
    "cpu_user", "cpu_system", "cpu_idle", "cpu_iowait", "cpu_time",
    "mem_total", "mem_available", "mem_swapfree",
    "dio_readsize", "dio_writesize",
    "nio_readsize", "nio_writesize"]

  /** Each key of a line names a field of the poll, so every key is set in
      the poll's dictionary; the two operation counts are the fields left
      out. */
  lemma KeysNameColumns()
    ensures |Keys| == |KeyCols| && forall i :: 0 <= i < |Keys| ==> Keys[i] == ColName(KeyCols[i])
    ensures forall c :: c !in KeyCols <==> c == DioReadcount || c == DioWritecount
  {
  }

  function Header(): string {
    Join(Keys, ",")
  }

  /** The header splits back into the keys, so it starts with the first
      key and holds one ',' between neighbours. */
  lemma HeaderSplits()
    ensures Split(Header(), ',') == Keys
    ensures Keys[0] <= Header() && Header()[0] != ','
  {
    assert forall i :: 0 <= i < |Keys| ==> ',' !in Keys[i];
    SplitJoin(Keys, ',');
    JoinEnds(Keys, ",");
  }

  // ---- Polling ----

  /** Bytes per GB. */
  const Gb: real := 1073741824.0

  /** `psutil.cpu_times()`: the named fields the sample uses, and the rest. */
  datatype CpuTimes = CpuTimes(user: real, nice: real, system: real, idle: real, iowait: real, rest: seq<real>)

  /** `sum(cpt)`. */
  function CpuSum(c: CpuTimes): real {
    c.user + c.nice + c.system + c.idle + c.iowait + RealSum(c.rest)
  }

  datatype DiskIo = DiskIo(readCount: int, writeCount: int, readBytes: int, writeBytes: int)
  datatype NetIo = NetIo(bytesRecv: int, bytesSent: int)
  datatype VirtualMem = VirtualMem(total: int, available: int, free: int)
  datatype SwapMem = SwapMem(total: int, free: int)

  /** One poll of the system. */
  datatype Reading = Reading(
    time: real, cpuCount: int, cpuPercent: real, cpt: CpuTimes,
    mem: VirtualMem, swap: SwapMem, dio: DiskIo, nio: NetIo)

  /** The counters kept from the previous poll (`cptlast`, `cptsumlast`,
      `diolast`, `niolast`), all unset before the first. */
  datatype Last = NoLast | Last(cpt: CpuTimes, cptsum: real, dio: DiskIo, nio: NetIo)

  function Counters(r: Reading): (l: Last)
    ensures l.Last?
  {
    Last(r.cpt, CpuSum(r.cpt), r.dio, r.nio)
  }

  /** The dictionary `d` of one poll. */
  datatype Sample = Sample(
    time: real, cpuCount: real, cpuPercent: real,
    cpuUser: real, cpuSystem: real, cpuIdle: real, cpuIowait: real, cpuTime: real,
    memTotal: real, memAvailable: real, memSwapfree: real,
    dioReadcount: real, dioWritecount: real, dioReadsize: real, dioWritesize: real,
    nioReadsize: real, nioWritesize: real)

  /** `d[key]`. */
  function Value(s: Sample, c: Col): real {
    match c
    case Time => s.time
    case CpuCount => s.cpuCount
    case CpuPercent => s.cpuPercent
    case CpuUser => s.cpuUser
    case CpuSystem => s.cpuSystem
    case CpuIdle => s.cpuIdle
    case CpuIowait => s.cpuIowait
    case CpuTime => s.cpuTime
    case MemTotal => s.memTotal
    case MemAvailable => s.memAvailable
    case MemSwapfree => s.memSwapfree
    case DioReadcount => s.dioReadcount
    case DioWritecount => s.dioWritecount
    case DioReadsize => s.dioReadsize
    case DioWritesize => s.dioWritesize
    case NioReadsize => s.nioReadsize
    case NioWritesize => s.nioWritesize
  }

  /** The fields recorded as the change since the previous poll. */
  predicate Incremental(c: Col) {
    !(c.Time? || c.CpuCount? || c.CpuPercent? || c.MemTotal? || c.MemAvailable? || c.MemSwapfree?)
  }

  /** The raw counter behind each incremental field, in the field's unit. */
  function Raw(l: Last, c: Col): real
    requires l.Last?
  {
    match c
    case CpuUser => l.cpt.user
    case CpuSystem => l.cpt.system
    case CpuIdle => l.cpt.idle
    case CpuIowait => l.cpt.iowait
    case CpuTime => l.cptsum
    case DioReadcount => l.dio.readCount as real
    case DioWritecount => l.dio.writeCount as real
    case DioReadsize => l.dio.readBytes as real / Gb
    case DioWritesize => l.dio.writeBytes as real / Gb
    case NioReadsize => l.nio.bytesRecv as real / Gb
    case NioWritesize => l.nio.bytesSent as real / Gb
    case _ => 0.0
  }

  /** The sample of a poll against the previous counters: each incremental
      field is the change of its counter. The `mem_swapfree` field is read
      from the virtual-memory record, so it holds the free memory. */
  function SampleOf(prev: Last, r: Reading): (s: Sample)
    requires prev.Last?
    ensures forall c :: Incremental(c) ==> Value(s, c) == Raw(Counters(r), c) - Raw(prev, c)
    ensures s.time == r.time && s.cpuCount == r.cpuCount as real && s.cpuPercent == r.cpuPercent
    ensures s.memTotal == r.mem.total as real / Gb && s.memAvailable == r.mem.available as real / Gb
    ensures s.memSwapfree == r.mem.free as real / Gb
  {
    var c := r.cpt;
    Sample(
      r.time, r.cpuCount as real, r.cpuPercent,
      c.user - prev.cpt.user, c.system - prev.cpt.system, c.idle - prev.cpt.idle,
      c.iowait - prev.cpt.iowait, CpuSum(c) - prev.cptsum,
      r.mem.total as real / Gb, r.mem.available as real / Gb, r.mem.free as real / Gb,
      (r.dio.readCount - prev.dio.readCount) as real, (r.dio.writeCount - prev.dio.writeCount) as real,
      (r.dio.readBytes - prev.dio.readBytes) as real / Gb, (r.dio.writeBytes - prev.dio.writeBytes) as real / Gb,
      (r.nio.bytesRecv - prev.nio.bytesRecv) as real / Gb, (r.nio.bytesSent - prev.nio.bytesSent) as real / Gb)
  }

  /** The sample as intended: the free swap comes from the swap record, and
      every other field is the same as in `SampleOf`. */
  function SampleOfIntended(prev: Last, r: Reading): (s: Sample)
    requires prev.Last?
    ensures s.memSwapfree == r.swap.free as real / Gb
    ensures forall c :: c != MemSwapfree ==> Value(s, c) == Value(SampleOf(prev, r), c)
  {
    SampleOf(prev, r).(memSwapfree := r.swap.free as real / Gb)
  }

  /** One pass of the polling loop: the first poll takes itself as the
      previous one, and the counters then advance to this poll's. */
  function Poll(last: Last, r: Reading): (o: (Last, Sample))
    ensures o.0 == Counters(r)
    ensures o.1.memSwapfree == r.mem.free as real / Gb
    ensures forall c :: Incremental(c) ==>
      Value(o.1, c) == Raw(Counters(r), c) - Raw(if last.NoLast? then Counters(r) else last, c)
  {
    var prev := if last.NoLast? then Counters(r) else last;
    (Counters(r), SampleOf(prev, r))
  }

  /** The polling loop's pass with the free swap read as intended. */
  function PollIntended(last: Last, r: Reading): (o: (Last, Sample))
    ensures o.0 == Counters(r)
    ensures o.1.memSwapfree == r.swap.free as real / Gb
    ensures forall c :: Incremental(c) ==>
      Value(o.1, c) == Raw(Counters(r), c) - Raw(if last.NoLast? then Counters(r) else last, c)
  {
    var prev := if last.NoLast? then Counters(r) else last;
    (Counters(r), SampleOfIntended(prev, r))
  }

  /** The first poll has nothing to compare with: every incremental field
      is zero. */
  lemma FirstPollZero(r: Reading)
    ensures forall c :: Incremental(c) ==> Value(Poll(NoLast, r).1, c) == 0.0
  {
  }

  /** The loop over a run of polls. */
  function PollAll(rs: seq<Reading>): (o: (Last, seq<Sample>))
    ensures |o.1| == |rs|
    ensures |rs| == 0 <==> o.0.NoLast?
    ensures |rs| > 0 ==> o.0 == Counters(rs[|rs| - 1])
  {
    if |rs| == 0 then (NoLast, [])
    else
      var p := PollAll(rs[..|rs| - 1]);
      var q := Poll(p.0, rs[|rs| - 1]);
      (q.0, p.1 + [q.1])
  }

  /** The column of one field over the samples. */
  function Column(ss: seq<Sample>, c: Col): (col: seq<real>)
    ensures |col| == |ss|
  {
    if |ss| == 0 then [] else Column(ss[..|ss| - 1], c) + [Value(ss[|ss| - 1], c)]
  }

  /** Summing an incremental column over the polls gives back the change of
      its counter from the first poll to the last. */
  lemma {:induction false} ColumnTelescopes(rs: seq<Reading>, c: Col)
    requires |rs| > 0 && Incremental(c)
    ensures RealSum(Column(PollAll(rs).1, c)) == Raw(Counters(rs[|rs| - 1]), c) - Raw(Counters(rs[0]), c)
  {
    var n := |rs|;
    var ss := PollAll(rs).1;
    var p := PollAll(rs[..n - 1]);
    assert ss[..n - 1] == p.1;
    var col := Column(ss, c);
    assert col[..n - 1] == Column(p.1, c);
    if n > 1 {
      ColumnTelescopes(rs[..n - 1], c);
      assert rs[..n - 1][0] == rs[0];
    }
  }

  /** As written the free-swap column holds free memory; the corrected
      poll differs from it in that column only, and on any machine whose
      free memory differs from its free swap, such as one with 2 bytes of
      free memory and 16 of free swap, the two samples differ. */
  lemma SwapFreeAsWrittenReadsMemory(last: Last, r: Reading)
    ensures Poll(last, r).1.memSwapfree == r.mem.free as real / Gb
    ensures forall c :: c != MemSwapfree ==> Value(Poll(last, r).1, c) == Value(PollIntended(last, r).1, c)
    ensures r.mem.free != r.swap.free <==> Poll(last, r).1 != PollIntended(last, r).1
    ensures var m := Reading(0.0, 1, 0.0, CpuTimes(0.0, 0.0, 0.0, 0.0, 0.0, []),
      VirtualMem(8, 4, 2), SwapMem(16, 16), DiskIo(0, 0, 0, 0), NetIo(0, 0));
      Poll(last, m).1 != PollIntended(last, m).1
  {
    var a := Poll(last, r).1;
    var b := PollIntended(last, r).1;
    if r.mem.free == r.swap.free {
      assert a == b;
    }
  }
}
