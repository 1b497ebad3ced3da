/** `fix_tasks`: dense task-function indices in first-seen order, the
    per-run task index table, and the task-id continuity check. */
module Tasks {
  import opened Wrappers
  import opened Seqs
  import opened Tables

  /** The reader's task bookkeeping while the task table is scanned; `curRun`,
      `nextId` and `idxs` are the loop's locals (`run_idx`, `task_id`,
      `task_idxs`). */
  datatype TaskScan = TaskScan(curRun: nat, nextId: int, names: seq<string>, counts: seq<nat>,
                               index: seq<seq<nat>>, logs: seq<string>, idxs: seq<nat>)

  predicate Shaped(st: TaskScan) {
    |st.counts| == |st.names| && NoDups(st.names)
  }

  /** The state before the loop: names, counts and logs reset, one empty list
      appended to `task_index` per run id (the old lists are kept). */
  function Fresh(index: seq<seq<nat>>, nrun: nat): TaskScan {
    TaskScan(0, 0, [], [], index + seq(nrun, _ => []), [], [])
  }

  /** The name bookkeeping for one row: a new name is appended with count 1,
      a known one has its count raised; the row's task index is returned. */
  function AddName(names: seq<string>, counts: seq<nat>, name: string): (a: (seq<string>, seq<nat>, nat))
    requires |counts| == |names| && NoDups(names)
    ensures |a.1| == |a.0| && NoDups(a.0)
    ensures a.2 < |a.0| && a.0[a.2] == name && |names| <= |a.0| && a.0[..|names|] == names
  {
    if name in names then
      var idx := IndexOf(names, name);
      (names, counts[idx := counts[idx] + 1], idx)
    else (names + [name], counts + [1], |names|)
  }

  /** One row of the loop. `Err` carries the reader's state at the failing
      assertion: the name bookkeeping of the row has already happened when the
      second assertion fails. */
  function Step(st: TaskScan, row: Keyed<nat, TaskRow>): (r: Result<TaskScan, TaskScan>)
    requires Shaped(st)
    ensures r.Ok? ==> Shaped(r.value)
    ensures r.Err? ==> Shaped(r.error)
    ensures r.Ok? ==> |r.value.idxs| == |st.idxs| + 1 && |r.value.names| > 0
  {
    var tid := if row.run != st.curRun then 0 else st.nextId;
    if tid != row.body.taskId then Err(st)
    else
      var a := AddName(st.names, st.counts, row.body.funcName);
      var idx := a.2;
      var st1 := st.(names := a.0, counts := a.1);
      if row.run >= |st.index| || |st.index[row.run]| != tid then Err(st1)
      else
        Ok(st1.(curRun := row.run, nextId := tid + 1,
                index := st.index[row.run := st.index[row.run] + [idx]],
                logs := st.logs + [row.body.stderr], idxs := st.idxs + [idx]))
  }

  function Scan(init: TaskScan, rows: seq<Keyed<nat, TaskRow>>): (r: Result<TaskScan, TaskScan>)
    requires Shaped(init)
    ensures r.Ok? ==> Shaped(r.value)
    ensures r.Err? ==> Shaped(r.error)
    ensures r.Ok? ==> |r.value.idxs| == |init.idxs| + |rows| && (|rows| > 0 ==> |r.value.names| > 0)
  {
    if |rows| == 0 then Ok(init)
    else
      match Scan(init, rows[..|rows| - 1])
      case Err(st) => Err(st)
      case Ok(st) => Step(st, rows[|rows| - 1])
  }

  function FuncColumn(rows: seq<Keyed<nat, TaskRow>>): (c: seq<string>)
    ensures |c| == |rows| && forall k :: 0 <= k < |rows| ==> c[k] == rows[k].body.funcName
  {
    seq(|rows|, k requires 0 <= k < |rows| => rows[k].body.funcName)
  }

  function CountRun(rows: seq<Keyed<nat, TaskRow>>, run: nat): nat {
    if |rows| == 0 then 0
    else CountRun(rows[..|rows| - 1], run) + (if rows[|rows| - 1].run == run then 1 else 0)
  }

  /** The number of rows before row `k` that belong to row `k`'s run. */
  function CountBefore(rows: seq<Keyed<nat, TaskRow>>, k: nat): nat
    requires k < |rows|
  {
    CountRun(rows[..k], rows[k].run)
  }

  /** Row `k` is consistent: its run is known, its task id is the number of
      earlier rows of the same run, and where a new block of rows begins the
      run has not been seen before. */
  predicate RowOk(rows: seq<Keyed<nat, TaskRow>>, k: nat, nrun: nat)
    requires k < |rows|
  {
    && rows[k].run < nrun
    && rows[k].body.taskId == CountBefore(rows, k)
    && (k > 0 && rows[k - 1].run != rows[k].run ==> CountBefore(rows, k) == 0)
  }

  /** Task ids within each run are 0, 1, 2, ... and each run's rows form one
      consecutive block. */
  predicate Continuous(rows: seq<Keyed<nat, TaskRow>>, nrun: nat) {
    forall k :: 0 <= k < |rows| ==> RowOk(rows, k, nrun)
  }

  /** What the loop has established after the first `n` rows, from a fresh
      index table: the loop cursor, the index table, and the name bookkeeping. */
  predicate InvCursor(rows: seq<Keyed<nat, TaskRow>>, n: nat, st: TaskScan)
    requires n <= |rows|
  {
    && st.curRun == (if n == 0 then 0 else rows[n - 1].run)
    && st.nextId == (if n == 0 then 0 else rows[n - 1].body.taskId + 1)
  }

  predicate InvIndex(rows: seq<Keyed<nat, TaskRow>>, n: nat, index: seq<seq<nat>>, idxs: seq<nat>, nrun: nat)
    requires n <= |rows|
  {
    && |index| == nrun
    && (forall r :: 0 <= r < nrun ==> |index[r]| == CountRun(rows[..n], r))
    && |idxs| == n
    && (forall k :: 0 <= k < n ==>
          && rows[k].run < nrun
          && 0 <= rows[k].body.taskId < |index[rows[k].run]|
          && index[rows[k].run][rows[k].body.taskId] == idxs[k])
  }

  predicate NamesOf(f: seq<string>, names: seq<string>, counts: seq<nat>) {
    && names == Distinct(f)
    && |counts| == |names|
    && Sum(counts) == |f|
    && (forall i :: 0 <= i < |names| ==> counts[i] == Count(f, names[i]))
  }

  predicate InvNames(rows: seq<Keyed<nat, TaskRow>>, n: nat, names: seq<string>, counts: seq<nat>,
                     logs: seq<string>, idxs: seq<nat>)
    requires n <= |rows|
  {
    && NamesOf(FuncColumn(rows[..n]), names, counts)
    && |idxs| == n && |logs| == n
    && (forall k :: 0 <= k < n ==>
          && idxs[k] < |names|
          && names[idxs[k]] == rows[k].body.funcName
          && logs[k] == rows[k].body.stderr)
  }

  predicate Inv(rows: seq<Keyed<nat, TaskRow>>, n: nat, st: TaskScan, nrun: nat)
    requires n <= |rows|
  {
    && InvCursor(rows, n, st)
    && InvIndex(rows, n, st.index, st.idxs, nrun)
    && InvNames(rows, n, st.names, st.counts, st.logs, st.idxs)
  }

  lemma CountAbsent<T>(s: seq<T>, x: T)
    requires x !in s
    ensures Count(s, x) == 0
  {
    if |s| > 0 {
      assert s[..|s| - 1] <= s;
      CountAbsent(s[..|s| - 1], x);
    }
  }

  lemma SumIncrement(s: seq<nat>, i: nat)
    requires i < |s|
    ensures Sum(s[i := s[i] + 1]) == Sum(s) + 1
  {
    if i < |s| - 1 {
      SumIncrement(s[..|s| - 1], i);
      assert s[i := s[i] + 1][..|s| - 1] == s[..|s| - 1][i := s[i] + 1];
    } else {
      assert s[i := s[i] + 1][..|s| - 1] == s[..|s| - 1];
    }
  }

  lemma CountRunPrefix(rows: seq<Keyed<nat, TaskRow>>, n: nat, r: nat)
    requires n < |rows|
    ensures CountRun(rows[..n + 1], r) == CountRun(rows[..n], r) + (if rows[n].run == r then 1 else 0)
  {
    assert rows[..n + 1][..n] == rows[..n];
  }

  /** The name bookkeeping of one more function name. */
  lemma NamesStep(f: seq<string>, names: seq<string>, counts: seq<nat>, name: string)
    requires NamesOf(f, names, counts) && NoDups(names)
    ensures var a := AddName(names, counts, name); NamesOf(f + [name], a.0, a.1)
  {
    if name in names {
      NamesStepKnown(f, names, counts, name, IndexOf(names, name));
    } else {
      NamesStepNew(f, names, counts, name);
    }
  }

  /** A name already seen, at `idx`: its count goes up by one. */
  lemma NamesStepKnown(f: seq<string>, names: seq<string>, counts: seq<nat>, name: string, idx: nat)
    requires NamesOf(f, names, counts) && NoDups(names) && idx < |names| && names[idx] == name
    ensures NamesOf(f + [name], names, counts[idx := counts[idx] + 1])
  {
    SumIncrement(counts, idx);
    CountsStepKnown(f, names, counts, idx, name);
    DistinctSnocKnown(f, name);
  }

  lemma DistinctSnocKnown<T>(s: seq<T>, x: T)
    requires x in Distinct(s)
    ensures Distinct(s + [x]) == Distinct(s)
  {
    assert (s + [x])[..|s|] == s;
  }

  lemma DistinctSnocNew<T>(s: seq<T>, x: T)
    requires x !in Distinct(s)
    ensures Distinct(s + [x]) == Distinct(s) + [x]
  {
    assert (s + [x])[..|s|] == s;
  }

  lemma CountsStepKnown(f: seq<string>, names: seq<string>, counts: seq<nat>, idx: nat, name: string)
    requires |counts| == |names| && NoDups(names) && idx < |names| && names[idx] == name
    requires forall i :: 0 <= i < |names| ==> counts[i] == Count(f, names[i])
    ensures var c := counts[idx := counts[idx] + 1];
      forall i :: 0 <= i < |names| ==> c[i] == Count(f + [name], names[i])
  {
    var c := counts[idx := counts[idx] + 1];
    forall i | 0 <= i < |names| ensures c[i] == Count(f + [name], names[i]) {
      CountSnoc(f, name, names[i]);
    }
  }

  lemma CountSnoc<T>(s: seq<T>, x: T, y: T)
    ensures Count(s + [x], y) == Count(s, y) + (if x == y then 1 else 0)
  {
    assert (s + [x])[..|s|] == s;
  }

  /** A new name: appended with a count of one. */
  lemma NamesStepNew(f: seq<string>, names: seq<string>, counts: seq<nat>, name: string)
    requires NamesOf(f, names, counts) && NoDups(names) && name !in names
    ensures NamesOf(f + [name], names + [name], counts + [1])
  {
    var f1 := f + [name];
    assert name !in f;
    CountAbsent(f, name);
    DistinctSnocNew(f, name);
    var c := counts + [1];
    var n1 := names + [name];
    assert (counts + [1])[..|counts|] == counts;
    forall i | 0 <= i < |n1| ensures c[i] == Count(f1, n1[i]) {
      CountSnoc(f, name, n1[i]);
    }
  }

  lemma InvNamesStep(rows: seq<Keyed<nat, TaskRow>>, n: nat, st: TaskScan)
    requires n < |rows| && InvNames(rows, n, st.names, st.counts, st.logs, st.idxs) && Shaped(st)
    ensures var a := AddName(st.names, st.counts, rows[n].body.funcName);
      InvNames(rows, n + 1, a.0, a.1, st.logs + [rows[n].body.stderr], st.idxs + [a.2])
  {
    var name := rows[n].body.funcName;
    FuncColumnPrefix(rows, n);
    NamesStep(FuncColumn(rows[..n]), st.names, st.counts, name);
    InvNamesRowsStep(rows, n, st.names, st.counts, st.logs, st.idxs);
  }

  lemma InvNamesRowsStep(rows: seq<Keyed<nat, TaskRow>>, n: nat, names: seq<string>, counts: seq<nat>,
                         logs: seq<string>, idxs: seq<nat>)
    requires n < |rows| && |counts| == |names| && NoDups(names)
    requires |idxs| == n && |logs| == n
    requires forall k :: 0 <= k < n ==>
      && idxs[k] < |names| && names[idxs[k]] == rows[k].body.funcName && logs[k] == rows[k].body.stderr
    ensures var a := AddName(names, counts, rows[n].body.funcName);
      var logs' := logs + [rows[n].body.stderr];
      var idxs' := idxs + [a.2];
      forall k :: 0 <= k < n + 1 ==>
        && idxs'[k] < |a.0| && a.0[idxs'[k]] == rows[k].body.funcName && logs'[k] == rows[k].body.stderr
  {
    var a := AddName(names, counts, rows[n].body.funcName);
    var logs' := logs + [rows[n].body.stderr];
    var idxs' := idxs + [a.2];
    forall k | 0 <= k < n + 1
      ensures idxs'[k] < |a.0| && a.0[idxs'[k]] == rows[k].body.funcName && logs'[k] == rows[k].body.stderr
    {
      if k < n {
        assert idxs'[k] == idxs[k] && logs'[k] == logs[k];
        assert a.0[idxs[k]] == a.0[..|names|][idxs[k]];
      }
    }
  }

  lemma FuncColumnPrefix(rows: seq<Keyed<nat, TaskRow>>, n: nat)
    requires n < |rows|
    ensures FuncColumn(rows[..n + 1]) == FuncColumn(rows[..n]) + [rows[n].body.funcName]
  {
    var a := FuncColumn(rows[..n + 1]);
    var b := FuncColumn(rows[..n]) + [rows[n].body.funcName];
    assert |a| == |b|;
    forall k | 0 <= k < |a| ensures a[k] == b[k] {
    }
  }

  /** The loop's expected task id for row `n` is the row's block position. */
  lemma ExpectedId(rows: seq<Keyed<nat, TaskRow>>, n: nat, st: TaskScan, nrun: nat)
    requires n < |rows| && InvCursor(rows, n, st)
    requires n > 0 ==> RowOk(rows, n - 1, nrun)
    ensures var tid := if rows[n].run != st.curRun then 0 else st.nextId;
      (tid == rows[n].body.taskId && tid == CountBefore(rows, n) && rows[n].run < nrun)
        <==> RowOk(rows, n, nrun)
  {
    var row := rows[n];
    if n > 0 && row.run == rows[n - 1].run {
      assert RowOk(rows, n - 1, nrun);
      assert rows[..n][..n - 1] == rows[..n - 1];
      CountRunPrefix(rows, n - 1, row.run);
    } else if n == 0 {
      assert CountRun(rows[..0], row.run) == 0;
    }
  }

  lemma InvIndexStep(rows: seq<Keyed<nat, TaskRow>>, n: nat, st: TaskScan, nrun: nat, idx: nat)
    requires n < |rows| && InvIndex(rows, n, st.index, st.idxs, nrun)
    requires rows[n].run < nrun && rows[n].body.taskId == CountRun(rows[..n], rows[n].run)
    ensures var run := rows[n].run;
      InvIndex(rows, n + 1, st.index[run := st.index[run] + [idx]], st.idxs + [idx], nrun)
  {
    var run := rows[n].run;
    var st2 := st.(index := st.index[run := st.index[run] + [idx]], idxs := st.idxs + [idx]);
    forall r | 0 <= r < nrun
      ensures |st2.index[r]| == CountRun(rows[..n + 1], r)
    {
      CountRunPrefix(rows, n, r);
    }
    forall k | 0 <= k < n + 1
      ensures && rows[k].run < nrun
              && 0 <= rows[k].body.taskId < |st2.index[rows[k].run]|
              && st2.index[rows[k].run][rows[k].body.taskId] == st2.idxs[k]
    {
      if k < n {
        assert st2.index[rows[k].run][..|st.index[rows[k].run]|] == st.index[rows[k].run];
      }
    }
  }

  /** When one row passes, and what it leaves behind. */
  lemma StepShape(st: TaskScan, row: Keyed<nat, TaskRow>, count: nat)
    requires Shaped(st)
    requires row.run < |st.index| ==> |st.index[row.run]| == count
    ensures var tid := if row.run != st.curRun then 0 else st.nextId;
      && (Step(st, row).Ok? <==> tid == row.body.taskId && row.run < |st.index| && count == tid)
      && (Step(st, row).Ok? ==>
            var a := AddName(st.names, st.counts, row.body.funcName);
            Step(st, row).value ==
              TaskScan(row.run, tid + 1, a.0, a.1, st.index[row.run := st.index[row.run] + [a.2]],
                       st.logs + [row.body.stderr], st.idxs + [a.2]))
  {
  }

  /** One row keeps the invariant, and the row passes both assertions exactly
      when it is consistent. */
  lemma {:induction false} StepKeepsInv(rows: seq<Keyed<nat, TaskRow>>, n: nat, st: TaskScan, nrun: nat)
    requires n < |rows| && Inv(rows, n, st, nrun) && Shaped(st)
    requires n > 0 ==> RowOk(rows, n - 1, nrun)
    ensures Step(st, rows[n]).Ok? <==> RowOk(rows, n, nrun)
    ensures Step(st, rows[n]).Ok? ==> Inv(rows, n + 1, Step(st, rows[n]).value, nrun)
  {
    var row := rows[n];
    var count := CountRun(rows[..n], row.run);
    ExpectedId(rows, n, st, nrun);
    assert CountBefore(rows, n) == count;
    assert |st.index| == nrun;
    assert row.run < nrun ==> |st.index[row.run]| == count;
    StepShape(st, row, count);
    if Step(st, row).Ok? {
      var a := AddName(st.names, st.counts, row.body.funcName);
      InvNamesStep(rows, n, st);
      InvIndexStep(rows, n, st, nrun, a.2);
    }
  }

  lemma InitInv(rows: seq<Keyed<nat, TaskRow>>, nrun: nat)
    ensures Shaped(Fresh([], nrun)) && Inv(rows, 0, Fresh([], nrun), nrun)
  {
    var init := Fresh([], nrun);
    assert init.index == seq(nrun, _ => []);
    assert rows[..0] == [];
    assert InvIndex(rows, 0, init.index, init.idxs, nrun);
    assert FuncColumn(rows[..0]) == [];
    assert InvNames(rows, 0, init.names, init.counts, init.logs, init.idxs);
  }

  /** Every row among the first `n` is consistent. */
  predicate AllOk(rows: seq<Keyed<nat, TaskRow>>, n: nat, nrun: nat)
    requires n <= |rows|
  {
    forall k :: 0 <= k < n ==> RowOk(rows, k, nrun)
  }

  lemma AllOkLast(rows: seq<Keyed<nat, TaskRow>>, n: nat, nrun: nat)
    requires 0 < n <= |rows|
    ensures AllOk(rows, n, nrun) <==> AllOk(rows, n - 1, nrun) && RowOk(rows, n - 1, nrun)
  {
  }

  lemma ScanLast(init: TaskScan, rows: seq<Keyed<nat, TaskRow>>, n: nat)
    requires Shaped(init) && 0 < n <= |rows|
    ensures Scan(init, rows[..n]) ==
      match Scan(init, rows[..n - 1])
      case Err(st) => Err(st)
      case Ok(st) => Step(st, rows[n - 1])
  {
    var p := rows[..n];
    assert p[..|p| - 1] == rows[..n - 1];
  }

  /** The scan over a prefix succeeds exactly when every row of it is consistent. */
  lemma {:induction false} ScanPrefix(rows: seq<Keyed<nat, TaskRow>>, n: nat, nrun: nat)
    requires n <= |rows|
    ensures Shaped(Fresh([], nrun))
    ensures Scan(Fresh([], nrun), rows[..n]).Ok? <==> AllOk(rows, n, nrun)
    ensures Scan(Fresh([], nrun), rows[..n]).Ok? ==> Inv(rows, n, Scan(Fresh([], nrun), rows[..n]).value, nrun)
  {
    InitInv(rows, nrun);
    if n == 0 {
      assert rows[..0] == [];
    } else {
      ScanPrefix(rows, n - 1, nrun);
      ScanLast(Fresh([], nrun), rows, n);
      ScanStepInv(rows, n, nrun, Scan(Fresh([], nrun), rows[..n - 1]), Scan(Fresh([], nrun), rows[..n]));
    }
  }

  /** One more row: the scan stays successful exactly when the row is
      consistent, and then the invariant extends to it. */
  lemma ScanStepInv(rows: seq<Keyed<nat, TaskRow>>, n: nat, nrun: nat,
                    prev: Result<TaskScan, TaskScan>, cur: Result<TaskScan, TaskScan>)
    requires 0 < n <= |rows|
    requires prev.Ok? ==> Shaped(prev.value)
    requires prev.Err? ==> cur.Err?
    requires prev.Ok? ==> cur == Step(prev.value, rows[n - 1])
    requires prev.Ok? <==> AllOk(rows, n - 1, nrun)
    requires prev.Ok? ==> Inv(rows, n - 1, prev.value, nrun)
    ensures cur.Ok? <==> AllOk(rows, n, nrun)
    ensures cur.Ok? ==> Inv(rows, n, cur.value, nrun)
  {
    AllOkLast(rows, n, nrun);
    if prev.Ok? {
      if n > 1 {
        AllOkLast(rows, n - 1, nrun);
      }
      StepKeepsInv(rows, n - 1, prev.value, nrun);
    }
  }

  /** `fix_tasks` on a fresh reader: the task table passes the continuity
      assertions exactly when it is `Continuous`; then the task names are the
      distinct function names in first-seen order, their counts sum to the
      number of task rows, every row's task index names its function, and
      `task_index[run][task_id]` is that row's task index. */
  lemma TaskScanCorrect(rows: seq<Keyed<nat, TaskRow>>, nrun: nat)
    ensures var r := Scan(Fresh([], nrun), rows);
      && (r.Ok? <==> Continuous(rows, nrun))
      && (r.Ok? ==>
            && r.value.names == Distinct(FuncColumn(rows))
            && NoDups(r.value.names)
            && Sum(r.value.counts) == |rows|
            && |r.value.idxs| == |rows|
            && (forall k :: 0 <= k < |rows| ==>
                  && r.value.idxs[k] < |r.value.names|
                  && r.value.names[r.value.idxs[k]] == rows[k].body.funcName
                  && rows[k].run < |r.value.index|
                  && 0 <= rows[k].body.taskId < |r.value.index[rows[k].run]|
                  && r.value.index[rows[k].run][rows[k].body.taskId] == r.value.idxs[k]))
  {
    ScanPrefix(rows, |rows|, nrun);
    assert rows[..|rows|] == rows;
    assert AllOk(rows, |rows|, nrun) == Continuous(rows, nrun);
  }

  /** `task_index[run_idx][task_id]` with Python's list indexing: a missing
      run or a task id outside `-len..len-1` raises `IndexError`. */
  function LookupIdx(index: seq<seq<nat>>, run: nat, taskId: int): (r: Option<nat>)
    ensures r.Some? <==> run < |index| && -|index[run]| <= taskId < |index[run]|
    ensures run < |index| && 0 <= taskId < |index[run]| ==> r == Some(index[run][taskId])
  {
    if run < |index| then PyIndex(index[run], taskId) else None
  }

  /** The `task_idx` column added to a table with task ids: `Err` when some
      row's lookup raises, in which case the table is left as it was. */
  function AddTaskIdx<B>(index: seq<seq<nat>>, rows: seq<Keyed<nat, B>>,
                         taskId: B -> int, setIdx: (B, nat) -> B): (r: Result<seq<Keyed<nat, B>>, ()>)
    ensures r.Ok? <==> forall k :: 0 <= k < |rows| ==> LookupIdx(index, rows[k].run, taskId(rows[k].body)).Some?
    ensures r.Ok? ==> |r.value| == |rows| && forall k :: 0 <= k < |rows| ==>
      r.value[k] == Keyed(rows[k].run, setIdx(rows[k].body, LookupIdx(index, rows[k].run, taskId(rows[k].body)).value))
  {
    if |rows| == 0 then Ok([])
    else
      match AddTaskIdx(index, rows[..|rows| - 1], taskId, setIdx)
      case Err(e) => Err(e)
      case Ok(front) =>
        var last := rows[|rows| - 1];
        match LookupIdx(index, last.run, taskId(last.body))
        case None => Err(())
        case Some(idx) => Ok(front + [Keyed(last.run, setIdx(last.body, idx))])
  }

  function TrySetIdx(t: TryRow, idx: nat): TryRow { t.(taskIdx := Some(idx)) }
  function StatusSetIdx(t: StatusRow, idx: nat): StatusRow { t.(taskIdx := Some(idx)) }
  function ResourceSetIdx(t: ResourceRow, idx: nat): ResourceRow { t.(taskIdx := Some(idx)) }

  /** After a successful scan, a row of another table that names an existing
      task of its run (`0 <= task_id <` that run's task count) gets the task
      index of that task's function: the name at its new `task_idx` is the
      function name of the task row with the same run and task id. */
  lemma PropagatedNames(rows: seq<Keyed<nat, TaskRow>>, nrun: nat, run: nat, taskId: int)
    requires Scan(Fresh([], nrun), rows).Ok?
    requires exists k :: 0 <= k < |rows| && rows[k].run == run && rows[k].body.taskId == taskId
    ensures var st := Scan(Fresh([], nrun), rows).value;
      var idx := LookupIdx(st.index, run, taskId);
      && idx.Some? && idx.value < |st.names|
      && forall k :: 0 <= k < |rows| && rows[k].run == run && rows[k].body.taskId == taskId ==>
           st.names[idx.value] == rows[k].body.funcName
  {
    TaskScanCorrect(rows, nrun);
  }
}
