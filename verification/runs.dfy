/** Identifier resolution: `fix_runs` (run ids to dense run indices) and
    `fix_workflows` (workflow names to dense workflow indices). */
module Runs {
  import opened Wrappers
  import opened Seqs
  import opened Tables

  function RunColumn<K, B>(rows: seq<Keyed<K, B>>): (c: seq<K>)
    ensures |c| == |rows| && forall k :: 0 <= k < |rows| ==> c[k] == rows[k].run
  {
    seq(|rows|, k requires 0 <= k < |rows| => rows[k].run)
  }

  /** The rows whose run id is one of `ids`, in their original order. */
  function KeepKnown<B>(rows: seq<Keyed<string, B>>, ids: seq<string>): seq<Keyed<string, B>> {
    if |rows| == 0 then []
    else (if rows[0].run in ids then [rows[0]] else []) + KeepKnown(rows[1..], ids)
  }

  function CountUnknown<B>(rows: seq<Keyed<string, B>>, ids: seq<string>): nat {
    if |rows| == 0 then 0
    else (if rows[0].run in ids then 0 else 1) + CountUnknown(rows[1..], ids)
  }

  predicate IndicesBelow<B>(rows: seq<Keyed<nat, B>>, n: nat) {
    forall k :: 0 <= k < |rows| ==> rows[k].run < n
  }

  /** Maps run indices back to the run ids they stand for. */
  function Unresolve<B>(rows: seq<Keyed<nat, B>>, ids: seq<string>): (r: seq<Keyed<string, B>>)
    requires IndicesBelow(rows, |ids|)
    ensures |r| == |rows|
  {
    seq(|rows|, k requires 0 <= k < |rows| => Keyed(ids[rows[k].run], rows[k].body))
  }

  /** One table after `fix_runs`: rows whose run id is unknown are dropped and
      every other run id is replaced by its position in `ids`. Mapping the
      indices back gives exactly the kept rows, and the row count shrinks by
      the number of dropped rows. */
  function ResolveRows<B>(rows: seq<Keyed<string, B>>, ids: seq<string>): (r: seq<Keyed<nat, B>>)
    ensures IndicesBelow(r, |ids|)
    ensures Unresolve(r, ids) == KeepKnown(rows, ids)
    ensures |r| + CountUnknown(rows, ids) == |rows|
  {
    if |rows| == 0 then []
    else
      var rest := ResolveRows(rows[1..], ids);
      if rows[0].run in ids then
        var x := Keyed(IndexOf(ids, rows[0].run), rows[0].body);
        UnresolveCons(x, rest, ids);
        [x] + rest
      else rest
  }

  lemma UnresolveCons<B>(x: Keyed<nat, B>, rest: seq<Keyed<nat, B>>, ids: seq<string>)
    requires x.run < |ids| && IndicesBelow(rest, |ids|)
    ensures IndicesBelow([x] + rest, |ids|)
    ensures Unresolve([x] + rest, ids) == [Keyed(ids[x.run], x.body)] + Unresolve(rest, ids)
  {
    var a := Unresolve([x] + rest, ids);
    var b := [Keyed(ids[x.run], x.body)] + Unresolve(rest, ids);
    assert forall k :: 1 <= k < |a| ==> a[k] == b[k] by {
      assert forall k :: 1 <= k < |a| ==> ([x] + rest)[k] == rest[k - 1];
    }
  }

  /** Every row whose run id is among `ids` is kept. */
  lemma {:induction false} KeepKnownAll<B>(rows: seq<Keyed<string, B>>, ids: seq<string>)
    requires forall k :: 0 <= k < |rows| ==> rows[k].run in ids
    ensures KeepKnown(rows, ids) == rows
    ensures CountUnknown(rows, ids) == 0
  {
    if |rows| > 0 {
      KeepKnownAll(rows[1..], ids);
      assert [rows[0]] + rows[1..] == rows;
    }
  }

  function ResolveDb(db: Db<string>, ids: seq<string>): Db<nat> {
    Db(ResolveRows(db.workflow, ids), ResolveRows(db.task, ids), ResolveRows(db.tries, ids),
       ResolveRows(db.status, ids), ResolveRows(db.resource, ids))
  }

  function AddRemoved(c: RemoveCounts, db: Db<string>, ids: seq<string>): RemoveCounts {
    RemoveCounts(c.workflow + CountUnknown(db.workflow, ids), c.task + CountUnknown(db.task, ids),
                 c.tries + CountUnknown(db.tries, ids), c.status + CountUnknown(db.status, ids),
                 c.resource + CountUnknown(db.resource, ids))
  }

  datatype RunsFixed = RunsFixed(runIds: seq<string>, db: Db<nat>, removed: RemoveCounts)

  /** `fix_runs` once its guard has passed: the run ids are the task table's
      distinct run ids in first-seen order; an empty task table is an error. */
  function ResolveRuns(db: Db<string>, removed: RemoveCounts): (r: Result<RunsFixed, ()>)
    ensures r.Err? <==> |db.task| == 0
    ensures r.Ok? ==> (&& r.value.runIds == Distinct(RunColumn(db.task))
                       && r.value.db == ResolveDb(db, r.value.runIds)
                       && r.value.removed == AddRemoved(removed, db, r.value.runIds))
  {
    var ids := Distinct(RunColumn(db.task));
    assert |db.task| > 0 ==> RunColumn(db.task)[0] in ids;
    if |ids| == 0 then Err(())
    else Ok(RunsFixed(ids, ResolveDb(db, ids), AddRemoved(removed, db, ids)))
  }

  /** The run index is a bijection between the task table's run ids and
      `0 .. |runIds|-1`, in first-seen order; the task table loses no row and
      every table keeps exactly its rows of known runs. */
  lemma ResolveRunsBijective(task: seq<Keyed<string, TaskRow>>)
    ensures var ids := Distinct(RunColumn(task));
      && NoDups(ids)
      && (forall k :: 0 <= k < |task| ==> task[k].run in ids)
      && (forall i :: 0 <= i < |ids| ==> IndexOf(ids, ids[i]) == i)
      && Unresolve(ResolveRows(task, ids), ids) == task
      && CountUnknown(task, ids) == 0
  {
    var ids := Distinct(RunColumn(task));
    DistinctFirstSeenOrder(RunColumn(task));
    assert forall k :: 0 <= k < |task| ==> RunColumn(task)[k] in ids;
    KeepKnownAll(task, ids);
    forall i | 0 <= i < |ids| ensures IndexOf(ids, ids[i]) == i {
      IndexOfInverse(ids, i);
    }
  }

  function NameColumn<K>(rows: seq<Keyed<K, WorkflowRow>>): (c: seq<string>)
    ensures |c| == |rows| && forall k :: 0 <= k < |rows| ==> c[k] == rows[k].body.name
  {
    seq(|rows|, k requires 0 <= k < |rows| => rows[k].body.name)
  }

  /** `fix_workflows` once its guard has passed: the names are extended with the
      table's new names in first-seen order and every row whose name was new
      gets that name's position; a name already known before the call is not
      in the replacement map and gets no index. */
  function IndexWorkflows<K>(known: seq<string>, rows: seq<Keyed<K, WorkflowRow>>)
    : (r: (seq<string>, seq<Keyed<K, WorkflowRow>>))
    ensures r.0 == Extend(known, NameColumn(rows))
    ensures |r.1| == |rows|
    ensures forall k :: 0 <= k < |rows| ==>
              && r.1[k].run == rows[k].run
              && r.1[k].body == rows[k].body.(wfIdx := r.1[k].body.wfIdx)
              && (r.1[k].body.wfIdx.None? <==> rows[k].body.name in known)
              && (r.1[k].body.wfIdx.Some? ==>
                    r.1[k].body.wfIdx.value < |r.0| && r.0[r.1[k].body.wfIdx.value] == rows[k].body.name)
  {
    var names := Extend(known, NameColumn(rows));
    assert forall k :: 0 <= k < |rows| ==> NameColumn(rows)[k] in names;
    (names, seq(|rows|, k requires 0 <= k < |rows| =>
        var w := rows[k].body;
        Keyed(rows[k].run, w.(wfIdx := if w.name in known then None else Some(IndexOf(names, w.name))))))
  }

  /** From an empty name list every workflow row is indexed, and the names are
      distinct in first-seen order. */
  lemma IndexWorkflowsFresh<K>(rows: seq<Keyed<K, WorkflowRow>>)
    ensures var r := IndexWorkflows([], rows);
      && NoDups(r.0)
      && (forall i, j :: 0 <= i < j < |r.0| ==>
            IndexOf(NameColumn(rows), r.0[i]) < IndexOf(NameColumn(rows), r.0[j]))
      && (forall k :: 0 <= k < |rows| ==> r.1[k].body.wfIdx.Some?)
  {
    DistinctFirstSeenOrder(NameColumn(rows));
  }
}
