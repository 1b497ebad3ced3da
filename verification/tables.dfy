/** The monitoring database's tables as typed rows.

    Each row carries its run key separately (`Keyed`): before the runs are
    resolved the key is the opaque `run_id` string, afterwards the dense
    `run_idx`. Timestamps are already numeric seconds. A derived column that
    has not been added yet (`wf_idx`, `task_idx`) is `None`. */
module Tables {
  import opened Wrappers

  datatype Keyed<K, B> = Keyed(run: K, body: B)

  /** The cumulative per-process counters of a resource sample. */
  datatype Counters = Counters(childrenCount: real, timeUser: real, timeSystem: real,
                               diskRead: real, diskWrite: real)

  datatype CounterCol = ChildrenCount | TimeUser | TimeSystem | DiskRead | DiskWrite

  function Get(c: Counters, col: CounterCol): real {
    match col
    case ChildrenCount => c.childrenCount
    case TimeUser => c.timeUser
    case TimeSystem => c.timeSystem
    case DiskRead => c.diskRead
    case DiskWrite => c.diskWrite
  }

  /** A float cell that may be missing. A null read from the database is
      `Null` (Python's `None`); once pandas stores the column as floats, a
      missing entry is `NaN`. */
  datatype Cell = Null | NaN | Num(v: real)

  datatype WorkflowRow = WorkflowRow(name: string, wfIdx: Option<nat>,
                                     timeBegan: real, timeCompleted: Cell)

  datatype TaskRow = TaskRow(taskId: int, funcName: string, taskIdx: Option<nat>, stderr: string,
                             timeInvoked: Option<real>, timeReturned: Option<real>)

  datatype TryRow = TryRow(taskId: int, tryId: int, taskIdx: Option<nat>,
                           timeLaunched: Option<real>, timeRunning: Option<real>,
                           timeReturned: Option<real>)

  datatype StatusRow = StatusRow(taskId: int, tryId: int, taskIdx: Option<nat>,
                                 state: string, timestamp: real)

  datatype ResourceRow = ResourceRow(taskId: int, tryId: int, taskIdx: Option<nat>,
                                     timestamp: real, interval: real, pid: int, status: string,
                                     memPercent: real, memResident: real, memVirtual: real,
                                     counters: Counters)

  function TryTaskId(t: TryRow): int { t.taskId }
  function StatusTaskId(t: StatusRow): int { t.taskId }
  function ResourceTaskId(t: ResourceRow): int { t.taskId }

  /** The try states whose times `taskcounts` follows. */
  datatype State = Launched | Running | Returned

  function StateTime(t: TryRow, st: State): Option<real> {
    match st
    case Launched => t.timeLaunched
    case Running => t.timeRunning
    case Returned => t.timeReturned
  }

  datatype Db<K> = Db(workflow: seq<Keyed<K, WorkflowRow>>,
                      task: seq<Keyed<K, TaskRow>>,
                      tries: seq<Keyed<K, TryRow>>,
                      status: seq<Keyed<K, StatusRow>>,
                      resource: seq<Keyed<K, ResourceRow>>)

  /** Rows removed from each table by the run resolution (`remove_counts`). */
  datatype RemoveCounts = RemoveCounts(workflow: nat, task: nat, tries: nat, status: nat, resource: nat)
}
