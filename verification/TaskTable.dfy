/**
 The `tasks` table and the statements that the repository runs against it.
 Each statement is one atomic step on the whole table. A row's id is its index.
 */
module TaskTable {
  import opened Wrappers
  import opened RetryPolicy

  datatype Status = Pending | Running | Success | Failed | Canceled

  datatype Task = Task(
    status: Status,
    progress: int,
    lockedBy: Option<string>,
    lockedUntil: Option<Time>,
    attempt: int,
    maxAttempts: int,
    key: Option<string>,
    nextRunAt: Option<Time>,
    createdAt: Time,
    startedAt: Option<Time>,
    finishedAt: Option<Time>
  )

  type Table = seq<Task>

  /** One statement, with the values it was given. `Claim` names the row that the statement picked. */
  datatype Op =
    | Create(maxAttempts: int, key: Option<string>, now: Time)
    | Claim(id: nat, worker: string, lease: int, now: Time)
    | Heartbeat(id: nat, worker: string, lease: int, now: Time)
    | Complete(id: nat, worker: string, now: Time)
    | Fail(id: nat, worker: string, nextRunAt: Option<Time>, now: Time)
    | Release(now: Time)
    | Update(id: nat, status: Status, progress: int)

  predicate Terminal(s: Status) {
    s == Success || s == Failed || s == Canceled
  }

  /** Rows that the claim statement may pick. */
  predicate Claimable(r: Task, now: Time) {
    && r.status == Pending
    && (r.nextRunAt.None? || r.nextRunAt.value <= now)
    && r.attempt < r.maxAttempts
  }

  /** The guard shared by heartbeat, completion and failure. */
  predicate HeldBy(r: Task, worker: string) {
    r.lockedBy == Some(worker) && r.status == Running
  }

  predicate Stale(r: Task, now: Time) {
    r.status == Running && r.lockedUntil.Some? && r.lockedUntil.value < now
  }

  predicate KeyTaken(t: Table, key: Option<string>) {
    key.Some? && exists i :: 0 <= i < |t| && t[i].key == key
  }

  function NewTask(maxAttempts: int, key: Option<string>, now: Time): Task {
    Task(Pending, 0, None, None, 0, if maxAttempts <= 0 then 1 else maxAttempts, key, None, now, None, None)
  }

  function ClaimRow(r: Task, worker: string, lease: int, now: Time): Task {
    r.(status := Running, lockedBy := Some(worker), lockedUntil := Some(now + lease), attempt := r.attempt + 1,
       startedAt := if r.startedAt.None? then Some(now) else r.startedAt)
  }

  function CompleteRow(r: Task, now: Time): Task {
    r.(status := Success, progress := 100, lockedBy := None, lockedUntil := None, finishedAt := Some(now))
  }

  function FailRow(r: Task, nextRunAt: Option<Time>, now: Time): Task {
    var unlocked := r.(lockedBy := None, lockedUntil := None, nextRunAt := nextRunAt);
    if nextRunAt.Some? then unlocked.(status := Pending)
    else unlocked.(status := Failed, progress := 100, finishedAt := Some(now))
  }

  function ReleaseRow(r: Task, now: Time): Task {
    if Stale(r, now) then r.(status := Pending, lockedBy := None, lockedUntil := None, nextRunAt := Some(now)) else r
  }

  /** What a statement that names a row does to that row; statements whose guard fails leave it alone. */
  function RowStep(r: Task, op: Op): Task {
    match op
    case Create(_, _, _) => r
    case Claim(_, worker, lease, now) => if Claimable(r, now) then ClaimRow(r, worker, lease, now) else r
    case Heartbeat(_, worker, lease, now) => if HeldBy(r, worker) then r.(lockedUntil := Some(now + lease)) else r
    case Complete(_, worker, now) => if HeldBy(r, worker) then CompleteRow(r, now) else r
    case Fail(_, worker, next, now) => if HeldBy(r, worker) then FailRow(r, next, now) else r
    case Release(now) => ReleaseRow(r, now)
    case Update(_, status, progress) => r.(status := status, progress := progress)
  }

  /** Does `op` address row `i`? Releasing addresses every row, creation none. */
  predicate Touches(op: Op, i: nat) {
    match op
    case Create(_, _, _) => false
    case Release(_) => true
    case _ => op.id == i
  }

  function Apply(t: Table, op: Op): (t': Table)
    ensures |t| <= |t'|
    ensures forall i :: 0 <= i < |t| ==> t'[i] == if Touches(op, i) then RowStep(t[i], op) else t[i]
    ensures op.Create? && !KeyTaken(t, op.key) ==> t' == t + [NewTask(op.maxAttempts, op.key, op.now)]
    ensures op.Create? && KeyTaken(t, op.key) ==> t' == t
    ensures !op.Create? ==> |t'| == |t|
  {
    match op
    case Create(maxAttempts, key, now) => if KeyTaken(t, key) then t else t + [NewTask(maxAttempts, key, now)]
    case Release(now) => seq(|t|, i requires 0 <= i < |t| => ReleaseRow(t[i], now))
    case _ => if op.id < |t| then t[op.id := RowStep(t[op.id], op)] else t
  }

  /** In worker mode the unguarded update writes only `running` (progress) and `canceled` (operator). */
  predicate WorkerMode(op: Op) {
    op.Update? ==> op.status == Running || op.status == Canceled
  }

  function StaleCount(t: Table, now: Time): nat {
    if t == [] then 0 else StaleCount(t[..|t| - 1], now) + if Stale(t[|t| - 1], now) then 1 else 0
  }
}
