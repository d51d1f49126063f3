/** The repository object over the stored table: each method runs one statement in place. */
module TaskRepository {
  import opened Wrappers
  import opened RetryPolicy
  import opened TaskTable

  datatype CreateError = DuplicateKey

  class Repository {
    var rows: seq<Task>

    /** The row is running under this worker's lock. */
    predicate Holds(id: nat, worker: string)
      reads this
    {
      id < |rows| && rows[id].lockedBy == Some(worker) && rows[id].status == Running
    }

    constructor ()
      ensures rows == []
    {
      rows := [];
    }

    method Create(maxAttempts: int, key: Option<string>, now: Time) returns (r: Result<nat, CreateError>)
      modifies this
      ensures rows == Apply(old(rows), Op.Create(maxAttempts, key, now))
      ensures r == if KeyTaken(old(rows), key) then Err(DuplicateKey) else Ok(|old(rows)|)
      ensures r.Err? <==> key.Some? && exists i :: 0 <= i < |old(rows)| && old(rows)[i].key == key
      ensures r.Err? ==> rows == old(rows)
      ensures r.Ok? ==>
                rows == old(rows) + [Task(Pending, 0, None, None, 0, if maxAttempts <= 0 then 1 else maxAttempts, key,
                                          None, now, None, None)]
    {
      var existing := GetByIdempotencyKey(key);
      if existing.Some? {
        return Err(DuplicateKey);
      }
      var bound := maxAttempts;
      if bound <= 0 {
        bound := 1;
      }
      rows := rows + [Task(Pending, 0, None, None, 0, bound, key, None, now, None, None)];
      return Ok(|rows| - 1);
    }

    /** The oldest claimable row that no other transaction has locked (`held`) becomes running and leased. */
    method ClaimNextTask(worker: string, lease: int, now: Time, held: set<nat>) returns (claimed: Option<nat>)
      modifies this
      ensures claimed.None? ==> rows == old(rows)
      ensures claimed.None? ==> forall i: nat :: i < |rows| && i !in held ==> !Claimable(rows[i], now)
      ensures claimed.Some? ==> claimed.value < |old(rows)| && claimed.value !in held
      ensures claimed.Some? ==> Claimable(old(rows)[claimed.value], now)
      ensures claimed.Some? ==> forall i: nat :: i < |old(rows)| && i !in held && Claimable(old(rows)[i], now) ==>
                                  old(rows)[claimed.value].createdAt <= old(rows)[i].createdAt
      ensures claimed.Some? ==>
                var r := old(rows)[claimed.value];
                && r.status == Pending && (r.nextRunAt.None? || r.nextRunAt.value <= now) && r.attempt < r.maxAttempts
                && rows == old(rows)[claimed.value :=
                                     r.(status := Running, lockedBy := Some(worker), lockedUntil := Some(now + lease),
                                        attempt := r.attempt + 1,
                                        startedAt := if r.startedAt.Some? then r.startedAt else Some(now))]
      ensures claimed.Some? ==> rows == Apply(old(rows), Claim(claimed.value, worker, lease, now))
    {
      claimed := None;
      for i := 0 to |rows|
        invariant rows == old(rows)
        invariant claimed.None? ==> forall j: nat :: j < i && j !in held ==> !Claimable(rows[j], now)
        invariant claimed.Some? ==> claimed.value < i && claimed.value !in held && Claimable(rows[claimed.value], now)
        invariant claimed.Some? ==> forall j: nat :: j < i && j !in held && Claimable(rows[j], now) ==>
                                      rows[claimed.value].createdAt <= rows[j].createdAt
      {
        if i !in held && Claimable(rows[i], now)
           && (claimed.None? || rows[i].createdAt < rows[claimed.value].createdAt) {
          claimed := Some(i);
        }
      }
      if claimed.Some? {
        rows := rows[claimed.value := ClaimRow(rows[claimed.value], worker, lease, now)];
      }
    }

    method HeartbeatTask(id: nat, worker: string, lease: int, now: Time)
      modifies this
      ensures rows == if !old(Holds(id, worker)) then old(rows)
                      else old(rows)[id := old(rows)[id].(lockedUntil := Some(now + lease))]
      ensures rows == Apply(old(rows), Heartbeat(id, worker, lease, now))
    {
      if id < |rows| && HeldBy(rows[id], worker) {
        rows := rows[id := rows[id].(lockedUntil := Some(now + lease))];
      }
    }

    method CompleteTask(id: nat, worker: string, now: Time)
      modifies this
      ensures rows == if !old(Holds(id, worker)) then old(rows)
                      else old(rows)[id := old(rows)[id].(status := Success, progress := 100, finishedAt := Some(now),
                                                          lockedBy := None, lockedUntil := None)]
      ensures rows == Apply(old(rows), Complete(id, worker, now))
    {
      if id < |rows| && HeldBy(rows[id], worker) {
        rows := rows[id := CompleteRow(rows[id], now)];
      }
    }

    method FailTask(id: nat, worker: string, nextRunAt: Option<Time>, now: Time)
      modifies this
      ensures !old(Holds(id, worker)) ==> rows == old(rows)
      ensures old(Holds(id, worker)) && nextRunAt.Some? ==>
                rows == old(rows)[id := old(rows)[id].(status := Pending, nextRunAt := nextRunAt, lockedBy := None,
                                                       lockedUntil := None)]
      ensures old(Holds(id, worker)) && nextRunAt.None? ==>
                rows == old(rows)[id := old(rows)[id].(status := Failed, progress := 100, finishedAt := Some(now),
                                                       nextRunAt := None, lockedBy := None, lockedUntil := None)]
      ensures rows == Apply(old(rows), Fail(id, worker, nextRunAt, now))
    {
      if id < |rows| && HeldBy(rows[id], worker) {
        rows := rows[id := FailRow(rows[id], nextRunAt, now)];
      }
    }

    /** Every expired lease is taken back, and the result counts them. */
    method ReleaseStaleTasks(now: Time) returns (released: nat)
      modifies this
      ensures |rows| == |old(rows)|
      ensures forall i :: 0 <= i < |rows| ==>
                var r := old(rows)[i];
                rows[i] == if r.status == Running && r.lockedUntil.Some? && r.lockedUntil.value < now
                           then r.(status := Pending, nextRunAt := Some(now), lockedBy := None, lockedUntil := None)
                           else r
      ensures rows == Apply(old(rows), Release(now))
      ensures released == StaleCount(old(rows), now)
    {
      released := 0;
      for i := 0 to |rows|
        invariant |rows| == |old(rows)|
        invariant forall j :: 0 <= j < i ==> rows[j] == ReleaseRow(old(rows)[j], now)
        invariant forall j :: i <= j < |rows| ==> rows[j] == old(rows)[j]
        invariant released == StaleCount(old(rows)[..i], now)
      {
        assert old(rows)[..i + 1][..i] == old(rows)[..i];
        if Stale(rows[i], now) {
          rows := rows[i := ReleaseRow(rows[i], now)];
          released := released + 1;
        }
      }
      assert old(rows)[..|rows|] == old(rows);
    }

    method UpdateStatus(id: nat, status: Status, progress: int)
      modifies this
      ensures rows == if id >= |old(rows)| then old(rows)
                      else old(rows)[id := old(rows)[id].(status := status, progress := progress)]
      ensures rows == Apply(old(rows), Update(id, status, progress))
    {
      if id < |rows| {
        rows := rows[id := rows[id].(status := status, progress := progress)];
      }
    }

    method GetByIdempotencyKey(key: Option<string>) returns (found: Option<nat>)
      ensures found.Some? <==> KeyTaken(rows, key)
      ensures found.Some? ==> found.value < |rows| && rows[found.value].key == key
    {
      if key.None? {
        return None;
      }
      for i := 0 to |rows|
        invariant forall j :: 0 <= j < i ==> rows[j].key != key
      {
        if rows[i].key == key {
          return Some(i);
        }
      }
      return None;
    }
  }

  /** `ids` are distinct, and each was claimed: its row is what a claim makes of the row before. */
  ghost predicate AllClaimed(before: Table, after: Table, ids: seq<nat>, worker: string, lease: int, now: Time) {
    && |before| == |after|
    && (forall j, k :: 0 <= j < k < |ids| ==> ids[j] != ids[k])
    && (forall k :: 0 <= k < |ids| ==> ids[k] < |before| && Claimable(before[ids[k]], now)
                                       && after[ids[k]] == ClaimRow(before[ids[k]], worker, lease, now))
    && (forall i: nat :: i < |before| && i !in ids ==> after[i] == before[i])
  }

  /** The claimed rows come in order of age, and every row still claimable is no older than any of them. */
  ghost predicate OldestFirst(before: Table, after: Table, ids: seq<nat>, now: Time)
    requires |before| == |after| && forall k :: 0 <= k < |ids| ==> ids[k] < |before|
  {
    && (forall j, k :: 0 <= j < k < |ids| ==> before[ids[j]].createdAt <= before[ids[k]].createdAt)
    && (forall k: nat, i: nat :: k < |ids| && i < |after| && Claimable(after[i], now) ==>
          before[ids[k]].createdAt <= after[i].createdAt)
  }

  ghost predicate ClaimedInOrder(before: Table, after: Table, ids: seq<nat>, worker: string, lease: int, now: Time) {
    AllClaimed(before, after, ids, worker, lease, now) && OldestFirst(before, after, ids, now)
  }

  /** One more claim, of the oldest claimable row, extends the list. */
  lemma ClaimOneMore(before: Table, mid: Table, ids: seq<nat>, id: nat, worker: string, lease: int, now: Time)
    requires ClaimedInOrder(before, mid, ids, worker, lease, now)
    requires id < |mid| && Claimable(mid[id], now)
    requires forall i: nat :: i < |mid| && Claimable(mid[i], now) ==> mid[id].createdAt <= mid[i].createdAt
    ensures var after := mid[id := ClaimRow(mid[id], worker, lease, now)];
            ClaimedInOrder(before, after, ids + [id], worker, lease, now)
  {
    var after := mid[id := ClaimRow(mid[id], worker, lease, now)];
    var ids' := ids + [id];
    forall k | 0 <= k < |ids| ensures ids[k] != id {
      assert mid[ids[k]].status == Running;
    }
    assert id !in ids && mid[id] == before[id];
    forall i: nat | i < |before| && i !in ids' ensures after[i] == before[i] {
      assert i != id by { assert ids'[|ids|] == id; }
      assert i !in ids;
    }
    assert AllClaimed(before, after, ids', worker, lease, now);
    forall i: nat | i < |after| && Claimable(after[i], now) ensures i != id && Claimable(mid[i], now) {
    }
  }

  // ---- a worker's claims among everybody else's statements ----

  /**
   What a claim meets: the time, the rows locked by other transactions, what others did before it, and its own fate.
   */
  datatype Moment = Moment(now: Time, held: set<nat>, others: seq<Op>, fails: bool)

  function ApplyAll(t: Table, ops: seq<Op>): Table
    decreases |ops|
  {
    if ops == [] then t else Apply(ApplyAll(t, ops[..|ops| - 1]), ops[|ops| - 1])
  }

  /** The table after the first `n` claims. */
  function AfterClaims(t: Table, world: nat -> Moment, ids: seq<nat>, worker: string, lease: int, n: nat): Table
    requires n <= |ids|
    decreases n, 0
  {
    if n == 0 then t
    else Apply(BeforeClaim(t, world, ids, worker, lease, n - 1), Claim(ids[n - 1], worker, lease, world(n - 1).now))
  }

  /** The table that claim number `n` meets. */
  function BeforeClaim(t: Table, world: nat -> Moment, ids: seq<nat>, worker: string, lease: int, n: nat): Table
    requires n <= |ids|
    decreases n, 1
  {
    ApplyAll(AfterClaims(t, world, ids, worker, lease, n), world(n).others)
  }

  /** A claimable row that is free to take, and none such is older. */
  ghost predicate Picked(t: Table, m: Moment, id: nat) {
    && id < |t| && id !in m.held && Claimable(t[id], m.now)
    && forall i: nat :: i < |t| && i !in m.held && Claimable(t[i], m.now) ==> t[id].createdAt <= t[i].createdAt
  }

  lemma {:induction false} ClaimsPrefix(t: Table, world: nat -> Moment, ids: seq<nat>, id: nat, worker: string,
                                        lease: int, n: nat)
    requires n <= |ids|
    ensures AfterClaims(t, world, ids + [id], worker, lease, n) == AfterClaims(t, world, ids, worker, lease, n)
    ensures BeforeClaim(t, world, ids + [id], worker, lease, n) == BeforeClaim(t, world, ids, worker, lease, n)
    decreases n
  {
    hide Apply, ApplyAll;
    if n > 0 { ClaimsPrefix(t, world, ids, id, worker, lease, n - 1); }
  }

  /**
   A worker with `free` idle slots claims until its slots are used up, a claim fails or there is nothing to take.
   Whatever others do in between, each claim takes an oldest row that is free to take at its moment.
   */
  method ClaimAvailableTasks(repo: Repository, worker: string, lease: int, world: nat -> Moment, free: nat)
    returns (ids: seq<nat>)
    modifies repo
    ensures |ids| <= free
    ensures forall n :: 0 <= n < |ids| ==>
              !world(n).fails && Picked(BeforeClaim(old(repo.rows), world, ids, worker, lease, n), world(n), ids[n])
    ensures |ids| == free ==> repo.rows == AfterClaims(old(repo.rows), world, ids, worker, lease, free)
    ensures |ids| < free ==> repo.rows == BeforeClaim(old(repo.rows), world, ids, worker, lease, |ids|)
    ensures |ids| < free && !world(|ids|).fails ==>
              forall i: nat :: i < |repo.rows| && i !in world(|ids|).held ==> !Claimable(repo.rows[i], world(|ids|).now)
  {
    hide Apply, ApplyAll, Claimable, BeforeClaim;
    ids := [];
    var slots := free;
    ghost var before := repo.rows;
    while slots > 0
      invariant |ids| + slots == free
      invariant repo.rows == AfterClaims(before, world, ids, worker, lease, |ids|)
      invariant forall n :: 0 <= n < |ids| ==>
                  !world(n).fails && Picked(BeforeClaim(before, world, ids, worker, lease, n), world(n), ids[n])
    {
      var moment := world(|ids|);
      repo.rows := ApplyAll(repo.rows, moment.others);
      Meets(before, world, ids, worker, lease);
      if moment.fails {
        return;
      }
      var task := repo.ClaimNextTask(worker, lease, moment.now, moment.held);
      if task.None? {
        return;
      }
      OneClaimMore(before, world, ids, task.value, worker, lease);
      ids := ids + [task.value];
      slots := slots - 1;
    }
  }

  lemma Meets(t: Table, world: nat -> Moment, ids: seq<nat>, worker: string, lease: int)
    ensures BeforeClaim(t, world, ids, worker, lease, |ids|)
            == ApplyAll(AfterClaims(t, world, ids, worker, lease, |ids|), world(|ids|).others)
  {
  }

  lemma OneClaimMore(t: Table, world: nat -> Moment, ids: seq<nat>, id: nat, worker: string, lease: int)
    requires !world(|ids|).fails && Picked(BeforeClaim(t, world, ids, worker, lease, |ids|), world(|ids|), id)
    requires forall n :: 0 <= n < |ids| ==>
               !world(n).fails && Picked(BeforeClaim(t, world, ids, worker, lease, n), world(n), ids[n])
    ensures AfterClaims(t, world, ids + [id], worker, lease, |ids| + 1)
            == Apply(BeforeClaim(t, world, ids, worker, lease, |ids|), Claim(id, worker, lease, world(|ids|).now))
    ensures forall n :: 0 <= n < |ids| + 1 ==>
              !world(n).fails && Picked(BeforeClaim(t, world, ids + [id], worker, lease, n), world(n), (ids + [id])[n])
  {
    hide Apply, BeforeClaim, Picked;
    forall n | 0 <= n < |ids| + 1
      ensures BeforeClaim(t, world, ids + [id], worker, lease, n) == BeforeClaim(t, world, ids, worker, lease, n)
    {
      ClaimsPrefix(t, world, ids, id, worker, lease, n);
    }
  }

  ghost predicate Undisturbed(world: nat -> Moment, now: Time) {
    forall k :: world(k).now == now && world(k).held == {} && world(k).others == []
  }

  lemma UndisturbedClaim(t: Table, world: nat -> Moment, ids: seq<nat>, worker: string, lease: int, now: Time, n: nat)
    requires 0 < n <= |ids| && Undisturbed(world, now)
    requires Picked(BeforeClaim(t, world, ids, worker, lease, n - 1), world(n - 1), ids[n - 1])
    ensures var mid, id := AfterClaims(t, world, ids, worker, lease, n - 1), ids[n - 1];
            && id < |mid| && Claimable(mid[id], now)
            && (forall i: nat :: i < |mid| && Claimable(mid[i], now) ==> mid[id].createdAt <= mid[i].createdAt)
            && AfterClaims(t, world, ids, worker, lease, n) == mid[id := ClaimRow(mid[id], worker, lease, now)]
  {
    hide Claimable, ClaimRow;
    var moment := world(n - 1);
    assert moment.others == [] && moment.held == {} && moment.now == now;
  }

  /** With nobody else at work the claims take the oldest claimable tasks, oldest first, each of them once. */
  lemma {:induction false} UndisturbedClaims(t: Table, world: nat -> Moment, ids: seq<nat>, worker: string, lease: int,
                                             now: Time, n: nat)
    requires n <= |ids| && Undisturbed(world, now)
    requires forall k :: 0 <= k < n ==> Picked(BeforeClaim(t, world, ids, worker, lease, k), world(k), ids[k])
    ensures ClaimedInOrder(t, AfterClaims(t, world, ids, worker, lease, n), ids[..n], worker, lease, now)
    decreases n
  {
    hide *;
    if n > 0 {
      UndisturbedClaims(t, world, ids, worker, lease, now, n - 1);
      UndisturbedClaim(t, world, ids, worker, lease, now, n);
      var mid := AfterClaims(t, world, ids, worker, lease, n - 1);
      ClaimOneMore(t, mid, ids[..n - 1], ids[n - 1], worker, lease, now);
      assert ids[..n] == ids[..n - 1] + [ids[n - 1]];
    } else {
      assert ids[..n] == [];
      NothingClaimed(t, world, ids, worker, lease, now);
    }
  }

  lemma NothingClaimed(t: Table, world: nat -> Moment, ids: seq<nat>, worker: string, lease: int, now: Time)
    ensures ClaimedInOrder(t, AfterClaims(t, world, ids, worker, lease, 0), [], worker, lease, now)
  {
  }
}
