/**
 What survives every interleaving of queue statements, stale workers and racing cancels included.
 Beside the table a ledger counts, per task, the statements that took effect. No timing is assumed and the
 unguarded status update may hit any row at any moment.
 */
module TaskLedger {
  import opened Wrappers
  import opened RetryPolicy
  import opened TaskTable

  /**
   How often a task was claimed, sent back by a retryable failure, taken back as stale, completed, failed for good.
   */
  datatype Account = Account(claims: nat, retries: nat, releases: nat, completions: nat, failures: nat)

  function Settlements(a: Account): nat { a.completions + a.failures }

  datatype Books = Books(table: Table, accounts: seq<Account>)

  /** The entry that `op` makes for row `r`, when it addresses that row and takes effect. */
  function Post(a: Account, r: Task, op: Op): Account {
    match op
    case Claim(_, _, _, now) => if Claimable(r, now) then a.(claims := a.claims + 1) else a
    case Complete(_, worker, _) => if HeldBy(r, worker) then a.(completions := a.completions + 1) else a
    case Fail(_, worker, next, _) =>
      if !HeldBy(r, worker) then a
      else if next.Some? then a.(retries := a.retries + 1)
      else a.(failures := a.failures + 1)
    case Release(now) => if Stale(r, now) then a.(releases := a.releases + 1) else a
    case _ => a
  }

  function Step(b: Books, op: Op): (b': Books)
    requires |b.accounts| == |b.table|
    ensures |b'.accounts| == |b'.table| >= |b.table|
    ensures b'.table == Apply(b.table, op)
    ensures forall i :: 0 <= i < |b.table| ==>
              b'.accounts[i] == if Touches(op, i) then Post(b.accounts[i], b.table[i], op) else b.accounts[i]
    ensures forall i :: |b.table| <= i < |b'.table| ==> b'.accounts[i] == Account(0, 0, 0, 0, 0)
  {
    var table' := Apply(b.table, op);
    Books(table', seq(|table'|, i requires 0 <= i < |table'| =>
                    if i >= |b.table| then Account(0, 0, 0, 0, 0)
                    else if Touches(op, i) then Post(b.accounts[i], b.table[i], op)
                    else b.accounts[i]))
  }

  /** The books after a run of statements. */
  function Run(b: Books, ops: seq<Op>): (b': Books)
    requires |b.accounts| == |b.table|
    ensures |b'.accounts| == |b'.table| >= |b.table|
    decreases |ops|
  {
    if ops == [] then b else Step(Run(b, ops[..|ops| - 1]), ops[|ops| - 1])
  }

  const EMPTY := Books([], [])

  /** Every row's ledger balances. */
  predicate Balanced(r: Task, a: Account) {
    && (r.lockedBy.Some? <==> r.lockedUntil.Some?)
    && (r.status == Pending ==> r.lockedBy.None?)
    && a.claims == r.attempt == a.retries + a.releases + Settlements(a) + (if r.lockedBy.Some? then 1 else 0)
    && 0 <= r.attempt <= r.maxAttempts
    && 1 <= r.maxAttempts
    && Settlements(a) <= 1
    && (Settlements(a) == 1 ==> r.lockedBy.None? && r.status != Pending)
    && (r.status == Success ==> a.completions == 1)
    && (r.status == Failed ==> a.failures == 1)
    && (r.startedAt.Some? <==> r.attempt > 0)
    && (r.nextRunAt.Some? ==> a.retries + a.releases > 0)
    && (r.finishedAt.Some? <==> Settlements(a) == 1)
  }

  ghost predicate AllBalanced(b: Books) {
    && |b.accounts| == |b.table|
    && forall i :: 0 <= i < |b.table| ==> Balanced(b.table[i], b.accounts[i])
  }

  ghost predicate InWorkerMode(ops: seq<Op>) {
    forall i :: 0 <= i < |ops| ==> WorkerMode(ops[i])
  }

  /** One statement on one row. */
  lemma BalancedRow(r: Task, a: Account, op: Op)
    requires Balanced(r, a) && WorkerMode(op)
    ensures Balanced(RowStep(r, op), Post(a, r, op))
  {
  }

  lemma NewBalanced(maxAttempts: int, key: Option<string>, now: Time)
    ensures Balanced(NewTask(maxAttempts, key, now), Account(0, 0, 0, 0, 0))
  {
  }

  lemma BalancedNew(t: Table, op: Op)
    ensures forall i :: |t| <= i < |Apply(t, op)| ==> Balanced(Apply(t, op)[i], Account(0, 0, 0, 0, 0))
  {
    hide Apply, RowStep, KeyTaken, Balanced, NewTask;
    if op.Create? { NewBalanced(op.maxAttempts, op.key, op.now); }
  }

  lemma BalancedStep(b: Books, op: Op)
    requires AllBalanced(b) && WorkerMode(op)
    ensures AllBalanced(Step(b, op))
  {
    hide Balanced, RowStep, Post, WorkerMode, Step, Apply;
    var b' := Step(b, op);
    BalancedNew(b.table, op);
    forall i | 0 <= i < |b'.table| ensures Balanced(b'.table[i], b'.accounts[i]) {
      if i < |b.table| {
        BalancedRow(b.table[i], b.accounts[i], op);
      }
    }
  }

  /** The ledger balances in every state of every run. */
  lemma {:induction false} LedgerBalances(ops: seq<Op>)
    requires InWorkerMode(ops)
    ensures AllBalanced(Run(EMPTY, ops))
  {
    if ops != [] {
      LedgerBalances(ops[..|ops| - 1]);
      BalancedStep(Run(EMPTY, ops[..|ops| - 1]), ops[|ops| - 1]);
    }
  }

  /** No longer queued and held by nobody. */
  predicate Retired(r: Task) {
    r.lockedBy.None? && r.status != Pending
  }

  /** Row `i` is retired in both books; nothing but its displayed status and progress differs. */
  predicate RestsFrom(b: Books, b': Books, i: nat) {
    && i < |b.table| == |b.accounts| && i < |b'.table| == |b'.accounts|
    && Retired(b.table[i]) && Retired(b'.table[i]) && b'.accounts[i] == b.accounts[i]
    && b'.table[i] == b.table[i].(status := b'.table[i].status, progress := b'.table[i].progress)
  }

  /** No statement wakes a retired row. */
  lemma RetiredStep(b: Books, op: Op, i: nat)
    requires |b.accounts| == |b.table| && i < |b.table|
    requires AllBalanced(b) && WorkerMode(op) && Retired(b.table[i])
    ensures RestsFrom(b, Step(b, op), i)
  {
    assert Balanced(b.table[i], b.accounts[i]);
  }

  lemma {:induction false} RunSplit(b: Books, first: seq<Op>, rest: seq<Op>)
    requires |b.accounts| == |b.table|
    ensures Run(b, first + rest) == Run(Run(b, first), rest)
    decreases |rest|
  {
    if rest == [] {
      assert first + rest == first;
    } else {
      assert (first + rest)[..|first + rest| - 1] == first + rest[..|rest| - 1];
      RunSplit(b, first, rest[..|rest| - 1]);
    }
  }

  lemma RestsOn(b0: Books, b1: Books, b2: Books, i: nat)
    requires RestsFrom(b0, b1, i) && RestsFrom(b1, b2, i)
    ensures RestsFrom(b0, b2, i)
  {
  }

  lemma RestsAtOnce(b: Books, i: nat)
    requires |b.accounts| == |b.table| && i < |b.table| && Retired(b.table[i])
    ensures RestsFrom(b, b, i)
  {
  }

  /** The last statement of a run, and the runs before it. */
  lemma LastStep(ops: seq<Op>, more: seq<Op>)
    requires InWorkerMode(ops) && InWorkerMode(more) && more != []
    ensures var most, last := more[..|more| - 1], more[|more| - 1];
            && InWorkerMode(most) && InWorkerMode(ops + most) && WorkerMode(last)
            && Run(EMPTY, ops + more) == Step(Run(EMPTY, ops + most), last)
  {
    hide Step, WorkerMode;
    assert (ops + more)[..|ops + more| - 1] == ops + more[..|more| - 1];
  }

  /**
   From the moment a task is retired no statement of any continuation claims, renews, releases, retries, completes
   or fails it: its ledger, lease, attempt and schedule are final, whatever stale writers do to its status.
   */
  lemma {:induction false} RetiredForever(ops: seq<Op>, more: seq<Op>, i: nat)
    requires InWorkerMode(ops) && InWorkerMode(more)
    requires i < |Run(EMPTY, ops).table| && Retired(Run(EMPTY, ops).table[i])
    ensures RestsFrom(Run(EMPTY, ops), Run(EMPTY, ops + more), i)
    decreases |more|
  {
    hide Run, Step, Balanced, AllBalanced, InWorkerMode, WorkerMode;
    if more == [] {
      assert ops + more == ops;
      RestsAtOnce(Run(EMPTY, ops), i);
    } else {
      var most := more[..|more| - 1];
      LastStep(ops, more);
      RetiredForever(ops, most, i);
      LedgerBalances(ops + most);
      var before := Run(EMPTY, ops + most);
      RetiredStep(before, more[|more| - 1], i);
      RestsOn(Run(EMPTY, ops), before, Step(before, more[|more| - 1]), i);
    }
  }

  /** Settling happens at most once: after the first settlement the task is retired for good. */
  lemma SettledOnce(ops: seq<Op>, more: seq<Op>, i: nat)
    requires InWorkerMode(ops) && InWorkerMode(more)
    requires i < |Run(EMPTY, ops).table| && Settlements(Run(EMPTY, ops).accounts[i]) > 0
    ensures Settlements(Run(EMPTY, ops).accounts[i]) == 1
    ensures RestsFrom(Run(EMPTY, ops), Run(EMPTY, ops + more), i)
  {
    LedgerBalances(ops);
    assert Balanced(Run(EMPTY, ops).table[i], Run(EMPTY, ops).accounts[i]);
    RetiredForever(ops, more, i);
  }

  /**
   In every state of every run a task shows success only if a completion has taken effect on it, and failed only if a
   final failure has; never both.
   */
  lemma StatusTellsOutcome(ops: seq<Op>, i: nat)
    requires InWorkerMode(ops) && i < |Run(EMPTY, ops).table|
    ensures var r, a := Run(EMPTY, ops).table[i], Run(EMPTY, ops).accounts[i];
            && (r.status == Success ==> a.completions == 1 && a.failures == 0)
            && (r.status == Failed ==> a.failures == 1 && a.completions == 0)
            && (r.finishedAt.Some? <==> a.completions + a.failures == 1)
  {
    LedgerBalances(ops);
    assert Balanced(Run(EMPTY, ops).table[i], Run(EMPTY, ops).accounts[i]);
  }

  /** Right after a settlement takes effect the row shows which one it was, and when; the ledger has counted it. */
  lemma SettlementShows(ops: seq<Op>, op: Op)
    requires (op.Complete? || (op.Fail? && op.nextRunAt.None?)) && op.id < |Run(EMPTY, ops).table|
    requires var r := Run(EMPTY, ops).table[op.id]; r.lockedBy == Some(op.worker) && r.status == Running
    ensures var before, after := Run(EMPTY, ops), Run(EMPTY, ops + [op]);
            && op.id < |after.table|
            && after.table[op.id].status == (if op.Complete? then Success else Failed)
            && after.table[op.id].progress == 100 && after.table[op.id].finishedAt == Some(op.now)
            && after.table[op.id].lockedBy == None && after.table[op.id].lockedUntil == None
            && after.accounts[op.id].completions == before.accounts[op.id].completions + (if op.Complete? then 1 else 0)
            && after.accounts[op.id].failures == before.accounts[op.id].failures + (if op.Fail? then 1 else 0)
  {
    assert (ops + [op])[..|ops|] == ops;
  }

  // ---- totals over all tasks ----

  function ClaimTotal(accounts: seq<Account>): nat {
    if accounts == [] then 0 else ClaimTotal(accounts[..|accounts| - 1]) + accounts[|accounts| - 1].claims
  }

  function AttemptBudget(t: Table): int {
    if t == [] then 0 else AttemptBudget(t[..|t| - 1]) + t[|t| - 1].maxAttempts
  }

  /** Claims in a run that handed a task to a worker. */
  function ClaimsGranted(ops: seq<Op>): nat
    decreases |ops|
  {
    if ops == [] then 0
    else
      var before := Run(EMPTY, ops[..|ops| - 1]);
      var op := ops[|ops| - 1];
      ClaimsGranted(ops[..|ops| - 1])
      + if op.Claim? && op.id < |before.table| && Claimable(before.table[op.id], op.now) then 1 else 0
  }

  lemma {:induction false} ClaimTotalUpdate(a: seq<Account>, a': seq<Account>, i: nat)
    requires |a| == |a'| && i < |a| && forall j :: 0 <= j < |a| && j != i ==> a[j].claims == a'[j].claims
    ensures ClaimTotal(a') == ClaimTotal(a) + a'[i].claims - a[i].claims
    decreases |a|
  {
    if i == |a| - 1 {
      ClaimTotalSame(a[..|a| - 1], a'[..|a| - 1]);
    } else {
      ClaimTotalUpdate(a[..|a| - 1], a'[..|a| - 1], i);
    }
  }

  lemma {:induction false} ClaimTotalSame(a: seq<Account>, a': seq<Account>)
    requires |a| <= |a'| && forall j :: 0 <= j < |a| ==> a[j].claims == a'[j].claims
    requires forall j :: |a| <= j < |a'| ==> a'[j].claims == 0
    ensures ClaimTotal(a') == ClaimTotal(a)
    decreases |a'|
  {
    if a' != [] {
      if |a| == |a'| {
        ClaimTotalSame(a[..|a| - 1], a'[..|a'| - 1]);
      } else {
        ClaimTotalSame(a, a'[..|a'| - 1]);
      }
    }
  }

  lemma {:induction false} ClaimTotalCounts(ops: seq<Op>)
    ensures ClaimTotal(Run(EMPTY, ops).accounts) == ClaimsGranted(ops)
    decreases |ops|
  {
    hide Apply, Claimable, HeldBy, Stale, Step;
    if ops != [] {
      var before, op := Run(EMPTY, ops[..|ops| - 1]), ops[|ops| - 1];
      var after := Step(before, op);
      ClaimTotalCounts(ops[..|ops| - 1]);
      if op.Claim? && op.id < |before.table| && Claimable(before.table[op.id], op.now) {
        ClaimTotalUpdate(before.accounts, after.accounts, op.id);
      } else {
        ClaimTotalSame(before.accounts, after.accounts);
      }
    }
  }

  lemma {:induction false} ClaimsWithinBudget(b: Books)
    requires AllBalanced(b)
    ensures ClaimTotal(b.accounts) <= AttemptBudget(b.table)
    decreases |b.table|
  {
    if b.table != [] {
      var n := |b.table| - 1;
      assert Balanced(b.table[n], b.accounts[n]);
      ClaimsWithinBudget(Books(b.table[..n], b.accounts[..n]));
    }
  }

  /** Over any run the tasks are handed out at most as often as their attempt limits add up to. */
  lemma TotalClaimsBounded(ops: seq<Op>)
    requires InWorkerMode(ops)
    ensures ClaimsGranted(ops) <= AttemptBudget(Run(EMPTY, ops).table)
  {
    LedgerBalances(ops);
    ClaimTotalCounts(ops);
    ClaimsWithinBudget(Run(EMPTY, ops));
  }

  // ---- where recovery of a crashed worker's task stops ----

  /** Can some continuation hand task `i` out again? */
  ghost predicate Recoverable(b: Books, i: nat)
    requires |b.accounts| == |b.table| && i < |b.table|
  {
    exists more :: InWorkerMode(more) && Run(b, more).accounts[i].claims > b.accounts[i].claims
  }

  lemma {:induction false} SpentForever(b: Books, more: seq<Op>, i: nat)
    requires AllBalanced(b) && i < |b.table| && InWorkerMode(more)
    requires b.table[i].attempt == b.table[i].maxAttempts && b.table[i].lockedBy.None?
    ensures AllBalanced(Run(b, more))
    ensures var b' := Run(b, more);
            b'.accounts[i].claims == b.accounts[i].claims && b'.table[i].lockedBy.None?
            && b'.table[i].attempt == b'.table[i].maxAttempts
    decreases |more|
  {
    if more != [] {
      SpentForever(b, more[..|more| - 1], i);
      BalancedStep(Run(b, more[..|more| - 1]), more[|more| - 1]);
    }
  }

  /**
   A stale task that is taken back goes to `pending`, but it can ever run again exactly when attempts remain.
   A worker lost during the last attempt leaves the task pending for good: neither retried nor failed.
   */
  lemma ReleasedTaskRecoverable(b: Books, now: Time, i: nat)
    requires AllBalanced(b) && i < |b.table| && Stale(b.table[i], now)
    ensures var b' := Step(b, Release(now));
            b'.table[i].status == Pending && (Recoverable(b', i) <==> b.table[i].attempt < b.table[i].maxAttempts)
  {
    var b' := Step(b, Release(now));
    BalancedStep(b, Release(now));
    assert Balanced(b.table[i], b.accounts[i]);
    if b.table[i].attempt < b.table[i].maxAttempts {
      var more := [Claim(i, "w", 1, now)];
      assert more[..0] == [] && Run(b', more[..0]) == b';
      assert Run(b', more).accounts[i].claims > b'.accounts[i].claims;
    } else {
      forall more | InWorkerMode(more) ensures Run(b', more).accounts[i].claims == b'.accounts[i].claims {
        SpentForever(b', more, i);
      }
    }
  }
}
