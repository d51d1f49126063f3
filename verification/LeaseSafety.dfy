/**
 The life cycle under timely heartbeats. When renewals land within their slack, checks can read, and no write of
 another party that matters falls between the two halves of a check/write pair on the same task, a live execution never
 loses its task, and a finished or canceled task never changes status again.
 */
module LeaseSafety {
  import opened Wrappers
  import opened RetryPolicy
  import opened TaskTable
  import opened TaskWorker

  // ---- the three assumptions, as conditions on single steps ----

  /** Is this execution between a cancellation check and the write it guards? */
  predicate MidPair(e: Exec) {
    e.pc.MarkWrite?
  }

  /** The step completes the task, or fails it for good, and takes effect. */
  predicate Settles(s: System, a: Action, task: nat)
    requires Enabled(s, a)
  {
    var op := OpOf(s, a);
    op.Some? && task < |s.table|
    && match op.value
       case Complete(id, worker, _) => id == task && HeldBy(s.table[task], worker)
       case Fail(id, worker, nextRunAt, _) => id == task && HeldBy(s.table[task], worker) && nextRunAt.None?
       case _ => false
  }

  /**
   No conflicting write falls into a pair on the same task: no cancellation is written between a progress check and its
   write, and no execution settles the task between a cancellation's read and its write. Anything else may: time, other
   tasks, renewals, sweeps, claims, retryable failures, progress writes under an open cancellation, other cancellations.
   */
  predicate Unstraddled(s: System, a: Action)
    requires Enabled(s, a)
  {
    && (a.CancelWrite? ==>
          forall x: nat :: x < |s.execs| && MidPair(s.execs[x]) ==> s.execs[x].task != s.cancels[a.cancel].task)
    && (forall c: nat :: c < |s.cancels| && !s.cancels[c].over ==> !Settles(s, a, s.cancels[c].task))
  }

  /** Heartbeats come at most `interval + slack` apart while an execution lives, and that fits its lease. */
  predicate Timely(s: System, a: Action, slack: int) {
    match a
    case Grab(_, _, lease) => TaskHeartbeatInterval(lease) + slack <= lease
    case Tick(now) =>
      forall x: nat :: x < |s.execs| && Live(s.execs[x]) ==>
        now <= s.execs[x].lastBeat + TaskHeartbeatInterval(s.execs[x].lease) + slack
    case _ => true
  }

  /** Cancellation checks read the row; a read that fails is excluded. */
  predicate ChecksRead(s: System, a: Action)
    requires Enabled(s, a)
  {
    a.Advance? && s.execs[a.exec].pc.MarkCheck? ==> a.outcome.Fine?
  }

  predicate Orderly(s: System, a: Action, slack: int) {
    Enabled(s, a) && Unstraddled(s, a) && Timely(s, a, slack) && ChecksRead(s, a)
  }

  // ---- the invariant ----

  /** The row of a live execution: leased to it, unexpired, running or canceled in mid-run. */
  predicate Owns(s: System, e: Exec, slack: int) {
    && e.task < |s.table|
    && var r := s.table[e.task];
    && r.lockedBy == Some(e.worker)
    && r.attempt == e.attempt
    && (r.status == Running || r.status == Canceled)
    && TaskHeartbeatInterval(e.lease) + slack <= e.lease
    && s.now <= e.lastBeat + TaskHeartbeatInterval(e.lease) + slack
    && (r.status == Running ==> r.lockedUntil == Some(e.lastBeat + e.lease))
    && (MidPair(e) ==> r.status == Running)
  }

  predicate RowTidy(r: Task) {
    && (r.lockedBy.Some? <==> r.lockedUntil.Some?)
    && (r.status == Running ==> r.lockedBy.Some?)
    && (r.status == Pending ==> r.lockedBy.None?)
    && (r.status == Success || r.status == Failed ==> r.lockedBy.None?)
  }

  /** The row of an open cancellation has not been settled; another cancellation may have been faster. */
  predicate Cancelable(s: System, task: nat) {
    task < |s.table| && s.table[task].status != Success && s.table[task].status != Failed
  }

  ghost predicate Safe(s: System, slack: int) {
    && slack >= 0
    && (forall i :: 0 <= i < |s.table| ==> RowTidy(s.table[i]))
    && (forall x :: 0 <= x < |s.execs| && Live(s.execs[x]) ==> Owns(s, s.execs[x], slack))
    && (forall x, y :: 0 <= x < y < |s.execs| && Live(s.execs[x]) && Live(s.execs[y]) ==>
          s.execs[x].task != s.execs[y].task)
    && (forall c :: 0 <= c < |s.cancels| && !s.cancels[c].over ==> Cancelable(s, s.cancels[c].task))
  }

  /** A terminal status stays what it is. */
  ghost predicate TerminalKept(t: Table, t': Table) {
    && |t| <= |t'|
    && forall i :: 0 <= i < |t| && Terminal(t[i].status) ==> t'[i].status == t[i].status
  }

  /** No task of a live execution goes back to `pending` unless that execution itself hands it back. */
  ghost predicate NoneStolen(s: System, a: Action)
    requires Enabled(s, a)
  {
    forall x :: 0 <= x < |s.execs| && Live(s.execs[x]) && s.execs[x].task < |s.table|
                && !(a.Advance? && a.exec == x) ==>
      Next(s, a).table[s.execs[x].task].status != Pending
  }

  // ---- one step ----

  lemma RowsStep(s: System, a: Action, slack: int)
    requires Safe(s, slack) && Orderly(s, a, slack)
    ensures forall i :: 0 <= i < |Next(s, a).table| ==> RowTidy(Next(s, a).table[i])
    ensures TerminalKept(s.table, Next(s, a).table)
  {
    var s' := Next(s, a);
    forall i | 0 <= i < |s'.table|
      ensures RowTidy(s'.table[i])
      ensures i < |s.table| && Terminal(s.table[i].status) ==> s'.table[i].status == s.table[i].status
    {
      if i < |s.table| {
        assert RowTidy(s.table[i]);
        if a.Advance? {
          assert Owns(s, s.execs[a.exec], slack);
        }
      }
    }
  }

  /** Another execution's step leaves a live execution its row. */
  lemma OwnsKept(s: System, a: Action, slack: int, x: nat)
    requires Safe(s, slack) && Orderly(s, a, slack)
    requires x < |s.execs| && Live(s.execs[x])
    requires !((a.Advance? || a.Beat? || a.Crash?) && a.exec == x)
    ensures Owns(Next(s, a), s.execs[x], slack)
  {
    var e := s.execs[x];
    assert Owns(s, e, slack);
    if a.Advance? || a.Beat? || a.Crash? {
      assert Live(s.execs[a.exec]) && Owns(s, s.execs[a.exec], slack);
      assert s.execs[a.exec].task != e.task;
    }
  }

  lemma OwnsAdvanced(s: System, a: Action, slack: int)
    requires Safe(s, slack) && Orderly(s, a, slack) && (a.Advance? || a.Beat? || a.Crash?)
    ensures Live(Next(s, a).execs[a.exec]) ==> Owns(Next(s, a), Next(s, a).execs[a.exec], slack)
  {
    hide TaskHeartbeatInterval, ShiftLeft, TaskRetryBackoff, NextTaskRetryAt;
    assert Owns(s, s.execs[a.exec], slack);
    var r := s.table[s.execs[a.exec].task];
    assert HeldBy(r, s.execs[a.exec].worker) <==> r.status == Running;
    HeartbeatFitsLease(s.execs[a.exec].lease);
  }

  lemma NoneStolenStep(s: System, a: Action, slack: int)
    requires Safe(s, slack) && Orderly(s, a, slack)
    ensures NoneStolen(s, a)
  {
    forall x | 0 <= x < |s.execs| && Live(s.execs[x]) && !(a.Advance? && a.exec == x)
      ensures Next(s, a).table[s.execs[x].task].status != Pending
    {
      assert Owns(s, s.execs[x], slack);
      if (a.Beat? || a.Crash?) && a.exec == x {
        OwnsAdvanced(s, a, slack);
      } else {
        OwnsKept(s, a, slack, x);
      }
    }
  }

  lemma DistinctTasksStep(s: System, a: Action, slack: int, x: nat, y: nat)
    requires Safe(s, slack) && Orderly(s, a, slack) && x < y < |Next(s, a).execs|
    requires Live(Next(s, a).execs[x]) && Live(Next(s, a).execs[y])
    ensures Next(s, a).execs[x].task != Next(s, a).execs[y].task
  {
    assert Live(s.execs[x]) && Owns(s, s.execs[x], slack);
  }

  lemma OwnsStep(s: System, a: Action, slack: int, x: nat)
    requires Safe(s, slack) && Orderly(s, a, slack) && x < |Next(s, a).execs| && Live(Next(s, a).execs[x])
    ensures Owns(Next(s, a), Next(s, a).execs[x], slack)
  {
    hide Owns, RowTidy, Unstraddled, Settles, Cancelable;
    if x == |s.execs| {
      OwnsClaimed(s, a, slack);
    } else if (a.Advance? || a.Beat? || a.Crash?) && a.exec == x {
      OwnsAdvanced(s, a, slack);
    } else {
      OwnsKept(s, a, slack, x);
    }
  }

  lemma OwnsClaimed(s: System, a: Action, slack: int)
    requires Orderly(s, a, slack) && a.Grab? && slack >= 0
    ensures Owns(Next(s, a), Next(s, a).execs[|s.execs|], slack)
  {
    HeartbeatFitsLease(a.lease);
  }

  /** No step settles the task of a cancellation that is still open. */
  lemma CancelableStep(s: System, a: Action, slack: int, c: nat)
    requires Safe(s, slack) && Orderly(s, a, slack) && c < |Next(s, a).cancels| && !Next(s, a).cancels[c].over
    ensures Cancelable(Next(s, a), Next(s, a).cancels[c].task)
  {
    hide Owns, RowTidy, TaskHeartbeatInterval;
    if c < |s.cancels| { assert !s.cancels[c].over && !Settles(s, a, s.cancels[c].task); }
  }

  lemma SafeStep(s: System, a: Action, slack: int)
    requires Safe(s, slack) && Orderly(s, a, slack)
    ensures Safe(Next(s, a), slack) && TerminalKept(s.table, Next(s, a).table) && NoneStolen(s, a)
  {
    hide Enabled, Unstraddled, Timely, ChecksRead, Owns, RowTidy, Live, Cancelable, Next, NoneStolen, TerminalKept;
    var s' := Next(s, a);
    RowsStep(s, a, slack);
    forall x: nat | x < |s'.execs| && Live(s'.execs[x]) ensures Owns(s', s'.execs[x], slack) {
      OwnsStep(s, a, slack, x);
    }
    forall x: nat, y: nat | x < y < |s'.execs| && Live(s'.execs[x]) && Live(s'.execs[y])
      ensures s'.execs[x].task != s'.execs[y].task
    {
      DistinctTasksStep(s, a, slack, x, y);
    }
    forall c: nat | c < |s'.cancels| && !s'.cancels[c].over ensures Cancelable(s', s'.cancels[c].task) {
      CancelableStep(s, a, slack, c);
    }
    NoneStolenStep(s, a, slack);
  }

  // ---- whole runs ----

  ghost predicate OrderlyRun(states: seq<System>, actions: seq<Action>, slack: int) {
    IsRun(states, actions) && slack >= 0 && forall i :: 0 <= i < |actions| ==> Orderly(states[i], actions[i], slack)
  }

  lemma {:induction false} OrderlyRunsSafe(states: seq<System>, actions: seq<Action>, slack: int, k: nat)
    requires OrderlyRun(states, actions, slack) && k < |states|
    ensures Safe(states[k], slack)
    decreases k
  {
    if k > 0 {
      OrderlyRunsSafe(states, actions, slack, k - 1);
      SafeStep(states[k - 1], actions[k - 1], slack);
    }
  }

  /**
   In every orderly run: no sweep or other party takes a live execution's task, a task has at most one live
   execution, a running task is leased, and success, failed and canceled are final.
   */
  lemma LeaseSafetyTheorem(states: seq<System>, actions: seq<Action>, slack: int, k: nat)
    requires OrderlyRun(states, actions, slack) && k < |states|
    ensures forall x, y :: 0 <= x < y < |states[k].execs| && Live(states[k].execs[x]) && Live(states[k].execs[y]) ==>
              states[k].execs[x].task != states[k].execs[y].task
    ensures forall i :: 0 <= i < |states[k].table| && states[k].table[i].status == Running ==>
              states[k].table[i].lockedBy.Some?
    ensures forall x :: 0 <= x < |states[k].execs| && Live(states[k].execs[x]) ==>
              states[k].execs[x].task < |states[k].table|
              && !Stale(states[k].table[states[k].execs[x].task], states[k].now)
    ensures k < |actions| ==> NoneStolen(states[k], actions[k])
  {
    OrderlyRunsSafe(states, actions, slack, k);
    if k < |actions| {
      SafeStep(states[k], actions[k], slack);
    }
    forall x | 0 <= x < |states[k].execs| && Live(states[k].execs[x])
      ensures states[k].execs[x].task < |states[k].table|
              && !Stale(states[k].table[states[k].execs[x].task], states[k].now)
    {
      assert Owns(states[k], states[k].execs[x], slack);
    }
  }

  lemma TerminalKeptTransitive(t0: Table, t1: Table, t2: Table)
    requires TerminalKept(t0, t1) && TerminalKept(t1, t2)
    ensures TerminalKept(t0, t2)
  {
  }

  lemma TerminalKeptOnce(states: seq<System>, actions: seq<Action>, slack: int, k: nat)
    requires OrderlyRun(states, actions, slack) && k < |actions|
    ensures TerminalKept(states[k].table, states[k + 1].table)
  {
    OrderlyRunsSafe(states, actions, slack, k);
    SafeStep(states[k], actions[k], slack);
  }

  lemma {:induction false} TerminalChain(states: seq<System>, j: nat, k: nat)
    requires j <= k < |states|
    requires forall m :: j <= m < k ==> TerminalKept(states[m].table, states[m + 1].table)
    ensures TerminalKept(states[j].table, states[k].table)
    decreases k - j
  {
    if j < k {
      TerminalChain(states, j, k - 1);
      TerminalKeptTransitive(states[j].table, states[k - 1].table, states[k].table);
    }
  }

  /** Terminal statuses are final over any stretch of an orderly run. */
  lemma TerminalForever(states: seq<System>, actions: seq<Action>, slack: int, j: nat, k: nat)
    requires OrderlyRun(states, actions, slack) && j <= k < |states|
    ensures TerminalKept(states[j].table, states[k].table)
  {
    forall m | j <= m < k ensures TerminalKept(states[m].table, states[m + 1].table) {
      TerminalKeptOnce(states, actions, slack, m);
    }
    TerminalChain(states, j, k);
  }
}
