/**
 Where the life cycle fails when an assumption of LeaseSafety does not hold, and how the queue's ledger still applies.
 */
module LeaseLimits {
  import opened Wrappers
  import opened RetryPolicy
  import opened TaskTable
  import opened TaskWorker
  import L = TaskLedger
  import LeaseSafety

  /** The table of any reachable state, orderly or not, is the result of worker-mode statements: the ledger balances. */
  lemma {:induction false} EveryRunIsLedgered(states: seq<System>, actions: seq<Action>, k: nat) returns (ops: seq<Op>)
    requires IsRun(states, actions) && k < |states|
    ensures L.InWorkerMode(ops) && L.Run(L.EMPTY, ops).table == states[k].table
    ensures L.AllBalanced(L.Run(L.EMPTY, ops))
    decreases k
  {
    if k == 0 {
      ops := [];
    } else {
      var before := EveryRunIsLedgered(states, actions, k - 1);
      var op := OpOf(states[k - 1], actions[k - 1]);
      if op.None? {
        ops := before;
      } else {
        ops := before + [op.value];
        assert ops[..|ops| - 1] == before;
      }
    }
    L.LedgerBalances(ops);
  }

  /** The write that an action is about to make regardless of what the row has become meanwhile. */
  predicate BlindWrite(s: System, a: Action, i: nat, status: Status)
    requires Enabled(s, a)
  {
    || (status == Running && a.Advance? && a.outcome.Fine?
        && s.execs[a.exec].pc.MarkWrite? && s.execs[a.exec].task == i)
    || (status == Canceled && a.CancelWrite? && s.cancels[a.cancel].task == i)
  }

  /**
   Exactly when one step, in any state whatsoever, changes a terminal status: it is the write half of a progress or
   cancel pair, and the row has become terminal with another status since the check half.
   */
  lemma TerminalOverwritten(s: System, a: Action, i: nat)
    requires Enabled(s, a) && i < |s.table| && Terminal(s.table[i].status)
    ensures Next(s, a).table[i].status != s.table[i].status <==>
            BlindWrite(s, a, i, Running) || (BlindWrite(s, a, i, Canceled) && s.table[i].status != Canceled)
  {
  }

  /**
   A sweep takes a running task from a live, up-to-date execution exactly when its renewal is later than the lease.
   */
  lemma SweepTakesLateExecution(s: System, x: nat)
    requires x < |s.execs| && Live(s.execs[x]) && s.execs[x].task < |s.table|
    requires HeldBy(s.table[s.execs[x].task], s.execs[x].worker)
    requires s.table[s.execs[x].task].lockedUntil == Some(s.execs[x].lastBeat + s.execs[x].lease)
    ensures Enabled(s, Sweep)
    ensures Next(s, Sweep).table[s.execs[x].task].lockedBy.None? <==> s.now > s.execs[x].lastBeat + s.execs[x].lease
  {
  }

  /** The state after a task was submitted and claimed by `worker`, with the lease given. */
  lemma OneClaimed(maxAttempts: int, worker: string, lease: int) returns (s: System)
    requires maxAttempts >= 1 && lease > 0
    ensures Reachable(s) && s.now == 0 && s.cancels == []
    ensures s.table == [Task(Running, 0, Some(worker), Some(lease), 1, maxAttempts, None, None, 0, Some(0), None)]
    ensures s.execs == [Exec(0, worker, lease, 1, maxAttempts, Begin, 0)]
  {
    StartReachable();
    NextReachable(START, Submit(maxAttempts, None));
    s := Next(START, Submit(maxAttempts, None));
    NextReachable(s, Grab(0, worker, lease));
    s := Next(s, Grab(0, worker, lease));
  }

  /** One undisturbed step of the only execution, of the only task. */
  lemma Go(s: System) returns (s': System)
    requires Reachable(s) && |s.execs| == 1 && |s.table| == 1 && Live(s.execs[0]) && s.execs[0].task == 0
    ensures Reachable(s') && s'.cancels == s.cancels && s'.now == s.now
    ensures s'.execs == [s.execs[0].(pc := NextPc(s.execs[0], s.table[0].status == Canceled, Fine))]
    ensures var op := WriteOf(s.execs[0], Fine, s.now);
            s'.table == [if op.Some? then RowStep(s.table[0], op.value) else s.table[0]]
  {
    NextReachable(s, Advance(0, Fine));
    s' := Next(s, Advance(0, Fine));
  }

  /** A late heartbeat: the same task has two live executions at once. */
  lemma TwoExecutionsWithoutTimelyBeats() returns (s: System)
    ensures Reachable(s) && |s.execs| == 2
    ensures Live(s.execs[0]) && Live(s.execs[1]) && s.execs[0].task == s.execs[1].task
  {
    s := OneClaimed(2, "a", 30 * SECOND);
    NextReachable(s, Tick(31 * SECOND));
    s := Next(s, Tick(31 * SECOND));
    NextReachable(s, Sweep);
    s := Next(s, Sweep);
    NextReachable(s, Grab(0, "b", 30 * SECOND));
    s := Next(s, Grab(0, "b", 30 * SECOND));
  }

  /** From one progress write over the work between to the next progress write. */
  lemma MarkToMark(s: System, m: Mark, m': Mark) returns (s': System)
    requires Reachable(s) && |s.execs| == 1 && |s.table| == 1 && s.execs[0].task == 0
    requires s.execs[0].pc == MarkWrite(m) && (m, m') in {(Mark5, Mark30), (Mark30, Mark85)}
    ensures Reachable(s') && s'.cancels == s.cancels && s'.now == s.now
    ensures s'.execs == [s.execs[0].(pc := MarkWrite(m'))]
    ensures s'.table == [s.table[0].(status := Running, progress := Progress(m))]
  {
    s' := Go(s);
    s' := Go(s');
    s' := Go(s');
  }

  /** From the first progress write the execution runs undisturbed up to its last check. */
  lemma FromFirstWriteToLastCheck(s: System) returns (s': System)
    requires Reachable(s) && |s.execs| == 1 && |s.table| == 1 && s.execs[0].task == 0
    requires s.execs[0].pc == MarkWrite(Mark5)
    ensures Reachable(s') && s'.cancels == s.cancels && s'.now == s.now
    ensures s'.execs == [s.execs[0].(pc := LastCheck)]
    ensures s'.table == [s.table[0].(status := Running, progress := 85)]
  {
    s' := MarkToMark(s, Mark5, Mark30);
    s' := MarkToMark(s', Mark30, Mark85);
    s' := Go(s');
  }

  /** A claimed task whose execution has passed the check before its first progress mark. */
  lemma UpToFirstWrite(maxAttempts: int) returns (s: System)
    requires maxAttempts >= 1
    ensures Reachable(s) && s.now == 0 && s.cancels == []
    ensures s.execs == [Exec(0, "a", 30 * SECOND, 1, maxAttempts, MarkWrite(Mark5), 0)]
    ensures s.table == [Task(Running, 0, Some("a"), Some(30 * SECOND), 1, maxAttempts, None, None, 0, Some(0), None)]
  {
    s := OneClaimed(maxAttempts, "a", 30 * SECOND);
    s := Go(s);
    s := Go(s);
    s := Go(s);
  }

  /** An operator reads the row in order to cancel the task. */
  lemma ReadToCancel(s: System) returns (s': System)
    requires Reachable(s) && |s.table| == 1 && s.table[0].status == Running && s.cancels == []
    ensures Reachable(s') && s'.table == s.table && s'.execs == s.execs && s'.now == s.now
    ensures s'.cancels == [Cancel(0, s.table[0].progress, false)]
  {
    NextReachable(s, CancelRead(0));
    s' := Next(s, CancelRead(0));
  }

  /** The operator's write lands. */
  lemma WriteToCancel(s: System) returns (s': System)
    requires Reachable(s) && |s.table| == 1 && |s.cancels| == 1
    requires !s.cancels[0].over && s.cancels[0].task == 0
    ensures Enabled(s, CancelWrite(0)) && s' == Next(s, CancelWrite(0))
    ensures Reachable(s') && s'.execs == s.execs && s'.now == s.now
    ensures s'.table == [s.table[0].(status := Canceled, progress := s.cancels[0].progress)]
  {
    NextReachable(s, CancelWrite(0));
    s' := Next(s, CancelWrite(0));
  }

  /** An operator has read the running task when its execution is about to complete. */
  lemma UpToStraddledCancel() returns (s: System)
    ensures Reachable(s) && s.now == 0 && s.cancels == [Cancel(0, 85, false)]
    ensures s.execs == [Exec(0, "a", 30 * SECOND, 1, 1, LastCheck, 0)]
    ensures s.table == [Task(Running, 85, Some("a"), Some(30 * SECOND), 1, 1, None, None, 0, Some(0), None)]
  {
    s := UpToFirstWrite(1);
    s := FromFirstWriteToLastCheck(s);
    s := ReadToCancel(s);
  }

  /** A straddled cancellation: a task that has succeeded becomes canceled. */
  lemma SuccessOverwrittenByStraddledCancel() returns (s: System, s': System)
    ensures Reachable(s) && |s.table| == 1 && s.table[0].status == Success
    ensures Enabled(s, CancelWrite(0)) && s' == Next(s, CancelWrite(0))
    ensures Reachable(s') && |s'.table| == 1 && s'.table[0].status == Canceled
  {
    hide Reachable, Enabled, Next;
    s := UpToStraddledCancel();
    s := Go(s);
    s := Go(s);
    s' := WriteToCancel(s);
  }

  /** A straddled progress write: a canceled task runs again and completes as a success. */
  lemma CancelUndoneByStraddledProgress() returns (s: System, s': System)
    ensures Reachable(s) && |s.table| == 1 && s.table[0].status == Canceled
    ensures Reachable(s') && |s'.table| == 1 && s'.table[0].status == Success
  {
    hide Reachable, Enabled, Next;
    s := UpToFirstWrite(1);
    s := ReadToCancel(s);
    s := WriteToCancel(s);
    s' := FromFirstWriteToLastCheck(s);
    s' := Go(s');
    s' := Go(s');
  }

  // ---- a cancellation check that cannot read ----

  /** A run with timely heartbeats and no straddled pair; only the reads of the checks may fail. */
  ghost predicate ReadsAside(states: seq<System>, actions: seq<Action>) {
    IsRun(states, actions)
    && forall i :: 0 <= i < |actions| ==>
         LeaseSafety.Unstraddled(states[i], actions[i]) && LeaseSafety.Timely(states[i], actions[i], 0)
  }

  lemma OneStepMore(states: seq<System>, actions: seq<Action>, a: Action)
    returns (states': seq<System>, actions': seq<Action>)
    requires ReadsAside(states, actions) && Enabled(states[|actions|], a)
    requires LeaseSafety.Unstraddled(states[|actions|], a) && LeaseSafety.Timely(states[|actions|], a, 0)
    ensures ReadsAside(states', actions')
    ensures actions' == actions + [a] && states' == states + [Next(states[|actions|], a)]
  {
    hide Next, Enabled, LeaseSafety.Unstraddled, LeaseSafety.Timely;
    states', actions' := states + [Next(states[|actions|], a)], actions + [a];
  }

  /**
   The only execution is about to make its first cancellation check before a write; the task has just been canceled.
   */
  lemma UpToCanceled() returns (states: seq<System>, actions: seq<Action>)
    ensures ReadsAside(states, actions) && actions != []
    ensures var s := states[|actions|];
            && s.execs == [Exec(0, "a", 30 * SECOND, 1, 1, MarkCheck(Mark5), 0)] && s.cancels == [Cancel(0, 0, true)]
            && s.table == [Task(Canceled, 0, Some("a"), Some(30 * SECOND), 1, 1, None, None, 0, Some(0), None)]
  {
    states, actions := UpToFirstCheck();
    states, actions := OneStepMore(states, actions, CancelRead(0));
    states, actions := OneStepMore(states, actions, CancelWrite(0));
  }

  lemma UpToFirstCheck() returns (states: seq<System>, actions: seq<Action>)
    ensures ReadsAside(states, actions) && actions != []
    ensures var s := states[|actions|];
            && s.execs == [Exec(0, "a", 30 * SECOND, 1, 1, MarkCheck(Mark5), 0)] && s.cancels == [] && s.now == 0
            && s.table == [Task(Running, 0, Some("a"), Some(30 * SECOND), 1, 1, None, None, 0, Some(0), None)]
  {
    states, actions := UpToClaim();
    states, actions := OneStepMore(states, actions, Advance(0, Fine));
    states, actions := OneStepMore(states, actions, Advance(0, Fine));
  }

  lemma UpToClaim() returns (states: seq<System>, actions: seq<Action>)
    ensures ReadsAside(states, actions) && actions != []
    ensures var s := states[|actions|];
            && s.execs == [Exec(0, "a", 30 * SECOND, 1, 1, Begin, 0)] && s.cancels == [] && s.now == 0
            && s.table == [Task(Running, 0, Some("a"), Some(30 * SECOND), 1, 1, None, None, 0, Some(0), None)]
  {
    states, actions := [START], [];
    states, actions := OneStepMore(states, actions, Submit(1, None));
    states, actions := OneStepMore(states, actions, Grab(0, "a", 30 * SECOND));
  }

  /**
   The third assumption is needed too: with timely heartbeats and no straddled pair, a check whose read fails passes,
   and the progress write after it sets a canceled task running again.
   */
  lemma CancelUndoneByFailedRead() returns (states: seq<System>, actions: seq<Action>, k: nat)
    ensures ReadsAside(states, actions) && k < |actions| && |states[k].table| == 1 && |states[|actions|].table| == 1
    ensures states[k].table[0].status == Canceled && states[|actions|].table[0].status == Running
  {
    states, actions := UpToCanceled();
    k := |actions|;
    states, actions := OneStepMore(states, actions, Advance(0, Trouble(false)));
    states, actions := OneStepMore(states, actions, Advance(0, Fine));
  }
}
