/**
 How far apart the attempts of a task lie. In every interleaving a claim waits for the pause that the last failure
 left; the pauses add up when no claim of a task is made under the id of a live execution of that same task. An id is
 shared by all executions of a process, and claims again and again.
 */
module RetrySpacing {
  import opened Wrappers
  import opened RetryPolicy
  import opened TaskTable
  import opened TaskWorker
  import LeaseLimits
  import LeaseSafety

  /** A retryable failure, recorded at `at` by an execution of attempt number `attempt`. */
  datatype Failure = Failure(attempt: int, at: Time)

  /** A task's past: its first and latest claim, the failure that sent it back last, and any release as stale. */
  datatype Past = Past(first: Option<Time>, last: Time, failure: Option<Failure>, released: bool)

  /** The past after a statement of an execution of attempt `actor`. */
  function Remember(p: Past, r: Task, op: Op, actor: int): Past {
    match op
    case Claim(_, _, _, now) =>
      if Claimable(r, now) then Past(if p.first.None? then Some(now) else p.first, now, None, p.released) else p
    case Fail(_, worker, next, now) =>
      if HeldBy(r, worker) && next.Some? then p.(failure := Some(Failure(actor, now))) else p
    case Release(now) => if Stale(r, now) then p.(failure := None, released := true) else p
    case _ => p
  }

  /** The attempt of the execution that acts. */
  function ActorAttempt(s: System, a: Action): int
    requires Enabled(s, a)
  {
    if a.Advance? then s.execs[a.exec].attempt else 0
  }

  /** The past of row `i` after an action. */
  function PastAfter(s: System, a: Action, p: Past, i: nat): Past
    requires Enabled(s, a) && i < |s.table|
  {
    var op := OpOf(s, a);
    if op.Some? && Touches(op.value, i) then Remember(p, s.table[i], op.value, ActorAttempt(s, a)) else p
  }

  /** The pasts of all tasks in state `k` of a run, gathered from the statements that took effect. */
  function Pasts(states: seq<System>, actions: seq<Action>, k: nat): (pasts: seq<Past>)
    requires IsRun(states, actions) && k < |states|
    ensures |pasts| == |states[k].table|
  {
    if k == 0 then []
    else
      var s, a := states[k - 1], actions[k - 1];
      var before := Pasts(states, actions, k - 1);
      assert |states[k].table| >= |s.table|;
      seq(|states[k].table|, i requires 0 <= i < |states[k].table| =>
            if i >= |s.table| then Past(None, 0, None, false) else PastAfter(s, a, before[i], i))
  }

  // ---- every run ----

  /** A task that a failure has sent back is scheduled after the pause of the attempt that failed. */
  predicate Waits(r: Task, p: Past, now: Time) {
    && (r.lockedBy.Some? <==> r.lockedUntil.Some?)
    && (r.status == Pending ==> r.lockedBy.None?)
    && (r.lockedBy.Some? ==> p.failure.None?)
    && (p.failure.Some? ==> p.failure.value.at <= now)
    && (r.status == Pending && p.failure.Some? ==>
          r.nextRunAt == Some(p.failure.value.at + TaskRetryBackoff(p.failure.value.attempt)))
  }

  lemma WaitsRow(r: Task, p: Past, op: Op, actor: int, now: Time)
    requires Waits(r, p, now)
    requires op.Fail? ==> op.now == now && (op.nextRunAt.Some? ==> op.nextRunAt == Some(now + TaskRetryBackoff(actor)))
    requires op.Update? ==> op.status != Pending
    ensures Waits(RowStep(r, op), Remember(p, r, op, actor), now)
  {
    hide TaskRetryBackoff;
  }

  lemma WaitsStep(s: System, a: Action, p: Past, i: nat)
    requires Enabled(s, a) && i < |s.table| && Waits(s.table[i], p, s.now)
    ensures Waits(Next(s, a).table[i], PastAfter(s, a, p, i), Next(s, a).now)
  {
    hide TaskRetryBackoff;
    var op := OpOf(s, a);
    if op.Some? && Touches(op.value, i) { WaitsRow(s.table[i], p, op.value, ActorAttempt(s, a), s.now); }
  }

  lemma {:induction false} RunsWait(states: seq<System>, actions: seq<Action>, k: nat)
    requires IsRun(states, actions) && k < |states|
    ensures forall i :: 0 <= i < |states[k].table| ==>
              Waits(states[k].table[i], Pasts(states, actions, k)[i], states[k].now)
    decreases k
  {
    hide Waits, PastAfter;
    if k > 0 {
      RunsWait(states, actions, k - 1);
      var s, a := states[k - 1], actions[k - 1];
      forall i | 0 <= i < |states[k].table|
        ensures Waits(states[k].table[i], Pasts(states, actions, k)[i], states[k].now)
      {
        if i < |s.table| { WaitsStep(s, a, Pasts(states, actions, k - 1)[i], i); } else { NewWaits(s, a, i); }
      }
    }
  }

  lemma NewWaits(s: System, a: Action, i: nat)
    requires Enabled(s, a) && |s.table| <= i < |Next(s, a).table|
    ensures Waits(Next(s, a).table[i], Past(None, 0, None, false), Next(s, a).now)
  {
  }

  /**
   In every run whatsoever: a claim that follows a retryable failure by an execution of attempt k at time f comes no
   earlier than f plus the pause of k.
   */
  lemma ClaimWaitsForBackoff(states: seq<System>, actions: seq<Action>, k: nat)
    requires IsRun(states, actions) && k < |actions| && actions[k].Grab?
    ensures var p := Pasts(states, actions, k)[actions[k].task];
            p.failure.Some? ==> states[k].now >= p.failure.value.at + TaskRetryBackoff(p.failure.value.attempt)
  {
    hide TaskRetryBackoff;
    RunsWait(states, actions, k);
    assert Waits(states[k].table[actions[k].task], Pasts(states, actions, k)[actions[k].task], states[k].now);
  }

  // ---- runs without twins ----

  /** A claim is not made under the id of a live execution of the same task. */
  predicate NoTwin(s: System, a: Action) {
    a.Grab? ==>
      forall x: nat :: x < |s.execs| && Live(s.execs[x]) && s.execs[x].task == a.task ==> s.execs[x].worker != a.worker
  }

  ghost predicate NoTwins(states: seq<System>, actions: seq<Action>)
    requires IsRun(states, actions)
  {
    forall k :: 0 <= k < |actions| ==> NoTwin(states[k], actions[k])
  }

  /** A leased row belongs to an execution that claimed this very attempt. */
  ghost predicate LeaseTraced(s: System, i: nat)
    requires i < |s.table|
  {
    s.table[i].lockedBy.Some? ==>
      exists x :: 0 <= x < |s.execs| && s.execs[x].worker == s.table[i].lockedBy.value && s.execs[x].task == i
                  && s.execs[x].attempt == s.table[i].attempt
  }

  predicate Spaced(r: Task, p: Past, now: Time) {
    && (r.lockedBy.Some? <==> r.lockedUntil.Some?)
    && (r.lockedBy.Some? ==> r.attempt >= 1)
    && (r.status == Pending ==> r.lockedBy.None?)
    && r.attempt >= 0
    && (r.attempt == 0 ==> p == Past(None, 0, None, false))
    && (r.attempt >= 1 ==> p.first.Some? && p.last <= now)
    && (r.attempt >= 1 && !p.released ==> p.last >= p.first.value + BackoffSum(r.attempt - 1))
    && (p.failure.Some? ==> p.failure.value.attempt == r.attempt >= 1 && p.last <= p.failure.value.at <= now)
    && (r.lockedBy.Some? ==> p.failure.None?)
    && (r.status == Pending && p.failure.Some? ==>
          r.nextRunAt == Some(p.failure.value.at + TaskRetryBackoff(r.attempt)))
    && (r.status == Pending && r.attempt >= 1 && !p.released ==> p.failure.Some?)
  }

  /** The executions of a task have growing attempts, and only the last one under an id can be live. */
  ghost predicate ExecsTraced(s: System) {
    && (forall x :: 0 <= x < |s.execs| ==>
          s.execs[x].task < |s.table| && s.execs[x].attempt <= s.table[s.execs[x].task].attempt)
    && (forall x, y :: 0 <= x < y < |s.execs| && s.execs[x].task == s.execs[y].task ==>
          s.execs[x].attempt < s.execs[y].attempt && (s.execs[x].worker == s.execs[y].worker ==> !Live(s.execs[x])))
  }

  ghost predicate AllSpaced(s: System, pasts: seq<Past>) {
    && |pasts| == |s.table|
    && (forall i :: 0 <= i < |s.table| ==> Spaced(s.table[i], pasts[i], s.now) && LeaseTraced(s, i))
    && ExecsTraced(s)
    && (forall c :: 0 <= c < |s.cancels| ==> s.cancels[c].task < |s.table|)
  }

  /** Executions keep their task, worker and attempt, and an ended one stays ended; an action only adds to them. */
  lemma ExecsOnlyAdded(s: System, a: Action)
    requires Enabled(s, a)
    ensures |s.execs| <= |Next(s, a).execs| <= |s.execs| + (if a.Grab? then 1 else 0)
    ensures forall x :: 0 <= x < |s.execs| ==>
              Next(s, a).execs[x].task == s.execs[x].task && Next(s, a).execs[x].worker == s.execs[x].worker
              && Next(s, a).execs[x].attempt == s.execs[x].attempt && (Live(Next(s, a).execs[x]) ==> Live(s.execs[x]))
  {
  }

  /** No statement takes an attempt back, and a claim counts one. */
  lemma AttemptsOnlyGrow(s: System, a: Action, i: nat)
    requires Enabled(s, a) && i < |s.table|
    ensures i < |Next(s, a).table| && s.table[i].attempt <= Next(s, a).table[i].attempt
    ensures a.Grab? && a.task == i ==> Next(s, a).table[i].attempt == s.table[i].attempt + 1
  {
  }

  lemma ExecsTracedStep(s: System, a: Action)
    requires Enabled(s, a) && ExecsTraced(s) && NoTwin(s, a)
    ensures ExecsTraced(Next(s, a))
  {
    hide Live;
    ExecsOnlyAdded(s, a);
    if a.Grab? { ClaimedExec(s, a); }
    hide Next, Enabled;
    var s' := Next(s, a);
    forall x | 0 <= x < |s'.execs|
      ensures s'.execs[x].task < |s'.table| && s'.execs[x].attempt <= s'.table[s'.execs[x].task].attempt
    {
      AttemptsOnlyGrow(s, a, s'.execs[x].task);
    }
  }

  lemma ClaimedExec(s: System, a: Action)
    requires Enabled(s, a) && a.Grab?
    ensures var e := Next(s, a).execs[|s.execs|];
            e.task == a.task < |s.table| && e.worker == a.worker && e.attempt == s.table[a.task].attempt + 1
  {
  }

  lemma LeaseTracedStep(s: System, a: Action, i: nat)
    requires Enabled(s, a) && i < |Next(s, a).table|
    requires forall j :: 0 <= j < |s.table| ==> LeaseTraced(s, j)
    ensures LeaseTraced(Next(s, a), i)
  {
    var s' := Next(s, a);
    ExecsOnlyAdded(s, a);
    if s'.table[i].lockedBy.Some? {
      if a.Grab? && a.task == i {
        assert s'.execs[|s.execs|].worker == s'.table[i].lockedBy.value;
      } else if i < |s.table| {
        assert LeaseTraced(s, i) && s.table[i].lockedBy == s'.table[i].lockedBy;
        var x :| 0 <= x < |s.execs| && s.execs[x].worker == s.table[i].lockedBy.value && s.execs[x].task == i
                 && s.execs[x].attempt == s.table[i].attempt;
        assert s'.execs[x].worker == s'.table[i].lockedBy.value;
      }
    }
  }

  /** A failure that takes effect is that of the attempt it names. */
  lemma FailuresNameTheirAttempt(s: System, a: Action, i: nat)
    requires Enabled(s, a) && i < |s.table| && LeaseTraced(s, i) && ExecsTraced(s)
    requires OpOf(s, a).Some? && OpOf(s, a).value.Fail? && OpOf(s, a).value.id == i
    requires HeldBy(s.table[i], OpOf(s, a).value.worker)
    ensures s.execs[a.exec].attempt == s.table[i].attempt
  {
    var x :| 0 <= x < |s.execs| && s.execs[x].worker == s.table[i].lockedBy.value && s.execs[x].task == i
             && s.execs[x].attempt == s.table[i].attempt;
    assert x == a.exec;
  }

  /** One statement on one row, seen at the time it runs. */
  lemma SpacedRow(r: Task, p: Past, op: Op, actor: int, now: Time)
    requires Spaced(r, p, now)
    requires op.Claim? || op.Fail? || op.Release? ==> op.now == now
    requires op.Fail? && HeldBy(r, op.worker) && op.nextRunAt.Some? ==>
               actor == r.attempt && op.nextRunAt == Some(now + TaskRetryBackoff(r.attempt))
    requires op.Update? ==> op.status != Pending
    ensures Spaced(RowStep(r, op), Remember(p, r, op, actor), now)
  {
    if op.Claim? && r.attempt >= 1 {
      BackoffShape(r.attempt);
    }
  }

  lemma SpacedStep(s: System, a: Action, pasts: seq<Past>, i: nat)
    requires AllSpaced(s, pasts) && Enabled(s, a) && i < |s.table|
    ensures Spaced(Next(s, a).table[i], PastAfter(s, a, pasts[i], i), Next(s, a).now)
  {
    var op := OpOf(s, a);
    assert Spaced(s.table[i], pasts[i], s.now) && LeaseTraced(s, i);
    if op.Some? && Touches(op.value, i) {
      if op.value.Fail? && HeldBy(s.table[i], op.value.worker) {
        FailuresNameTheirAttempt(s, a, i);
      }
      SpacedRow(s.table[i], pasts[i], op.value, ActorAttempt(s, a), s.now);
    }
  }

  lemma {:induction false} RunsAreSpaced(states: seq<System>, actions: seq<Action>, k: nat)
    requires IsRun(states, actions) && NoTwins(states, actions) && k < |states|
    ensures AllSpaced(states[k], Pasts(states, actions, k))
    decreases k
  {
    if k > 0 {
      RunsAreSpaced(states, actions, k - 1);
      var s, a := states[k - 1], actions[k - 1];
      ExecsTracedStep(s, a);
      forall i | 0 <= i < |states[k].table|
        ensures Spaced(states[k].table[i], Pasts(states, actions, k)[i], states[k].now) && LeaseTraced(states[k], i)
      {
        LeaseTracedStep(s, a, i);
        if i < |s.table| {
          SpacedStep(s, a, Pasts(states, actions, k - 1), i);
        }
      }
    }
  }

  /** The failure that sends a task back is that of the row's own attempt. */
  lemma FailureIsOfTheRow(states: seq<System>, actions: seq<Action>, k: nat, i: nat)
    requires IsRun(states, actions) && NoTwins(states, actions) && k < |states| && i < |states[k].table|
    ensures var p := Pasts(states, actions, k)[i];
            p.failure.Some? ==> p.failure.value.attempt == states[k].table[i].attempt
  {
    RunsAreSpaced(states, actions, k);
    assert Spaced(states[k].table[i], Pasts(states, actions, k)[i], states[k].now);
  }

  /**
   Attempt n, reached through failures alone, was claimed no earlier than all earlier pauses after the first claim.
   */
  lemma AttemptsAreSpaced(states: seq<System>, actions: seq<Action>, k: nat, i: nat)
    requires IsRun(states, actions) && NoTwins(states, actions) && k < |states|
    requires i < |states[k].table| && states[k].table[i].attempt >= 1 && !Pasts(states, actions, k)[i].released
    ensures var p := Pasts(states, actions, k)[i];
            p.first.Some? && p.last >= p.first.value + BackoffSum(states[k].table[i].attempt - 1)
  {
    RunsAreSpaced(states, actions, k);
    assert Spaced(states[k].table[i], Pasts(states, actions, k)[i], states[k].now);
  }

  /** An orderly run has no twins, so that its attempts are spaced. */
  lemma OrderlyRunsAreSpaced(states: seq<System>, actions: seq<Action>, slack: int, k: nat)
    requires LeaseSafety.OrderlyRun(states, actions, slack) && k < |states|
    ensures NoTwins(states, actions) && AllSpaced(states[k], Pasts(states, actions, k))
  {
    hide AllSpaced, Pasts;
    forall m | 0 <= m < |actions| ensures NoTwin(states[m], actions[m]) {
      LeaseSafety.OrderlyRunsSafe(states, actions, slack, m);
      OwnedIsNotClaimable(states[m], actions[m], slack);
    }
    RunsAreSpaced(states, actions, k);
  }

  lemma OwnedIsNotClaimable(s: System, a: Action, slack: int)
    requires LeaseSafety.Safe(s, slack) && Enabled(s, a)
    ensures NoTwin(s, a)
  {
    if a.Grab? {
      forall x: nat | x < |s.execs| && Live(s.execs[x]) ensures s.execs[x].task != a.task {
        assert LeaseSafety.Owns(s, s.execs[x], slack);
      }
    }
  }

  // ---- where an id has a twin ----

  /** No execution is ahead of its task. */
  ghost predicate Behind(s: System) {
    && (forall i :: 0 <= i < |s.table| ==> s.table[i].attempt >= 0)
    && (forall x :: 0 <= x < |s.execs| ==>
          s.execs[x].task < |s.table| && 1 <= s.execs[x].attempt <= s.table[s.execs[x].task].attempt)
  }

  lemma BehindStep(s: System, a: Action)
    requires Enabled(s, a) && Behind(s)
    ensures Behind(Next(s, a))
  {
    hide Live;
    ExecsOnlyAdded(s, a);
    if a.Grab? { ClaimedExec(s, a); }
    NewAttempts(s, a);
    hide Next, Enabled;
    var s' := Next(s, a);
    forall i | 0 <= i < |s'.table| ensures s'.table[i].attempt >= 0 {
      if i < |s.table| { AttemptsOnlyGrow(s, a, i); }
    }
    forall x | 0 <= x < |s'.execs|
      ensures s'.execs[x].task < |s'.table| && 1 <= s'.execs[x].attempt <= s'.table[s'.execs[x].task].attempt
    {
      AttemptsOnlyGrow(s, a, s'.execs[x].task);
    }
  }

  lemma NewAttempts(s: System, a: Action)
    requires Enabled(s, a)
    ensures forall i :: |s.table| <= i < |Next(s, a).table| ==> Next(s, a).table[i].attempt == 0
  {
  }

  lemma {:induction false} AlwaysBehind(states: seq<System>, actions: seq<Action>, k: nat)
    requires IsRun(states, actions) && k < |states|
    ensures Behind(states[k])
    decreases k
  {
    if k > 0 {
      AlwaysBehind(states, actions, k - 1);
      BehindStep(states[k - 1], actions[k - 1]);
    }
  }

  /** Two attempts have the same pause only if they are the same or both beyond the fifth. */
  lemma PausesDiffer(a: int, b: int)
    requires 1 <= a <= b
    ensures TaskRetryBackoff(a) == TaskRetryBackoff(b) <==> a == b || a >= 6
  {
    ShiftLeftSteps(SECOND);
    if a < 6 && a < b {
      BackoffMonotone(a + 1, b);
    }
  }

  lemma PauseLeft(s: System, a: Action, i: nat)
    requires Enabled(s, a) && i < |s.table| && OpOf(s, a).Some?
    requires var op := OpOf(s, a).value; op.Fail? && op.id == i && HeldBy(s.table[i], op.worker) && op.nextRunAt.Some?
    ensures s.execs[a.exec].task == i && Next(s, a).table[i].status == Pending
    ensures Next(s, a).table[i].nextRunAt == Some(s.now + TaskRetryBackoff(s.execs[a.exec].attempt))
  {
    hide TaskRetryBackoff;
  }

  /**
   In every run: a retryable failure that takes effect leaves the pause that belongs to the row's attempt if and only if
   the failing execution is of that attempt, or of the sixth or a later one.
   */
  lemma PauseOfTheRow(states: seq<System>, actions: seq<Action>, k: nat, i: nat)
    requires IsRun(states, actions) && k < |actions| && i < |states[k].table| && OpOf(states[k], actions[k]).Some?
    requires var op := OpOf(states[k], actions[k]).value;
             op.Fail? && op.id == i && HeldBy(states[k].table[i], op.worker) && op.nextRunAt.Some?
    ensures var r, e := states[k].table[i].attempt, states[k].execs[actions[k].exec].attempt;
            && states[k + 1].table[i].status == Pending
            && (states[k + 1].table[i].nextRunAt == Some(states[k].now + TaskRetryBackoff(r)) <==> e == r || e >= 6)
  {
    hide TaskRetryBackoff, Next, HeldBy;
    AlwaysBehind(states, actions, k);
    PauseLeft(states[k], actions[k], i);
    PausesDiffer(states[k].execs[actions[k].exec].attempt, states[k].table[i].attempt);
  }

  /** A task at its first attempt, in the middle of its operation. */
  lemma UpToOperate() returns (s: System)
    ensures Reachable(s) && s.now == 0 && s.cancels == []
    ensures s.execs == [Exec(0, "a", 30 * SECOND, 1, 3, Operate, 0)]
    ensures s.table == [Task(Running, 30, Some("a"), Some(30 * SECOND), 1, 3, None, None, 0, Some(0), None)]
  {
    s := LeaseLimits.UpToFirstWrite(3);
    s := LeaseLimits.MarkToMark(s, Mark5, Mark30);
    s := LeaseLimits.Go(s);
  }

  /** The lease has run out, and the same process claims the task again under its only id. */
  lemma UpToTwin() returns (t: System, s: System)
    ensures Enabled(t, Grab(0, "a", 30 * SECOND)) && !NoTwin(t, Grab(0, "a", 30 * SECOND))
    ensures Reachable(s) && s == Next(t, Grab(0, "a", 30 * SECOND))
    ensures s.now == 31 * SECOND && |s.table| == 1 && |s.execs| == 2
    ensures s.execs[0] == Exec(0, "a", 30 * SECOND, 1, 3, Operate, 0)
    ensures HeldBy(s.table[0], "a") && s.table[0].attempt == 2 && s.table[0].maxAttempts == 3
  {
    t := UpToOperate();
    NextReachable(t, Tick(31 * SECOND));
    t := Next(t, Tick(31 * SECOND));
    NextReachable(t, Sweep);
    t := Next(t, Sweep);
    assert Live(t.execs[0]) && t.execs[0].task == 0 && t.execs[0].worker == "a";
    NextReachable(t, Grab(0, "a", 30 * SECOND));
    s := Next(t, Grab(0, "a", 30 * SECOND));
  }

  /** The execution of an expired attempt fails. */
  lemma StaleFails(s: System) returns (s': System)
    requires Reachable(s) && |s.execs| == 2 && |s.table| == 1 && s.table[0].status == Running
    requires s.execs[0].task == 0 && s.execs[0].pc == Operate
    ensures Reachable(s') && s'.table == s.table && s'.now == s.now
    ensures |s'.execs| == 2 && s'.execs[0] == s.execs[0].(pc := FailWrite(true))
  {
    NextReachable(s, Advance(0, Trouble(true)));
    s' := Next(s, Advance(0, Trouble(true)));
    NextReachable(s', Advance(0, Fine));
    s' := Next(s', Advance(0, Fine));
  }

  /** The failure of the first attempt is written for the second. */
  lemma StaleFailureLands(s: System) returns (s': System)
    requires Reachable(s) && |s.table| == 1 && |s.execs| == 2 && HeldBy(s.table[0], "a")
    requires s.execs[0] == Exec(0, "a", 30 * SECOND, 1, 3, FailWrite(true), 0)
    ensures Enabled(s, Advance(0, Fine)) && s' == Next(s, Advance(0, Fine)) && Reachable(s') && s'.now == s.now
    ensures s'.table == [FailRow(s.table[0], Some(s.now + SECOND), s.now)]
  {
    hide ShiftLeft;
    NextReachable(s, Advance(0, Fine));
    s' := Next(s, Advance(0, Fine));
    ShiftLeftSteps(SECOND);
  }

  /**
   A claim beside a live twin: the stale execution's failure counts for the second attempt, but with the pause of the
   first. The task is claimable after one second, where two are due.
   */
  lemma TwinShortensPause() returns (s: System, s': System)
    ensures Reachable(s) && |s.table| == 1 && s.table[0].attempt == 2 && Enabled(s, Advance(0, Fine))
    ensures Next(s, Advance(0, Fine)).table == s'.table && HeldBy(s.table[0], "a")
    ensures Reachable(s') && |s'.table| == 1 && Claimable(s'.table[0], s'.now)
    ensures s'.now < s.now + TaskRetryBackoff(s.table[0].attempt)
  {
    hide ShiftLeft, Next, Enabled, Reachable;
    var _, claimed := UpToTwin();
    s := StaleFails(claimed);
    var failed := StaleFailureLands(s);
    s' := Wait(failed, 32 * SECOND);
    ShiftLeftSteps(SECOND);
  }

  lemma Wait(s: System, until: Time) returns (s': System)
    requires Reachable(s) && s.now <= until
    ensures Reachable(s') && s'.table == s.table && s'.now == until
  {
    NextReachable(s, Tick(until));
    s' := Next(s, Tick(until));
  }
}
