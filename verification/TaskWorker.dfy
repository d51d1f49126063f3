/**
 Workers and operators as a state machine. Every database call is one step, so a check and the write that follows it
 are two steps, and any number of executors and cancelling operators interleave.
 */
module TaskWorker {
  import opened Wrappers
  import opened RetryPolicy
  import opened TaskTable

  /** The three progress marks that an execution writes. */
  datatype Mark = Mark5 | Mark30 | Mark85

  /** Where an execution of a claimed task stands; `...Write` states sit between a check and its write. */
  datatype Pc =
    | Begin
    | FirstCheck
    | MarkCheck(mark: Mark)
    | MarkWrite(mark: Mark)
    | Dispatch
    | Operate
    | LastCheck
    | CompleteWrite
    | FailCheck(retryable: bool)
    | FailWrite(retryable: bool)
    | Done

  /** A goroutine running a claimed task, with the values it copied at claim time. A crash ends it as `Done`. */
  datatype Exec = Exec(task: nat, worker: string, lease: int, attempt: int, maxAttempts: int, pc: Pc, lastBeat: Time)

  /** An operator's cancellation that has read the row; it is over once its write has been made or has failed. */
  datatype Cancel = Cancel(task: nat, progress: int, over: bool)

  datatype System = System(table: Table, execs: seq<Exec>, cancels: seq<Cancel>, now: Time)

  /** How a step turns out: the database call or the operation may fail, and a failure may be retryable. */
  datatype Outcome = Fine | Trouble(retryable: bool)

  datatype Action =
    | Submit(maxAttempts: int, key: Option<string>)
    | Grab(task: nat, worker: string, lease: int)
    | Beat(exec: nat)
    | Advance(exec: nat, outcome: Outcome)
    | Crash(exec: nat)
    | Sweep
    | CancelRead(task: nat)
    | CancelWrite(cancel: nat)
    | CancelLost(cancel: nat)
    | Tick(now: Time)

  const START := System([], [], [], 0)

  predicate Live(e: Exec) { e.pc != Done }

  predicate Enabled(s: System, a: Action) {
    match a
    case Grab(task, _, lease) => task < |s.table| && Claimable(s.table[task], s.now) && lease > 0
    case Beat(x) => x < |s.execs| && Live(s.execs[x])
    case Advance(x, _) => x < |s.execs| && Live(s.execs[x])
    case Crash(x) => x < |s.execs| && Live(s.execs[x])
    case CancelRead(task) => task < |s.table| && !Terminal(s.table[task].status)
    case CancelWrite(c) => c < |s.cancels| && !s.cancels[c].over
    case CancelLost(c) => c < |s.cancels| && !s.cancels[c].over
    case Tick(now) => s.now <= now
    case _ => true
  }

  function Progress(m: Mark): int {
    match m case Mark5 => 5 case Mark30 => 30 case Mark85 => 85
  }

  predicate IsCanceled(s: System, task: nat) {
    task < |s.table| && s.table[task].status == Canceled
  }

  /** The statement that an execution's next step runs, if that step writes. */
  function WriteOf(e: Exec, outcome: Outcome, now: Time): Option<Op> {
    if outcome.Trouble? then None
    else
      match e.pc
      case MarkWrite(m) => Some(Update(e.task, Running, Progress(m)))
      case CompleteWrite => Some(Complete(e.task, e.worker, now))
      case FailWrite(retryable) =>
        Some(Fail(e.task, e.worker, NextTaskRetryAt(now, e.attempt, e.maxAttempts, retryable), now))
      case _ => None
  }

  /** Where the execution goes next. A check whose read fails passes, as if the task were not canceled. */
  function NextPc(e: Exec, canceled: bool, outcome: Outcome): Pc {
    var seen := canceled && outcome.Fine?;
    match e.pc
    case Begin => if outcome.Fine? then FirstCheck else FailCheck(false)
    case FirstCheck => if seen then Done else MarkCheck(Mark5)
    case MarkCheck(m) => if !seen then MarkWrite(m) else if m == Mark5 then Done else FailCheck(true)
    case MarkWrite(m) =>
      if outcome.Trouble? then (if m == Mark5 then Done else FailCheck(true))
      else (match m case Mark5 => Dispatch case Mark30 => Operate case Mark85 => LastCheck)
    case Dispatch => if outcome.Fine? then MarkCheck(Mark30) else FailCheck(false)
    case Operate => if outcome.Fine? then MarkCheck(Mark85) else FailCheck(outcome.retryable)
    case LastCheck => if seen then Done else CompleteWrite
    case CompleteWrite => Done
    case FailCheck(retryable) => if seen then Done else FailWrite(retryable)
    case FailWrite(_) => Done
    case Done => Done
  }

  /** The statement an action runs on the table, if any. */
  function OpOf(s: System, a: Action): Option<Op>
    requires Enabled(s, a)
  {
    match a
    case Submit(maxAttempts, key) => Some(Create(maxAttempts, key, s.now))
    case Grab(task, worker, lease) => Some(Claim(task, worker, lease, s.now))
    case Beat(x) => Some(Heartbeat(s.execs[x].task, s.execs[x].worker, s.execs[x].lease, s.now))
    case Advance(x, outcome) => WriteOf(s.execs[x], outcome, s.now)
    case Sweep => Some(Release(s.now))
    case CancelWrite(c) => Some(Update(s.cancels[c].task, Canceled, s.cancels[c].progress))
    case _ => None
  }

  function ExecsAfter(s: System, a: Action): seq<Exec>
    requires Enabled(s, a)
  {
    match a
    case Grab(task, worker, lease) =>
      var r := s.table[task];
      s.execs + [Exec(task, worker, lease, r.attempt + 1, r.maxAttempts, Begin, s.now)]
    case Beat(x) => s.execs[x := s.execs[x].(lastBeat := s.now)]
    case Advance(x, outcome) =>
      s.execs[x := s.execs[x].(pc := NextPc(s.execs[x], IsCanceled(s, s.execs[x].task), outcome))]
    case Crash(x) => s.execs[x := s.execs[x].(pc := Done)]
    case _ => s.execs
  }

  function CancelsAfter(s: System, a: Action): seq<Cancel>
    requires Enabled(s, a)
  {
    match a
    case CancelRead(task) => s.cancels + [Cancel(task, s.table[task].progress, false)]
    case CancelWrite(c) => s.cancels[c := s.cancels[c].(over := true)]
    case CancelLost(c) => s.cancels[c := s.cancels[c].(over := true)]
    case _ => s.cancels
  }

  function Next(s: System, a: Action): System
    requires Enabled(s, a)
  {
    var op := OpOf(s, a);
    System(if op.Some? then Apply(s.table, op.value) else s.table, ExecsAfter(s, a), CancelsAfter(s, a),
           if a.Tick? then a.now else s.now)
  }

  /** `states` is a run driven by `actions`. */
  ghost predicate IsRun(states: seq<System>, actions: seq<Action>) {
    && |states| == |actions| + 1
    && states[0] == START
    && forall i :: 0 <= i < |actions| ==> Enabled(states[i], actions[i]) && states[i + 1] == Next(states[i], actions[i])
  }

  ghost predicate Reachable(s: System) {
    exists states, actions :: IsRun(states, actions) && states[|actions|] == s
  }

  lemma StartReachable()
    ensures Reachable(START)
  {
    assert IsRun([START], []);
  }

  lemma NextReachable(s: System, a: Action)
    requires Reachable(s) && Enabled(s, a)
    ensures Reachable(Next(s, a))
  {
    hide Enabled, Next;
    var states, actions :| IsRun(states, actions) && states[|actions|] == s;
    assert IsRun(states + [Next(s, a)], actions + [a]);
    assert (states + [Next(s, a)])[|actions + [a]|] == Next(s, a);
  }
}
