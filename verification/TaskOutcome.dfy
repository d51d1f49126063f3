/**
 What an execution's end says about its work, in every run: a completion follows a successful operation, a failure
 follows trouble, and whether a failure is final is decided by its kind and by the attempts that remain.
 */
module TaskOutcome {
  import opened Wrappers
  import opened RetryPolicy
  import opened TaskTable
  import opened TaskWorker
  import opened RetrySpacing

  // ---- retried or final ----

  /** Every execution has copied its task's limit, which never changes. */
  ghost predicate LimitsCopied(s: System) {
    && (forall i :: 0 <= i < |s.table| ==> s.table[i].maxAttempts >= 1)
    && (forall x :: 0 <= x < |s.execs| ==>
          s.execs[x].task < |s.table| && s.execs[x].maxAttempts == s.table[s.execs[x].task].maxAttempts)
  }

  /** Rows keep their limit, and executions keep their task and limit. */
  lemma LimitsKept(s: System, a: Action)
    requires Enabled(s, a)
    ensures |s.table| <= |Next(s, a).table| && |s.execs| <= |Next(s, a).execs|
    ensures forall i :: 0 <= i < |s.table| ==> Next(s, a).table[i].maxAttempts == s.table[i].maxAttempts
    ensures forall i :: |s.table| <= i < |Next(s, a).table| ==> Next(s, a).table[i].maxAttempts >= 1
    ensures forall x :: 0 <= x < |s.execs| ==>
              Next(s, a).execs[x].task == s.execs[x].task && Next(s, a).execs[x].maxAttempts == s.execs[x].maxAttempts
    ensures forall x :: |s.execs| <= x < |Next(s, a).execs| ==>
              a.Grab? && Next(s, a).execs[x].task == a.task < |s.table|
              && Next(s, a).execs[x].maxAttempts == s.table[a.task].maxAttempts
  {
  }

  lemma {:induction false} LimitsAlwaysCopied(states: seq<System>, actions: seq<Action>, k: nat)
    requires IsRun(states, actions) && k < |states|
    ensures LimitsCopied(states[k])
    decreases k
  {
    hide Next, Enabled;
    if k > 0 {
      LimitsAlwaysCopied(states, actions, k - 1);
      LimitsKept(states[k - 1], actions[k - 1]);
    }
  }

  /** An execution of the row's own attempt is about to record its failure, and holds the row. */
  ghost predicate FailsRow(s: System, a: Action, i: nat, retryable: bool) {
    && a.Advance? && a.outcome.Fine? && a.exec < |s.execs| && s.execs[a.exec].pc == FailWrite(retryable)
    && i < |s.table| && s.execs[a.exec].task == i && s.execs[a.exec].attempt == s.table[i].attempt
    && s.table[i].status == Running && s.table[i].lockedBy == Some(s.execs[a.exec].worker)
  }

  lemma FailureStep(s: System, a: Action, i: nat, retryable: bool)
    requires Enabled(s, a) && FailsRow(s, a, i, retryable) && s.table[i].attempt >= 1
    requires s.execs[a.exec].maxAttempts == s.table[i].maxAttempts
    ensures var r, r' := s.table[i], Next(s, a).table[i];
            && r'.lockedBy == None && r'.lockedUntil == None && r'.attempt == r.attempt
            && (if retryable && r.attempt < r.maxAttempts
                then r'.status == Pending && r'.nextRunAt == Some(s.now + TaskRetryBackoff(r.attempt))
                     && r'.finishedAt == r.finishedAt && r'.progress == r.progress
                else r'.status == Failed && r'.progress == 100 && r'.finishedAt == Some(s.now))
  {
    hide TaskRetryBackoff;
  }

  /**
   In every run: a failure by the row's own attempt that takes effect leaves the task pending, after the pause of that
   attempt, if and only if it is retryable and attempts remain; otherwise failed and finished. Either way it is
   unlocked.
   */
  lemma FailureOutcome(states: seq<System>, actions: seq<Action>, k: nat, i: nat, retryable: bool)
    requires IsRun(states, actions) && k < |actions| && FailsRow(states[k], actions[k], i, retryable)
    ensures var r, r' := states[k].table[i], states[k + 1].table[i];
            && r'.lockedBy == None && r'.lockedUntil == None && r'.attempt == r.attempt
            && (if retryable && r.attempt < r.maxAttempts
                then r'.status == Pending && r'.nextRunAt == Some(states[k].now + TaskRetryBackoff(r.attempt))
                     && r'.finishedAt == r.finishedAt && r'.progress == r.progress
                else r'.status == Failed && r'.progress == 100 && r'.finishedAt == Some(states[k].now))
  {
    hide Next, TaskRetryBackoff;
    AlwaysBehind(states, actions, k);
    LimitsAlwaysCopied(states, actions, k);
    FailureStep(states[k], actions[k], i, retryable);
  }

  /** A waiting task that was never taken back as stale can still be claimed. */
  predicate HasAttempts(r: Task, p: Past) {
    r.status == Pending && !p.released ==> r.attempt < r.maxAttempts
  }

  lemma HasAttemptsRow(r: Task, p: Past, op: Op, actor: int)
    requires HasAttempts(r, p) && (op.Update? ==> op.status != Pending)
    requires op.Fail? && HeldBy(r, op.worker) && op.nextRunAt.Some? ==> r.attempt < r.maxAttempts
    ensures HasAttempts(RowStep(r, op), Remember(p, r, op, actor))
  {
  }

  /** A failure that asks for a retry has attempts left by the execution's own count. */
  lemma RetryHasAttempts(s: System, a: Action)
    requires Enabled(s, a) && OpOf(s, a).Some? && OpOf(s, a).value.Fail? && OpOf(s, a).value.nextRunAt.Some?
    ensures a.Advance? && s.execs[a.exec].task == OpOf(s, a).value.id
    ensures s.execs[a.exec].attempt < s.execs[a.exec].maxAttempts
  {
  }

  lemma UpdatesNeverQueue(s: System, a: Action)
    requires Enabled(s, a)
    ensures OpOf(s, a).Some? && OpOf(s, a).value.Update? ==> OpOf(s, a).value.status != Pending
  {
  }

  lemma HasAttemptsStep(s: System, a: Action, pasts: seq<Past>, i: nat)
    requires AllSpaced(s, pasts) && Enabled(s, a) && i < |s.table| && LimitsCopied(s)
    requires HasAttempts(s.table[i], pasts[i])
    ensures HasAttempts(Next(s, a).table[i], PastAfter(s, a, pasts[i], i))
  {
    hide HasAttempts, RowStep, Remember, Spaced;
    var op := OpOf(s, a);
    UpdatesNeverQueue(s, a);
    if op.Some? && Touches(op.value, i) {
      if op.value.Fail? && HeldBy(s.table[i], op.value.worker) && op.value.nextRunAt.Some? {
        RetryHasAttempts(s, a);
        FailuresNameTheirAttempt(s, a, i);
      }
      HasAttemptsRow(s.table[i], pasts[i], op.value, ActorAttempt(s, a));
    }
  }

  lemma NewHasAttempts(s: System, a: Action, i: nat)
    requires Enabled(s, a) && |s.table| <= i < |Next(s, a).table|
    ensures HasAttempts(Next(s, a).table[i], Past(None, 0, None, false))
  {
  }

  /**
   In every run without twins a pending task that was never taken back as stale has attempts left: retrying never parks
   a task that cannot be claimed.
   */
  lemma {:induction false} PendingHasAttempts(states: seq<System>, actions: seq<Action>, k: nat, i: nat)
    requires IsRun(states, actions) && NoTwins(states, actions) && k < |states| && i < |states[k].table|
    ensures states[k].table[i].status == Pending && !Pasts(states, actions, k)[i].released ==>
              states[k].table[i].attempt < states[k].table[i].maxAttempts
    decreases k
  {
    hide Next, Enabled, PastAfter, AllSpaced, LimitsCopied;
    if k > 0 {
      var s, a := states[k - 1], actions[k - 1];
      if i < |s.table| {
        PendingHasAttempts(states, actions, k - 1, i);
        RunsAreSpaced(states, actions, k - 1);
        LimitsAlwaysCopied(states, actions, k - 1);
        HasAttemptsStep(s, a, Pasts(states, actions, k - 1), i);
      } else {
        NewHasAttempts(s, a, i);
      }
    }
  }

  // ---- what an execution has been through ----

  /** The execution's step number `j` left `pc` with this outcome. */
  ghost predicate Passed(states: seq<System>, actions: seq<Action>, x: nat, j: nat, pc: Pc, outcome: Outcome) {
    && j < |actions| < |states| && actions[j] == Advance(x, outcome)
    && x < |states[j].execs| && states[j].execs[x].pc == pc
  }

  ghost predicate PassedBefore(states: seq<System>, actions: seq<Action>, x: nat, k: nat, pc: Pc, outcome: Outcome) {
    exists j :: 0 <= j < k && Passed(states, actions, x, j, pc, outcome)
  }

  /** The steps that an execution must have passed without trouble to be where it is. */
  function Milestones(pc: Pc): seq<Pc> {
    match pc
    case Begin => []
    case FirstCheck => [Begin]
    case MarkCheck(Mark5) => [Begin]
    case MarkWrite(Mark5) => [Begin]
    case Dispatch => [Begin, MarkWrite(Mark5)]
    case MarkCheck(Mark30) => [Begin, MarkWrite(Mark5), Dispatch]
    case MarkWrite(Mark30) => [Begin, MarkWrite(Mark5), Dispatch]
    case Operate => [Begin, MarkWrite(Mark5), Dispatch, MarkWrite(Mark30)]
    case MarkCheck(Mark85) => [Begin, MarkWrite(Mark5), Dispatch, MarkWrite(Mark30), Operate]
    case MarkWrite(Mark85) => [Begin, MarkWrite(Mark5), Dispatch, MarkWrite(Mark30), Operate]
    case LastCheck => [Begin, MarkWrite(Mark5), Dispatch, MarkWrite(Mark30), Operate, MarkWrite(Mark85)]
    case CompleteWrite => [Begin, MarkWrite(Mark5), Dispatch, MarkWrite(Mark30), Operate, MarkWrite(Mark85)]
    case _ => []
  }

  /** The trouble that makes an execution fail, and whether it may be tried again. */
  predicate Troubles(pc: Pc, canceled: bool, outcome: Outcome, retryable: bool) {
    match pc
    case Begin => outcome.Trouble? && !retryable
    case Dispatch => outcome.Trouble? && !retryable
    case Operate => outcome.Trouble? && retryable == outcome.retryable
    case MarkCheck(m) => m != Mark5 && canceled && outcome.Fine? && retryable
    case MarkWrite(m) => m != Mark5 && outcome.Trouble? && retryable
    case _ => false
  }

  ghost predicate TroubledBefore(states: seq<System>, actions: seq<Action>, x: nat, k: nat, retryable: bool) {
    exists j :: 0 <= j < k && TroubledAt(states, actions, x, j, retryable)
  }

  ghost predicate TroubledAt(states: seq<System>, actions: seq<Action>, x: nat, j: nat, retryable: bool) {
    && j < |actions| < |states| && actions[j].Advance? && actions[j].exec == x && x < |states[j].execs|
    && Troubles(states[j].execs[x].pc, IsCanceled(states[j], states[j].execs[x].task), actions[j].outcome, retryable)
  }

  ghost predicate Told(states: seq<System>, actions: seq<Action>, k: nat, x: nat)
    requires k < |states| && x < |states[k].execs|
  {
    var pc := states[k].execs[x].pc;
    && (forall m :: m in Milestones(pc) ==> PassedBefore(states, actions, x, k, m, Fine))
    && (pc.FailCheck? || pc.FailWrite? ==> TroubledBefore(states, actions, x, k, pc.retryable))
  }

  /** One step of the execution itself: what is behind it grows by the step just made. */
  lemma StoryStep(e: Exec, canceled: bool, outcome: Outcome)
    ensures var pc' := NextPc(e, canceled, outcome);
            && (forall m :: m in Milestones(pc') ==> m in Milestones(e.pc) || (m == e.pc && outcome.Fine?))
            && (pc'.FailCheck? || pc'.FailWrite? ==>
                  Troubles(e.pc, canceled, outcome, pc'.retryable)
                  || ((e.pc.FailCheck? || e.pc.FailWrite?) && e.pc.retryable == pc'.retryable))
  {
  }

  lemma ExecAfter(s: System, a: Action, x: nat)
    requires Enabled(s, a) && x < |Next(s, a).execs|
    ensures x >= |s.execs| ==> Next(s, a).execs[x].pc == Begin
    ensures x < |s.execs| && a.Advance? && a.exec == x ==>
              Next(s, a).execs[x].pc == NextPc(s.execs[x], IsCanceled(s, s.execs[x].task), a.outcome)
    ensures x < |s.execs| && !(a.Advance? && a.exec == x) ==>
              Next(s, a).execs[x].pc == s.execs[x].pc || Next(s, a).execs[x].pc == Done
  {
    hide NextPc;
  }

  lemma LongerPast(states: seq<System>, actions: seq<Action>, x: nat, k: nat, pc: Pc)
    requires PassedBefore(states, actions, x, k, pc, Fine)
    ensures PassedBefore(states, actions, x, k + 1, pc, Fine)
  {
    hide Passed;
  }

  lemma LongerTrouble(states: seq<System>, actions: seq<Action>, x: nat, k: nat, retryable: bool)
    requires TroubledBefore(states, actions, x, k, retryable)
    ensures TroubledBefore(states, actions, x, k + 1, retryable)
  {
    hide TroubledAt;
  }

  lemma ToldStep(states: seq<System>, actions: seq<Action>, k: nat, x: nat)
    requires IsRun(states, actions) && k < |actions| && x < |states[k].execs| && Told(states, actions, k, x)
    requires x < |states[k + 1].execs|
    ensures Told(states, actions, k + 1, x)
  {
    hide Next, Enabled, NextPc, Milestones, Troubles, IsCanceled;
    var s, a := states[k], actions[k];
    var pc, pc' := s.execs[x].pc, states[k + 1].execs[x].pc;
    ExecAfter(s, a, x);
    NothingAfterDone();
    if a.Advance? && a.exec == x { StoryStep(s.execs[x], IsCanceled(s, s.execs[x].task), a.outcome); }
    forall m | m in Milestones(pc') ensures PassedBefore(states, actions, x, k + 1, m, Fine) {
      if m in Milestones(pc) {
        LongerPast(states, actions, x, k, m);
      } else {
        assert Passed(states, actions, x, k, m, Fine);
      }
    }
    if pc'.FailCheck? || pc'.FailWrite? {
      if (pc.FailCheck? || pc.FailWrite?) && pc.retryable == pc'.retryable {
        LongerTrouble(states, actions, x, k, pc.retryable);
      } else {
        assert TroubledAt(states, actions, x, k, pc'.retryable);
      }
    }
  }

  lemma NothingAfterDone()
    ensures Milestones(Done) == [] && Milestones(Begin) == []
  {
  }

  lemma {:induction false} AlwaysTold(states: seq<System>, actions: seq<Action>, k: nat, x: nat)
    requires IsRun(states, actions) && k < |states| && x < |states[k].execs|
    ensures Told(states, actions, k, x)
    decreases k
  {
    hide Next, Enabled, Told;
    if k > 0 {
      if x < |states[k - 1].execs| {
        AlwaysTold(states, actions, k - 1, x);
        ToldStep(states, actions, k - 1, x);
      } else {
        ExecAfter(states[k - 1], actions[k - 1], x);
        NewTold(states, actions, k, x);
      }
    }
  }

  lemma NewTold(states: seq<System>, actions: seq<Action>, k: nat, x: nat)
    requires k < |states| && x < |states[k].execs| && states[k].execs[x].pc == Begin
    ensures Told(states, actions, k, x)
  {
    NothingAfterDone();
  }

  lemma SettlingSteps(s: System, a: Action)
    requires Enabled(s, a) && OpOf(s, a).Some?
    ensures OpOf(s, a).value.Complete? ==> a.Advance? && s.execs[a.exec].pc == CompleteWrite
    ensures OpOf(s, a).value.Fail? ==> a.Advance? && s.execs[a.exec].pc.FailWrite?
    ensures OpOf(s, a).value.Complete? || OpOf(s, a).value.Fail? ==>
              OpOf(s, a).value.id == s.execs[a.exec].task && OpOf(s, a).value.worker == s.execs[a.exec].worker
  {
  }

  /**
   In every run, whoever completes a task has written all three progress marks and has seen the operation itself
   succeed.
   */
  lemma CompletionFollowsSuccess(states: seq<System>, actions: seq<Action>, k: nat)
    requires IsRun(states, actions) && k < |actions| && OpOf(states[k], actions[k]).Some?
    requires OpOf(states[k], actions[k]).value.Complete?
    ensures actions[k].Advance?
    ensures var x := actions[k].exec;
            && PassedBefore(states, actions, x, k, MarkWrite(Mark5), Fine)
            && PassedBefore(states, actions, x, k, MarkWrite(Mark30), Fine)
            && PassedBefore(states, actions, x, k, Operate, Fine)
            && PassedBefore(states, actions, x, k, MarkWrite(Mark85), Fine)
  {
    hide PassedBefore, TroubledBefore;
    SettlingSteps(states[k], actions[k]);
    AlwaysTold(states, actions, k, actions[k].exec);
  }

  /**
   In every run, whoever records a failure has met trouble before: an unreadable payload, an unknown operation or a
   failed one, a cancellation seen or a progress write lost in mid-run; and the failure is of the kind that the trouble
   was.
   */
  lemma FailureFollowsTrouble(states: seq<System>, actions: seq<Action>, k: nat)
    requires IsRun(states, actions) && k < |actions| && OpOf(states[k], actions[k]).Some?
    requires OpOf(states[k], actions[k]).value.Fail?
    ensures actions[k].Advance? && actions[k].exec < |states[k].execs| && states[k].execs[actions[k].exec].pc.FailWrite?
    ensures TroubledBefore(states, actions, actions[k].exec, k, states[k].execs[actions[k].exec].pc.retryable)
  {
    hide PassedBefore, TroubledBefore;
    SettlingSteps(states[k], actions[k]);
    AlwaysTold(states, actions, k, actions[k].exec);
  }

  /**
   A check that sees the task canceled ends the execution there, or in mid-run makes it fail; the failure's own check
   then ends it. It writes nothing.
   */
  lemma CancellationStops(s: System, a: Action)
    requires Enabled(s, a) && a.Advance? && a.outcome.Fine? && s.execs[a.exec].task < |s.table|
    requires s.table[s.execs[a.exec].task].status == Canceled
    requires var pc := s.execs[a.exec].pc; pc.FirstCheck? || pc.MarkCheck? || pc.LastCheck? || pc.FailCheck?
    ensures Next(s, a).table == s.table
    ensures var pc := s.execs[a.exec].pc;
            Next(s, a).execs[a.exec].pc
            == if pc == MarkCheck(Mark30) || pc == MarkCheck(Mark85) then FailCheck(true) else Done
  {
  }

  /** The progress marks are 5, 30 and 85, and each sets the task running. */
  lemma MarksShowProgress(s: System, a: Action)
    requires Enabled(s, a) && a.Advance? && a.outcome.Fine? && s.execs[a.exec].pc.MarkWrite?
    requires s.execs[a.exec].task < |s.table|
    ensures var i := s.execs[a.exec].task;
            && Next(s, a).table[i].status == Running
            && Next(s, a).table[i].progress == (match s.execs[a.exec].pc.mark
                                                case Mark5 => 5
                                                case Mark30 => 30
                                                case Mark85 => 85)
  {
  }
}
