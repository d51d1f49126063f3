/** What a user of the shared limiter meets while the server answers: when the script locks, and what a lock refuses. */
module RedisLockout {
  import opened Wrappers
  import opened LoginLimiter
  import opened RedisLimiter
  import opened RedisMirror
  import opened RedisLimits

  lemma WholeLeft(x: int)
    ensures var left := x / MILLISECOND * MILLISECOND;
            x - MILLISECOND < left <= x && left % MILLISECOND == 0 && (left > 0 <==> x >= MILLISECOND)
  {
  }

  lemma ToldLeft(left: int, now: Time)
    ensures Announces(RetryAfter(now + left, now), left)
  {
    hide RetryAfter;
  }

  /** The answer, told from the lock's lifetime: refused while a whole millisecond of it is left. */
  lemma AnswerTellsLifetime(c: Cells, now: Time)
    ensures var answer := ServerAnswer(c, now);
            && (answer.Some? <==> c.lock.Some? && c.lock.value - now >= MILLISECOND)
            && (answer.Some? ==>
                  exists left :: c.lock.value - now - MILLISECOND < left <= c.lock.value - now
                                 && left % MILLISECOND == 0 && Announces(answer.value, left))
  {
    hide RetryAfter, Announces;
    if c.lock.Some? {
      WholeLeft(c.lock.value - now);
      ToldLeft((c.lock.value - now) / MILLISECOND * MILLISECOND, now);
    }
  }

  // ---- the window fills ----

  ghost predicate DeliveredFailures(calls: seq<Call>) {
    forall i :: 0 <= i < |calls| ==> calls[i].Failed? && calls[i].delivered
  }

  /** Within the script's window of the first failure, the failures of a key add up. */
  lemma {:induction false} WindowCounts(l: Limits, calls: seq<Call>)
    requires Sensible(l) && DeliveredFailures(calls) && 0 < |calls| < l.maxFailures
    requires forall i :: 0 <= i < |calls| ==> calls[0].at <= calls[i].at < calls[0].at + WholeMillis(l.failureWindow)
    ensures CellsAfter(l, calls) == Cells(None, Some(Counter(|calls|, calls[0].at + WholeMillis(l.failureWindow))))
    decreases |calls|
  {
    hide CellsAfter, WholeMillis;
    var front, last := calls[..|calls| - 1], calls[|calls| - 1];
    assert calls == front + [last];
    CellsSnoc(l, front, last);
    NoCells(l);
    if |calls| > 1 { WindowCounts(l, front); }
  }

  /** The failure that fills the window makes the script lock, and no earlier one does. */
  lemma WindowFills(l: Limits, calls: seq<Call>)
    requires Sensible(l) && DeliveredFailures(calls) && 0 < |calls| <= l.maxFailures && WholeMillis(l.lockDuration) > 0
    requires forall i :: 0 <= i < |calls| ==> calls[0].at <= calls[i].at < calls[0].at + WholeMillis(l.failureWindow)
    ensures ScriptLocks(l, calls, |calls| - 1) <==> |calls| == l.maxFailures
  {
    hide CellsAfter, WholeMillis;
    var front := calls[..|calls| - 1];
    NoCells(l);
    if |calls| > 1 { WindowCounts(l, front); }
  }

  // ---- the lock holds ----

  /** After call `n` no success reaches the server, and no failure does once the lock has run out. */
  predicate Undisturbed(l: Limits, calls: seq<Call>, n: nat)
    requires n < |calls| && Sensible(l)
  {
    forall i :: n < i < |calls| && calls[i].delivered ==>
      !calls[i].Succeeded? && (calls[i].Failed? ==> calls[i].at < calls[n].at + WholeMillis(l.lockDuration))
  }

  lemma {:induction false} LockKept(l: Limits, calls: seq<Call>, n: nat)
    requires Sensible(l) && n < |calls| && ScriptLocks(l, calls, n) && Undisturbed(l, calls, n)
    ensures CellsAfter(l, calls).lock == Some(calls[n].at + WholeMillis(l.lockDuration))
    decreases |calls|
  {
    hide CellsAfter, WholeMillis;
    var front, last := calls[..|calls| - 1], calls[|calls| - 1];
    assert calls == front + [last];
    CellsSnoc(l, front, last);
    if n < |front| {
      assert front[..n] == calls[..n];
      LockKept(l, front, n);
    }
  }

  /**
   After the script has set a lock, a question that the server answers is refused until a millisecond before the end of
   the lock's lifetime, and let through from then on, as long as no success reaches the server and no failure does after
   the lock has run out.
   */
  lemma LockedOut(l: Limits, calls: seq<Call>, n: nat, now: Time)
    requires Sensible(l) && n < |calls| && ScriptLocks(l, calls, n) && Undisturbed(l, calls, n)
    ensures ServerAnswer(CellsAfter(l, calls), now).Some?
            <==> now + MILLISECOND <= calls[n].at + WholeMillis(l.lockDuration)
  {
    hide CellsAfter, WholeMillis, ServerAnswer;
    LockKept(l, calls, n);
    AnswerTellsLifetime(CellsAfter(l, calls), now);
  }

  /** So within the lifetime, less a millisecond, only a delivered success lets a question through. */
  lemma OnlySuccessUnlocks(l: Limits, calls: seq<Call>, n: nat, now: Time)
    requires Sensible(l) && InOrder(calls) && n < |calls| && ScriptLocks(l, calls, n)
    requires forall i :: 0 <= i < |calls| ==> calls[i].at <= now
    requires now + MILLISECOND <= calls[n].at + WholeMillis(l.lockDuration)
    requires ServerAnswer(CellsAfter(l, calls), now) == None
    ensures exists i :: n < i < |calls| && calls[i].Succeeded? && calls[i].delivered
  {
    hide CellsAfter, WholeMillis, ServerAnswer;
    if Undisturbed(l, calls, n) { LockedOut(l, calls, n, now); }
  }

  /** A delivered success unlocks at once. */
  lemma SuccessUnlocks(l: Limits, calls: seq<Call>, at: Time, now: Time)
    requires Sensible(l)
    ensures ServerAnswer(CellsAfter(l, calls + [Succeeded(at, true)]), now) == None
  {
    CellsSnoc(l, calls, Succeeded(at, true));
  }
}
