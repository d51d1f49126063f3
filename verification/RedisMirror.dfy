/**
 The two limiters side by side, for one key. Every failure is counted in memory and, when delivered, by the script;
 the clock is shared and does not go back.
 */
module RedisMirror {
  import opened Wrappers
  import opened LoginLimiter
  import opened LoginHistory
  import opened RedisLimiter

  /** A call on a key, and whether the server was reached. */
  datatype Call =
    | Asked(at: Time, delivered: bool)
    | Failed(at: Time, delivered: bool)
    | Succeeded(at: Time, delivered: bool)

  function CellsStep(c: Cells, l: Limits, call: Call): Cells
    requires Sensible(l)
  {
    match call
    case Asked(_, _) => c
    case Failed(at, delivered) => if delivered then ScriptStep(c, l, at) else c
    case Succeeded(_, delivered) => if delivered then EMPTY else c
  }

  /** The server's cells after `calls`. */
  function CellsAfter(l: Limits, calls: seq<Call>): Cells
    requires Sensible(l)
    decreases |calls|
  {
    if calls == [] then EMPTY else CellsStep(CellsAfter(l, calls[..|calls| - 1]), l, calls[|calls| - 1])
  }

  /** The events the in-memory limiter sees: a question only when the server did not answer. */
  function MemoryEvent(call: Call): seq<Event> {
    match call
    case Asked(at, delivered) => if delivered then [] else [Ask(at)]
    case Failed(at, _) => [Fail(at)]
    case Succeeded(at, _) => [Succeed(at)]
  }

  function MemoryEvents(calls: seq<Call>): seq<Event>
    decreases |calls|
  {
    if calls == [] then [] else MemoryEvents(calls[..|calls| - 1]) + MemoryEvent(calls[|calls| - 1])
  }

  /** The in-memory entry after `calls`. */
  function EntryAt(l: Limits, calls: seq<Call>): Option<Entry> { EntryAfter(l, MemoryEvents(calls)) }

  function RecordAt(l: Limits, calls: seq<Call>): Record { RecordAfter(l, MemoryEvents(calls)) }

  ghost predicate InOrder(calls: seq<Call>) {
    forall i, j :: 0 <= i < j < |calls| ==> calls[i].at <= calls[j].at
  }

  /** When the window that counts a failure at `now` was opened. */
  function WindowStart(c: Cells, l: Limits, now: Time): Time
    requires Sensible(l)
  {
    Incremented(c, l, now).expires - WholeMillis(l.failureWindow)
  }

  /** No success from `start` on is lost on its way to the server. */
  predicate DeliveredSince(calls: seq<Call>, start: Time) {
    forall i :: 0 <= i < |calls| && calls[i].Succeeded? && calls[i].at >= start ==> calls[i].delivered
  }

  /** No success has been lost in the window that counts the failure at `now`, if that window is open already. */
  predicate WindowUndisturbed(l: Limits, calls: seq<Call>, now: Time)
    requires Sensible(l)
  {
    var c := CellsAfter(l, calls);
    HasCounter(c, now) ==> DeliveredSince(calls, WindowStart(c, l, now))
  }

  /** The call is a failure on which the in-memory limiter locks the key. */
  ghost predicate MemoryLocks(l: Limits, calls: seq<Call>, i: nat)
    requires i < |calls|
  {
    && calls[i].Failed?
    && EntryAt(l, calls[..i + 1]) == Some(Entry([], Some(calls[i].at + l.lockDuration)))
  }

  // ---- one call more ----

  lemma {:induction false} EventsInOrder(calls: seq<Call>, now: Time)
    requires InOrder(calls) && (forall i :: 0 <= i < |calls| ==> calls[i].at <= now)
    ensures Ordered(MemoryEvents(calls))
    ensures forall i :: 0 <= i < |MemoryEvents(calls)| ==> MemoryEvents(calls)[i].at <= now
    decreases |calls|
  {
    if calls != [] {
      EventsInOrder(calls[..|calls| - 1], calls[|calls| - 1].at);
    }
  }

  lemma RecordAtSnoc(l: Limits, calls: seq<Call>)
    requires calls != []
    ensures var front, last := calls[..|calls| - 1], calls[|calls| - 1];
            RecordAt(l, calls) == match last
                                  case Asked(_, _) => RecordAt(l, front)
                                  case Failed(at, _) => RecordStep(RecordAt(l, front), l, Fail(at))
                                  case Succeeded(at, _) => CLEAN
  {
    hide RecordAfter, Locks, MemoryEvents;
    var front, last := calls[..|calls| - 1], calls[|calls| - 1];
    EventsSnoc(calls);
    match last
    case Asked(at, delivered) =>
      if delivered {
        assert MemoryEvents(front) + [] == MemoryEvents(front);
      } else {
        RecordSnoc(l, MemoryEvents(front), Ask(at));
      }
    case Failed(at, _) => RecordSnoc(l, MemoryEvents(front), Fail(at));
    case Succeeded(at, _) => RecordSnoc(l, MemoryEvents(front), Succeed(at));
  }

  lemma EventsSnoc(calls: seq<Call>)
    requires calls != []
    ensures MemoryEvents(calls) == MemoryEvents(calls[..|calls| - 1]) + MemoryEvent(calls[|calls| - 1])
  {
  }

  // ---- the invariant ----

  /** The window of a counter was opened by now. */
  predicate Opened(c: Cells, l: Limits, now: Time)
    requires Sensible(l)
  {
    c.counter.Some? ==> OpenedAt(c, l) <= now && c.counter.value.count >= 1
  }

  function OpenedAt(c: Cells, l: Limits): Time
    requires Sensible(l) && c.counter.Some?
  {
    c.counter.value.expires - WholeMillis(l.failureWindow)
  }

  /** Since then the in-memory limiter has seen every counted failure, or it has locked and the lock is on record. */
  predicate Covered(c: Cells, r: Record, l: Limits)
    requires Sensible(l)
  {
    c.counter.Some? ==>
      LockedSince(r, l, OpenedAt(c, l)) || CountAfter(r.failures, OpenedAt(c, l) - 1) >= c.counter.value.count
  }

  predicate LockedSince(r: Record, l: Limits, start: Time) {
    r.lockedUntil.Some? && r.lockedUntil.value - l.lockDuration >= start
  }

  lemma FailureCounted(r: Record, l: Limits, at: Time, start: Time)
    requires start <= at
    ensures var r' := RecordStep(r, l, Fail(at));
            if Locks(r, l, at) || LockedSince(r, l, start) then LockedSince(r', l, start)
            else CountAfter(r'.failures, start - 1) == CountAfter(r.failures, start - 1) + 1
  {
    hide Locks, CountAfter;
    CountSnoc(r.failures, at, start - 1);
  }

  /**
   The counter that a failure leaves behind, or would have left behind without the lock. In a window that this failure
   opens nothing that happened before matters.
   */
  lemma FailureCovered(c: Cells, r: Record, l: Limits, at: Time)
    requires Sensible(l) && Opened(c, l, at) && (HasCounter(c, at) ==> Covered(c, r, l))
    ensures var c' := Cells(None, Some(Incremented(c, l, at)));
            Opened(c', l, at) && Covered(c', RecordStep(r, l, Fail(at)), l)
  {
    hide RecordStep, CountAfter, Locks, LockedSince;
    FailureCounted(r, l, at, WindowStart(c, l, at));
  }

  lemma StillCovered(c: Cells, r: Record, l: Limits, at: Time)
    requires Sensible(l) && Opened(c, l, at) && Covered(c, r, l)
    ensures Covered(c, RecordStep(r, l, Fail(at)), l)
  {
    hide RecordStep, CountAfter, Locks, LockedSince;
    if c.counter.Some? { FailureCounted(r, l, at, OpenedAt(c, l)); }
  }

  lemma DeliveredPrefix(calls: seq<Call>, start: Time)
    requires calls != [] && DeliveredSince(calls, start)
    ensures DeliveredSince(calls[..|calls| - 1], start)
    ensures var last := calls[|calls| - 1]; last.Succeeded? && last.at >= start ==> last.delivered
  {
  }

  /** After any calls in order: as long as no success of the counter's own window is lost, the counter is covered. */
  lemma {:induction false} AlwaysCovered(l: Limits, calls: seq<Call>, now: Time)
    requires Sensible(l) && InOrder(calls) && (forall i :: 0 <= i < |calls| ==> calls[i].at <= now)
    ensures var c := CellsAfter(l, calls);
            Opened(c, l, now)
            && (c.counter.Some? && DeliveredSince(calls, OpenedAt(c, l)) ==> Covered(c, RecordAt(l, calls), l))
    decreases |calls|
  {
    hide RecordStep, CountAfter, LockedSince, RecordAt, Covered, DeliveredSince;
    if calls != [] {
      var front, last := calls[..|calls| - 1], calls[|calls| - 1];
      AlwaysCovered(l, front, last.at);
      RecordAtSnoc(l, calls);
      var before, after := CellsAfter(l, front), CellsAfter(l, calls);
      var r := RecordAt(l, front);
      if after.counter.Some? && DeliveredSince(calls, OpenedAt(after, l)) {
        DeliveredPrefix(calls, OpenedAt(after, l));
        if last.Failed? {
          FailureCovered(before, r, l, last.at);
          if before == after { StillCovered(before, r, l, last.at); }
        }
      } else if last.Failed? && last.delivered {
        IncrementedOpened(before, l, last.at);
      }
    } else {
      assert CellsAfter(l, calls) == EMPTY;
    }
  }

  lemma IncrementedOpened(c: Cells, l: Limits, at: Time)
    requires Sensible(l) && Opened(c, l, at)
    ensures Opened(Cells(None, Some(Incremented(c, l, at))), l, at)
  {
  }

  /** A window that is full for the script is full in memory too, or has led to a lock already. */
  lemma FullWindowLocks(c: Cells, r: Record, l: Limits, at: Time)
    requires Sensible(l) && Opened(c, l, at) && (HasCounter(c, at) ==> Covered(c, r, l)) && SetsLock(c, l, at)
    ensures LockedSince(RecordStep(r, l, Fail(at)), l, WindowStart(c, l, at))
    ensures WindowStart(c, l, at) <= at < WindowStart(c, l, at) + WholeMillis(l.failureWindow)
            || l.maxFailures == 1
  {
    hide RecordStep, CountAfter, Locks, LockedSince;
    var start := WindowStart(c, l, at);
    FailureCounted(r, l, at, start);
    if !LockedSince(r, l, start) && !Locks(r, l, at) {
      CountSnoc(r.failures, at, start - 1);
      UnlockedCount(r, l, at);
      CountMonotone(r.failures + [at], at - l.failureWindow, start - 1);
    }
  }

  // ---- where a lock comes from ----

  lemma EntryLocks(l: Limits, calls: seq<Call>)
    requires Sensible(l) && InOrder(calls) && calls != [] && calls[|calls| - 1].Failed?
    requires Locks(RecordAt(l, calls[..|calls| - 1]), l, calls[|calls| - 1].at)
    ensures MemoryLocks(l, calls, |calls| - 1)
  {
    hide EntryAfter, RecordAfter, Locks, Agree, MemoryEvents, FailureEntry;
    var front, at := calls[..|calls| - 1], calls[|calls| - 1].at;
    EventsInOrder(front, at);
    HistoryAgrees(l, MemoryEvents(front), at);
    FailureLocks(EntryAt(l, front), RecordAt(l, front), l, at);
    EventsSnoc(calls);
    EntrySnoc(l, MemoryEvents(front), Fail(at));
    assert calls[..|calls|] == calls;
  }

  lemma FailureLocks(e: Option<Entry>, r: Record, l: Limits, at: Time)
    requires Sensible(l) && Agree(e, r, l, at) && Locks(r, l, at)
    ensures FailureEntry(e, l, at) == Entry([], Some(at + l.lockDuration))
  {
    hide Agree, Recent, Locks;
    if e.None? { AgreeFresh(r, l, at); }
    var start := if e.Some? then e.value else FRESH;
    AgreePruned(start, r, l, at);
    RecentTwice(start.failures, at - l.failureWindow, at - l.failureWindow);
    AgreeAppend(Pruned(start, l, at), r, l, at);
  }

  /** A lock on record was set by a failure, in memory too. */
  lemma {:induction false} LockHasOrigin(l: Limits, calls: seq<Call>) returns (i: nat)
    requires Sensible(l) && InOrder(calls) && RecordAt(l, calls).lockedUntil.Some?
    ensures i < |calls| && MemoryLocks(l, calls, i)
    ensures calls[i].at + l.lockDuration == RecordAt(l, calls).lockedUntil.value
    decreases |calls|
  {
    hide Locks, EntryAt, RecordAt;
    i := 0;
    NothingLocked(l);
    if calls != [] {
      var front, last := calls[..|calls| - 1], calls[|calls| - 1];
      RecordAtSnoc(l, calls);
      if last.Failed? && Locks(RecordAt(l, front), l, last.at) {
        i := |front|;
        EntryLocks(l, calls);
      } else {
        i := LockHasOrigin(l, front);
        assert front[..i + 1] == calls[..i + 1];
      }
    }
  }

  lemma NothingLocked(l: Limits)
    ensures RecordAt(l, []) == CLEAN
  {
  }

  // ---- the results ----

  ghost predicate ScriptLocks(l: Limits, calls: seq<Call>, n: nat)
    requires Sensible(l) && n < |calls|
  {
    calls[n].Failed? && calls[n].delivered && SetsLock(CellsAfter(l, calls[..n]), l, calls[n].at)
  }

  lemma RecordLockedSince(l: Limits, calls: seq<Call>, n: nat)
    requires Sensible(l) && InOrder(calls) && n < |calls| && ScriptLocks(l, calls, n)
    requires WindowUndisturbed(l, calls[..n], calls[n].at)
    ensures LockedSince(RecordAt(l, calls[..n + 1]), l, WindowStart(CellsAfter(l, calls[..n]), l, calls[n].at))
    ensures var start := WindowStart(CellsAfter(l, calls[..n]), l, calls[n].at);
            start <= calls[n].at < start + WholeMillis(l.failureWindow) || l.maxFailures == 1
    ensures l.maxFailures == 1 ==> RecordAt(l, calls[..n + 1]).lockedUntil == Some(calls[n].at + l.lockDuration)
  {
    hide RecordAt, CountAfter, LockedSince, CellsAfter, Covered, DeliveredSince;
    var front, at := calls[..n], calls[n].at;
    AlwaysCovered(l, front, at);
    FullWindowLocks(CellsAfter(l, front), RecordAt(l, front), l, at);
    assert calls[..n + 1][..n] == front;
    RecordAtSnoc(l, calls[..n + 1]);
    if l.maxFailures == 1 { OneFailureLocks(RecordAt(l, front), l, at); }
  }

  lemma OneFailureLocks(r: Record, l: Limits, at: Time)
    requires Sensible(l) && l.maxFailures == 1
    ensures Locks(r, l, at)
  {
    CountSnoc(r.failures, at, at - l.failureWindow);
  }

  /**
   Whenever the script sets a lock in a window of which no success was lost, the in-memory limiter has set one too, on a
   failure no earlier than the start of the window that the script counted and no later than the failure that filled it.
   */
  lemma RedisLockIsMirrored(l: Limits, calls: seq<Call>, n: nat) returns (i: nat)
    requires Sensible(l) && InOrder(calls) && n < |calls| && ScriptLocks(l, calls, n)
    requires WindowUndisturbed(l, calls[..n], calls[n].at)
    ensures i <= n && MemoryLocks(l, calls, i)
    ensures WindowStart(CellsAfter(l, calls[..n]), l, calls[n].at) <= calls[i].at <= calls[n].at
  {
    hide RecordAt, EntryAt, CellsAfter;
    RecordLockedSince(l, calls, n);
    i := LockHasOrigin(l, calls[..n + 1]);
    assert calls[..n + 1][..i + 1] == calls[..i + 1];
  }

  /** With a lock at least as long as the script's window, the fallback refuses at the very moment the script locks. */
  lemma FallbackRefusesToo(l: Limits, calls: seq<Call>, n: nat)
    requires Sensible(l) && InOrder(calls) && n < |calls| && ScriptLocks(l, calls, n)
    requires WindowUndisturbed(l, calls[..n], calls[n].at)
    requires l.lockDuration >= WholeMillis(l.failureWindow) || l.maxFailures == 1
    ensures AllowAnswer(EntryAt(l, calls[..n + 1]), calls[n].at).Some?
  {
    hide RecordAfter, EntryAfter, MemoryEvents, CellsAfter, RetryAfter;
    RecordLockedSince(l, calls, n);
    EventsInOrder(calls[..n + 1], calls[n].at);
    LimiterRefinesHistory(l, MemoryEvents(calls[..n + 1]), calls[n].at);
  }
}
