/** How far the mirroring of the two limiters goes: exact conditions on the configured limits. */
module RedisLimits {
  import opened Wrappers
  import opened LoginLimiter
  import opened LoginHistory
  import opened RedisLimiter
  import opened RedisMirror

  // ---- runs of equal calls ----

  /** `calls`, and then the same call `n` times. */
  function Again(calls: seq<Call>, call: Call, n: nat): seq<Call> {
    if n == 0 then calls else Again(calls, call, n - 1) + [call]
  }

  lemma {:induction false} AgainShape(calls: seq<Call>, call: Call, n: nat, k: nat)
    requires k <= n
    ensures |Again(calls, call, n)| == |calls| + n && Again(calls, call, n)[..|calls| + k] == Again(calls, call, k)
    ensures forall i :: |calls| <= i < |calls| + n ==> Again(calls, call, n)[i] == call
    ensures forall i :: 0 <= i < |calls| ==> Again(calls, call, n)[i] == calls[i]
    decreases n
  {
    if n > 0 { AgainShape(calls, call, n - 1, if k < n then k else n - 1); }
  }

  lemma AgainInOrder(calls: seq<Call>, call: Call, n: nat)
    requires InOrder(calls) && forall i :: 0 <= i < |calls| ==> calls[i].at <= call.at
    ensures InOrder(Again(calls, call, n)) && |Again(calls, call, n)| == |calls| + n
    ensures forall i :: 0 <= i < |calls| + n ==> Again(calls, call, n)[i].at <= call.at
  {
    AgainShape(calls, call, n, n);
  }

  lemma AgainNext(calls: seq<Call>, call: Call, n: nat)
    ensures Again(calls, call, 0) == calls && (n > 0 ==> Again(calls, call, n) == Again(calls, call, n - 1) + [call])
  {
  }

  // ---- on the server ----

  lemma CellsSnoc(l: Limits, calls: seq<Call>, call: Call)
    requires Sensible(l)
    ensures CellsAfter(l, calls + [call]) == CellsStep(CellsAfter(l, calls), l, call)
  {
    assert (calls + [call])[..|calls|] == calls;
  }

  lemma NoCells(l: Limits)
    requires Sensible(l)
    ensures CellsAfter(l, []) == EMPTY
  {
  }

  /** A key that has not failed before, after `n` delivered failures at one time. */
  lemma {:induction false} ServerCounts(l: Limits, at: Time, n: nat)
    requires Sensible(l) && n < l.maxFailures && WholeMillis(l.failureWindow) > 0
    ensures CellsAfter(l, Again([], Failed(at, true), n))
            == if n == 0 then EMPTY else Cells(None, Some(Counter(n, at + WholeMillis(l.failureWindow))))
    decreases n
  {
    hide CellsAfter, WholeMillis, Again;
    NoCells(l);
    AgainNext([], Failed(at, true), n);
    if n > 0 {
      ServerCounts(l, at, n - 1);
      CellsSnoc(l, Again([], Failed(at, true), n - 1), Failed(at, true));
    }
  }

  /** Without a window the failures do not add up. */
  lemma {:induction false} ServerForgets(l: Limits, at: Time, n: nat)
    requires Sensible(l) && l.maxFailures >= 2 && WholeMillis(l.failureWindow) == 0
    ensures var c := CellsAfter(l, Again([], Failed(at, true), n)); c.lock == None && !HasCounter(c, at)
    decreases n
  {
    hide CellsAfter, WholeMillis, Again;
    NoCells(l);
    AgainNext([], Failed(at, true), n);
    if n > 0 {
      ServerForgets(l, at, n - 1);
      CellsSnoc(l, Again([], Failed(at, true), n - 1), Failed(at, true));
    }
  }

  /** While a lock is in force the script ignores failures. */
  lemma {:induction false} ServerIgnores(l: Limits, calls: seq<Call>, at: Time, n: nat)
    requires Sensible(l) && HasLock(CellsAfter(l, calls), at)
    ensures CellsAfter(l, Again(calls, Failed(at, true), n)) == CellsAfter(l, calls)
    decreases n
  {
    hide CellsAfter, Again;
    AgainNext(calls, Failed(at, true), n);
    if n > 0 {
      ServerIgnores(l, calls, at, n - 1);
      CellsSnoc(l, Again(calls, Failed(at, true), n - 1), Failed(at, true));
    }
  }

  /** A lock shorter than a millisecond is never set. */
  lemma {:induction false} NeverLocked(l: Limits, calls: seq<Call>)
    requires Sensible(l) && WholeMillis(l.lockDuration) == 0
    ensures CellsAfter(l, calls).lock == None
    decreases |calls|
  {
    hide WholeMillis;
    if calls != [] { NeverLocked(l, calls[..|calls| - 1]); }
  }

  // ---- in memory ----

  lemma RecordMore(l: Limits, calls: seq<Call>, call: Call)
    ensures RecordAt(l, calls + [call]) == match call
                                           case Asked(_, _) => RecordAt(l, calls)
                                           case Failed(at, _) => RecordStep(RecordAt(l, calls), l, Fail(at))
                                           case Succeeded(_, _) => CLEAN
  {
    hide RecordAt, RecordStep;
    assert (calls + [call])[..|calls|] == calls;
    RecordAtSnoc(l, calls + [call]);
  }

  /** `n` failures at the time `at`, and nothing else, since the last lock or success. */
  predicate Piled(r: Record, at: Time, n: nat) {
    |r.failures| == n && forall i :: 0 <= i < n ==> r.failures[i] == at
  }

  lemma OneMorePiled(r: Record, l: Limits, at: Time, n: nat)
    requires Piled(r, at, n) && n + 1 < l.maxFailures
    ensures Piled(RecordStep(r, l, Fail(at)), at, n + 1) && RecordStep(r, l, Fail(at)).lockedUntil == r.lockedUntil
  {
    hide Locks;
    FewDoNotLock(r, l, at);
  }

  lemma {:induction false} MemoryPiles(l: Limits, calls: seq<Call>, call: Call, n: nat)
    requires call.Failed? && RecordAt(l, calls).failures == [] && n < l.maxFailures
    ensures Piled(RecordAt(l, Again(calls, call, n)), call.at, n)
    ensures RecordAt(l, Again(calls, call, n)).lockedUntil == RecordAt(l, calls).lockedUntil
    decreases n
  {
    hide RecordAt, RecordStep, Again;
    AgainNext(calls, call, n);
    if n > 0 {
      MemoryPiles(l, calls, call, n - 1);
      RecordMore(l, Again(calls, call, n - 1), call);
      OneMorePiled(RecordAt(l, Again(calls, call, n - 1)), l, call.at, n - 1);
    }
  }

  /** One more failure, all of them within the window, locks. */
  lemma PileLocks(r: Record, l: Limits, at: Time, last: Time)
    requires Sensible(l) && Piled(r, at, l.maxFailures - 1) && last - l.failureWindow < at <= last
    ensures Locks(r, l, last) && RecordStep(r, l, Fail(last)) == Record([], Some(last + l.lockDuration))
  {
    hide CountAfter;
    CountAll(r.failures + [last], last - l.failureWindow);
  }

  lemma LastLocksMemory(l: Limits, calls: seq<Call>, call: Call)
    requires Sensible(l) && InOrder(calls + [call]) && call.Failed? && Locks(RecordAt(l, calls), l, call.at)
    ensures MemoryLocks(l, calls + [call], |calls|)
  {
    hide RecordAt, Locks, MemoryLocks;
    assert (calls + [call])[..|calls|] == calls;
    EntryLocks(l, calls + [call]);
  }

  /** As many failures at one time as the limit allows lock the key. */
  lemma FullPile(l: Limits, at: Time, delivered: bool)
    requires Sensible(l)
    ensures RecordAt(l, Again([], Failed(at, true), l.maxFailures - 1) + [Failed(at, delivered)])
            == Record([], Some(at + l.lockDuration))
    ensures InOrder(Again([], Failed(at, true), l.maxFailures - 1) + [Failed(at, delivered)])
    ensures Locks(RecordAt(l, Again([], Failed(at, true), l.maxFailures - 1)), l, at)
  {
    hide RecordAt, RecordStep, Locks, Again;
    var call := Failed(at, true);
    var calls := Again([], call, l.maxFailures - 1);
    NothingLocked(l);
    MemoryPiles(l, [], call, l.maxFailures - 1);
    PileLocks(RecordAt(l, calls), l, at, at);
    RecordMore(l, calls, Failed(at, delivered));
    AgainInOrder([], call, l.maxFailures - 1);
  }

  // ---- a full sliding window beside fixed windows that are not ----

  /** After delivered failures alone, the last one locks the key in memory while the server holds no lock. */
  ghost predicate MemoryAlone(l: Limits, calls: seq<Call>)
    requires Sensible(l)
  {
    && calls != [] && InOrder(calls) && (forall i :: 0 <= i < |calls| ==> calls[i].Failed? && calls[i].delivered)
    && MemoryLocks(l, calls, |calls| - 1)
    && !HasLock(CellsAfter(l, calls), calls[|calls| - 1].at)
  }

  lemma AllFailed(calls: seq<Call>, call: Call, n: nat)
    requires call.Failed? && call.delivered && forall i :: 0 <= i < |calls| ==> calls[i].Failed? && calls[i].delivered
    ensures var again := Again(calls, call, n); forall i :: 0 <= i < |again| ==> again[i].Failed? && again[i].delivered
  {
    AgainShape(calls, call, n, n);
  }

  /** Where the script never locks, one full window is enough. */
  lemma AloneWithoutMillis(l: Limits)
    requires Sensible(l)
    requires WholeMillis(l.lockDuration) == 0 || (l.maxFailures >= 2 && WholeMillis(l.failureWindow) == 0)
    ensures MemoryAlone(l, Again([], Failed(0, true), l.maxFailures))
  {
    hide RecordAt, Locks, CellsAfter, Again, WholeMillis, MemoryLocks, HasLock;
    var call := Failed(0, true);
    var calls := Again([], call, l.maxFailures);
    AgainNext([], call, l.maxFailures);
    AgainShape([], call, l.maxFailures, l.maxFailures);
    AllFailed([], call, l.maxFailures);
    FullPile(l, 0, true);
    LastLocksMemory(l, Again([], call, l.maxFailures - 1), call);
    if WholeMillis(l.lockDuration) == 0 { NeverLocked(l, calls); } else { ServerForgets(l, 0, l.maxFailures); }
    assert !HasLock(CellsAfter(l, calls), 0) by { NoLockNone(CellsAfter(l, calls), 0); }
  }

  lemma NoLockNone(c: Cells, now: Time)
    ensures c.lock == None ==> !HasLock(c, now)
  {
  }

  /** The server's lock is used up by failures that the script ignores, while they fill the window in memory. */
  function Outlasting(l: Limits): seq<Call>
    requires Sensible(l)
  {
    var lock := WholeMillis(l.lockDuration);
    var locked := Again([], Failed(0, true), l.maxFailures - 1) + [Failed(0, true)];
    Again(locked, Failed(lock - 1, true), l.maxFailures - 1) + [Failed(lock, true)]
  }

  lemma OutlastingOnServer(l: Limits)
    requires Sensible(l) && l.maxFailures >= 2 && WholeMillis(l.lockDuration) > 0 && WholeMillis(l.failureWindow) > 0
    ensures !HasLock(CellsAfter(l, Outlasting(l)), WholeMillis(l.lockDuration))
  {
    hide CellsAfter, Again, WholeMillis;
    var lock, m := WholeMillis(l.lockDuration), l.maxFailures - 1;
    var before := Again([], Failed(0, true), m);
    ServerCounts(l, 0, m);
    CellsSnoc(l, before, Failed(0, true));
    ServerIgnores(l, before + [Failed(0, true)], lock - 1, m);
    CellsSnoc(l, Again(before + [Failed(0, true)], Failed(lock - 1, true), m), Failed(lock, true));
  }

  lemma OutlastingInMemory(l: Limits)
    requires Sensible(l) && WholeMillis(l.lockDuration) > 0 && l.failureWindow >= 2
    ensures Outlasting(l) != [] && InOrder(Outlasting(l)) && MemoryLocks(l, Outlasting(l), |Outlasting(l)| - 1)
    ensures forall i :: 0 <= i < |Outlasting(l)| ==> Outlasting(l)[i].Failed? && Outlasting(l)[i].delivered
    ensures Outlasting(l)[|Outlasting(l)| - 1] == Failed(WholeMillis(l.lockDuration), true)
  {
    hide RecordAt, Locks, Again, WholeMillis, MemoryLocks;
    var lock, m := WholeMillis(l.lockDuration), l.maxFailures - 1;
    var locked := Again([], Failed(0, true), m) + [Failed(0, true)];
    var full := Again(locked, Failed(lock - 1, true), m);
    FullPile(l, 0, true);
    AllFailed([], Failed(0, true), m);
    AllFailed(locked, Failed(lock - 1, true), m);
    AgainInOrder([], Failed(0, true), m);
    AgainInOrder(locked, Failed(lock - 1, true), m);
    MemoryPiles(l, locked, Failed(lock - 1, true), m);
    PileLocks(RecordAt(l, full), l, lock - 1, lock);
    LastLocksMemory(l, full, Failed(lock, true));
  }

  /** When one failure locks, each delivered failure leaves the server with a lock in force. */
  lemma OneFailureLocksServer(l: Limits, calls: seq<Call>)
    requires Sensible(l) && l.maxFailures == 1 && WholeMillis(l.lockDuration) > 0
    requires InOrder(calls) && calls != [] && calls[|calls| - 1].Failed? && calls[|calls| - 1].delivered
    ensures HasLock(CellsAfter(l, calls), calls[|calls| - 1].at)
  {
    hide RecordAt, Covered, WholeMillis;
    AlwaysCovered(l, calls[..|calls| - 1], calls[|calls| - 1].at);
  }

  /**
   The mirroring has no converse. For all limits: some delivered failures make the in-memory limiter lock while the
   server then holds no lock if and only if one failure alone does not lock, or the lock lasts less than a millisecond.
   */
  lemma MemoryLocksAlone(l: Limits)
    requires Sensible(l)
    ensures (exists calls :: MemoryAlone(l, calls)) <==> l.maxFailures >= 2 || l.lockDuration < MILLISECOND
  {
    hide MemoryLocks, HasLock, CellsAfter, Outlasting;
    if WholeMillis(l.lockDuration) == 0 || (l.maxFailures >= 2 && WholeMillis(l.failureWindow) == 0) {
      AloneWithoutMillis(l);
    } else if l.maxFailures >= 2 {
      OutlastingOnServer(l);
      OutlastingInMemory(l);
      assert MemoryAlone(l, Outlasting(l));
    } else {
      forall calls: seq<Call>
        | calls != [] && InOrder(calls) && calls[|calls| - 1].Failed? && calls[|calls| - 1].delivered
        ensures HasLock(CellsAfter(l, calls), calls[|calls| - 1].at)
      {
        OneFailureLocksServer(l, calls);
      }
    }
  }

  // ---- a lock shorter than the window ----

  ghost predicate LocksUndisturbed(l: Limits, calls: seq<Call>, n: nat)
    requires Sensible(l)
  {
    InOrder(calls) && n < |calls| && ScriptLocks(l, calls, n) && WindowUndisturbed(l, calls[..n], calls[n].at)
  }

  predicate FallbackRefuses(l: Limits, calls: seq<Call>, n: nat)
    requires n < |calls|
  {
    AllowAnswer(EntryAt(l, calls[..n + 1]), calls[n].at).Some?
  }

  /** All failures of a window but one, one that only memory sees, and one at the end of the script's window. */
  function Overtaken(l: Limits): seq<Call>
    requires Sensible(l)
  {
    Again([], Failed(0, true), l.maxFailures - 1) + [Failed(0, false)]
    + [Failed(WholeMillis(l.failureWindow) - 1, true)]
  }

  predicate ShortLock(l: Limits)
    requires Sensible(l)
  {
    l.maxFailures >= 2 && MILLISECOND <= l.lockDuration < WholeMillis(l.failureWindow)
  }

  lemma OvertakenShape(l: Limits)
    requires Sensible(l) && ShortLock(l)
    ensures var calls, m := Overtaken(l), l.maxFailures;
            && |calls| == m + 1 && InOrder(calls) && calls[m] == Failed(WholeMillis(l.failureWindow) - 1, true)
            && calls[..m] == Again([], Failed(0, true), m - 1) + [Failed(0, false)] && calls[..m + 1] == calls
            && forall i :: 0 <= i < m ==> calls[i].Failed?
  {
    hide WholeMillis;
    var m := l.maxFailures;
    AgainShape([], Failed(0, true), m - 1, m - 1);
    AgainInOrder([], Failed(0, true), m - 1);
    var before := Again([], Failed(0, true), m - 1) + [Failed(0, false)];
    assert Overtaken(l) == before + [Failed(WholeMillis(l.failureWindow) - 1, true)];
  }

  lemma OvertakenLocks(l: Limits)
    requires Sensible(l) && ShortLock(l)
    ensures LocksUndisturbed(l, Overtaken(l), l.maxFailures)
  {
    hide CellsAfter, Again, WholeMillis, Overtaken;
    var m := l.maxFailures;
    assert WholeMillis(l.lockDuration) > 0 by { MillisLast(l.lockDuration); }
    OvertakenShape(l);
    ServerCounts(l, 0, m - 1);
    CellsSnoc(l, Again([], Failed(0, true), m - 1), Failed(0, false));
  }

  lemma MillisLast(duration: int)
    requires duration >= MILLISECOND
    ensures WholeMillis(duration) > 0
  {
  }

  lemma OvertakenAdmitted(l: Limits)
    requires Sensible(l) && ShortLock(l)
    ensures |Overtaken(l)| == l.maxFailures + 1 && !FallbackRefuses(l, Overtaken(l), l.maxFailures)
  {
    hide RecordAfter, EntryAfter, MemoryEvents, Again, WholeMillis, Overtaken, RecordStep, Locks;
    var m, last := l.maxFailures, WholeMillis(l.failureWindow) - 1;
    OvertakenShape(l);
    var calls := Overtaken(l);
    FullPile(l, 0, false);
    assert calls == calls[..m] + [calls[m]];
    RecordMore(l, calls[..m], calls[m]);
    OneMorePiled(RecordAt(l, calls[..m]), l, last, 0);
    EventsInOrder(calls, last);
    LimiterRefinesHistory(l, MemoryEvents(calls), last);
  }

  /**
   For all limits: the fallback refuses at every moment at which the script locks in an undisturbed window if and only
   if one failure locks, the lock lasts as long as the script's window, or it is too short ever to be set.
   */
  lemma FallbackRefusesIff(l: Limits)
    requires Sensible(l)
    ensures (forall calls, n :: LocksUndisturbed(l, calls, n) ==> FallbackRefuses(l, calls, n)) <==> !ShortLock(l)
  {
    if ShortLock(l) {
      OvertakenLocks(l);
      OvertakenAdmitted(l);
      assert !(LocksUndisturbed(l, Overtaken(l), l.maxFailures) ==> FallbackRefuses(l, Overtaken(l), l.maxFailures));
    } else {
      forall calls, n | LocksUndisturbed(l, calls, n) ensures FallbackRefuses(l, calls, n) {
        LongLockRefuses(l, calls, n);
      }
    }
  }

  lemma LongLockRefuses(l: Limits, calls: seq<Call>, n: nat)
    requires Sensible(l) && !ShortLock(l) && LocksUndisturbed(l, calls, n)
    ensures FallbackRefuses(l, calls, n)
  {
    hide CellsAfter, EntryAt, RetryAfter, WindowUndisturbed, HasLock, Incremented;
    FallbackRefusesToo(l, calls, n);
  }

  // ---- a lost success ----

  /** The script locks on call `n`, and the in-memory limiter has not locked on any call so far. */
  ghost predicate LocksAlone(l: Limits, calls: seq<Call>, n: nat)
    requires Sensible(l)
  {
    && InOrder(calls) && n < |calls| && ScriptLocks(l, calls, n)
    && forall i: nat :: i <= n ==> !MemoryLocks(l, calls, i)
  }

  /** A record without a lock means that the last call did not lock in memory. */
  lemma NoLockInMemory(l: Limits, calls: seq<Call>)
    requires Sensible(l) && InOrder(calls) && calls != [] && RecordAt(l, calls).lockedUntil == None
    ensures !MemoryLocks(l, calls, |calls| - 1)
  {
    hide RecordAfter, EntryAfter, MemoryEvents;
    var at := calls[|calls| - 1].at;
    EventsInOrder(calls, at);
    LimiterRefinesHistory(l, MemoryEvents(calls), at);
    assert calls[..|calls|] == calls;
  }

  /** All failures but one, a success that only memory sees, and one more failure. */
  function LostSuccess(m: nat): seq<Call> {
    Again([], Failed(0, true), m) + [Succeeded(0, false)] + [Failed(0, true)]
  }

  lemma LostSuccessShape(m: nat, i: nat)
    requires i <= m
    ensures var calls := LostSuccess(m);
            && |calls| == m + 2 && InOrder(calls) && calls[m + 1] == Failed(0, true)
            && calls[..m + 1] == Again([], Failed(0, true), m) + [Succeeded(0, false)]
            && calls[..i] == Again([], Failed(0, true), i) && calls[..m + 2] == calls
  {
    AgainShape([], Failed(0, true), m, i);
    AgainInOrder([], Failed(0, true), m);
    assert LostSuccess(m)[..i] == Again([], Failed(0, true), m)[..i];
  }

  lemma LostSuccessUnlocked(l: Limits, m: nat, i: nat)
    requires Sensible(l) && m + 1 == l.maxFailures >= 2 && i < m + 2
    ensures |LostSuccess(m)| == m + 2 && RecordAt(l, LostSuccess(m)[..i + 1]).lockedUntil == None
  {
    hide RecordAt, RecordStep, Again;
    var calls := LostSuccess(m);
    LostSuccessShape(m, if i < m then i + 1 else m);
    NothingLocked(l);
    if i < m {
      MemoryPiles(l, [], Failed(0, true), i + 1);
    }
    RecordMore(l, Again([], Failed(0, true), m), Succeeded(0, false));
    RecordMore(l, calls[..m + 1], Failed(0, true));
    OneMorePiled(CLEAN, l, 0, 0);
    assert calls == calls[..m + 1] + [Failed(0, true)];
  }

  lemma LostSuccessLocks(l: Limits, m: nat)
    requires Sensible(l) && m + 1 == l.maxFailures >= 2
    requires WholeMillis(l.failureWindow) > 0 && WholeMillis(l.lockDuration) > 0
    ensures LocksAlone(l, LostSuccess(m), m + 1)
  {
    hide RecordAt, Again, CellsAfter, LostSuccess, MemoryLocks, WholeMillis;
    var calls := LostSuccess(m);
    LostSuccessShape(m, m);
    ServerCounts(l, 0, m);
    CellsSnoc(l, Again([], Failed(0, true), m), Succeeded(0, false));
    forall i: nat | i <= m + 1 ensures !MemoryLocks(l, calls, i) {
      LostSuccessUnlocked(l, m, i);
      NoLockInMemory(l, calls[..i + 1]);
      MemoryLocksPrefix(l, calls, i);
    }
  }

  lemma MemoryLocksPrefix(l: Limits, calls: seq<Call>, i: nat)
    requires i < |calls|
    ensures MemoryLocks(l, calls[..i + 1], i) <==> MemoryLocks(l, calls, i)
  {
    hide EntryAt;
    assert calls[..i + 1][..i + 1] == calls[..i + 1];
  }

  /**
   With one failure allowed, or without a window, the script locks only where memory does; without a lock, nowhere.
   */
  lemma NeverAlone(l: Limits, calls: seq<Call>, n: nat)
    requires Sensible(l) && LocksAlone(l, calls, n)
    ensures l.maxFailures >= 2 && WholeMillis(l.failureWindow) > 0 && WholeMillis(l.lockDuration) > 0
  {
    hide RecordAt, CellsAfter, MemoryLocks, WholeMillis, Covered;
    AlwaysCovered(l, calls[..n], calls[n].at);
    assert calls[..n + 1][..n] == calls[..n];
    OneFailureLocksMemory(l, calls[..n + 1]);
    MemoryLocksPrefix(l, calls, n);
  }

  lemma OneFailureLocksMemory(l: Limits, calls: seq<Call>)
    requires Sensible(l) && InOrder(calls) && calls != [] && calls[|calls| - 1].Failed?
    ensures l.maxFailures == 1 ==> MemoryLocks(l, calls, |calls| - 1)
  {
    hide RecordAt, MemoryLocks, Locks;
    if l.maxFailures == 1 {
      OneFailureLocks(RecordAt(l, calls[..|calls| - 1]), l, calls[|calls| - 1].at);
      EntryLocks(l, calls);
    }
  }

  /**
   The deliveries matter exactly where the script counts at all: a lost success can let it lock a key that the in-memory
   limiter never locked if and only if one failure alone does not lock, and window and lock last a millisecond or more.
   */
  lemma LostSuccessLocksServerAlone(l: Limits)
    requires Sensible(l)
    ensures (exists calls, n :: LocksAlone(l, calls, n))
            <==> l.maxFailures >= 2 && l.failureWindow >= MILLISECOND && l.lockDuration >= MILLISECOND
  {
    hide LocksAlone;
    if l.maxFailures >= 2 && l.failureWindow >= MILLISECOND && l.lockDuration >= MILLISECOND {
      LostSuccessLocks(l, l.maxFailures - 1);
    }
    if calls, n :| LocksAlone(l, calls, n) {
      NeverAlone(l, calls, n);
    }
  }
}
