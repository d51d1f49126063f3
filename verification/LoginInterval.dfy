/**
 How many failures an interval can hold. A login attempt asks first and records its failure later, with the whole login
 in between, and attempts on the same key overlap.
 */
module LoginInterval {
  import opened Wrappers
  import opened LoginLimiter
  import opened LoginHistory

  /** The failures among the events from position `i` up to `n`. */
  function Fails(events: seq<Event>, i: nat, n: nat): nat
    requires i <= n <= |events|
  {
    if n == i then 0 else Fails(events, i, n - 1) + if events[n - 1].Fail? then 1 else 0
  }

  /** The attempts in flight at position `p`: asked before it, failing at it or later, but before position `n`. */
  function InFlight(events: seq<Event>, asked: seq<nat>, p: nat, n: nat): nat
    requires p <= n <= |events| == |asked|
  {
    if n == p then 0 else InFlight(events, asked, p, n - 1) + if events[n - 1].Fail? && asked[n - 1] < p then 1 else 0
  }

  /** The question at `p` is answered by letting the attempt through. */
  predicate LetThrough(l: Limits, events: seq<Event>, p: nat) {
    p < |events| && events[p].Ask? && AllowAnswer(EntryAfter(l, events[..p]), events[p].at) == None
  }

  /** Each failure from `i` to `j` belongs to an attempt that asked before and was let through. */
  ghost predicate Admitted(l: Limits, events: seq<Event>, asked: seq<nat>, i: nat, j: nat)
    requires |asked| == |events|
  {
    forall k :: i <= k <= j < |events| && events[k].Fail? ==> asked[k] < k && LetThrough(l, events, asked[k])
  }

  /** At no position from `i` on are more than `c` of the attempts that fail before `n` in flight. */
  ghost predicate AtMostInFlight(events: seq<Event>, asked: seq<nat>, c: int, i: nat, n: nat)
    requires n <= |events| == |asked|
  {
    forall p :: i <= p < n ==> InFlight(events, asked, p, n) <= c
  }

  ghost predicate NoSuccess(events: seq<Event>, i: nat, j: nat) {
    forall k :: i <= k <= j < |events| ==> !events[k].Succeed?
  }

  function RecordAt(l: Limits, events: seq<Event>, n: nat): Record
    requires n <= |events|
  {
    RecordAfter(l, events[..n])
  }

  /** The event at `k` is a failure that sets a lock. */
  predicate LocksAt(l: Limits, events: seq<Event>, k: nat)
    requires k < |events|
  {
    events[k].Fail? && Locks(RecordAt(l, events, k), l, events[k].at)
  }

  lemma RecordNext(l: Limits, events: seq<Event>, n: nat)
    requires n < |events|
    ensures RecordAt(l, events, n + 1) == RecordStep(RecordAt(l, events, n), l, events[n])
  {
    assert events[..n + 1][..n] == events[..n];
  }

  // ---- before the lock ----

  /** Without a lock or a success the failures pile up in the record. */
  lemma {:induction false} Pile(l: Limits, events: seq<Event>, i: nat, n: nat)
    requires i <= n <= |events| && Ordered(events) && i < |events|
    requires forall k :: i <= k < n ==> !LocksAt(l, events, k) && !events[k].Succeed?
    ensures CountAfter(RecordAt(l, events, n).failures, events[i].at - 1) >= Fails(events, i, n)
    decreases n
  {
    hide CountAfter, Locks, RecordAt;
    if n > i {
      Pile(l, events, i, n - 1);
      RecordNext(l, events, n - 1);
      CountSnoc(RecordAt(l, events, n - 1).failures, events[n - 1].at, events[i].at - 1);
    }
  }

  /** So an interval inside the window without a lock holds fewer failures than the limit. */
  lemma {:induction false} FewWithoutLock(l: Limits, events: seq<Event>, i: nat, n: nat)
    requires i <= n <= |events| && Ordered(events) && i < |events| && Sensible(l)
    requires forall k :: i <= k < n ==> !LocksAt(l, events, k) && !events[k].Succeed?
    requires n > i ==> events[n - 1].at - events[i].at < l.failureWindow
    ensures Fails(events, i, n) < l.maxFailures
    decreases n
  {
    hide CountAfter, Locks, RecordAt;
    if n > i {
      var last := events[n - 1];
      FewWithoutLock(l, events, i, n - 1);
      if last.Fail? {
        var r := RecordAt(l, events, n - 1);
        Pile(l, events, i, n - 1);
        CountSnoc(r.failures, last.at, events[i].at - 1);
        UnlockedCount(r, l, last.at);
        CountMonotone(r.failures + [last.at], last.at - l.failureWindow, events[i].at - 1);
      }
    }
  }

  // ---- after the lock ----

  /** A lock stays on record, or gives way to a later one, as long as no success comes. */
  lemma {:induction false} LockLasts(l: Limits, events: seq<Event>, k: nat, n: nat)
    requires k < n <= |events| && Ordered(events) && LocksAt(l, events, k)
    requires forall m :: k < m < n ==> !events[m].Succeed?
    ensures var u := RecordAt(l, events, n).lockedUntil; u.Some? && u.value >= events[k].at + l.lockDuration
    decreases n
  {
    hide Locks, RecordAt;
    RecordNext(l, events, n - 1);
    if n - 1 > k { LockLasts(l, events, k, n - 1); }
  }

  lemma OrderedPrefix(events: seq<Event>, p: nat)
    requires p < |events| && Ordered(events)
    ensures Ordered(events[..p]) && forall i :: 0 <= i < p ==> events[..p][i].at <= events[p].at
  {
  }

  lemma LetThroughUnlocked(l: Limits, events: seq<Event>, p: nat)
    requires Sensible(l) && Ordered(events) && LetThrough(l, events, p)
    ensures !Locked(RecordAt(l, events, p).lockedUntil, events[p].at)
  {
    hide RecordAfter, EntryAfter;
    OrderedPrefix(events, p);
    LimiterRefinesHistory(l, events[..p], events[p].at);
  }

  /** Nobody who asks while the lock lasts is let through. */
  lemma RefusedWhileLocked(l: Limits, events: seq<Event>, k: nat, p: nat)
    requires k < p < |events| && Sensible(l) && Ordered(events) && LocksAt(l, events, k)
    requires forall m :: k < m < p ==> !events[m].Succeed?
    requires events[p].at < events[k].at + l.lockDuration
    ensures !LetThrough(l, events, p)
  {
    hide RecordAt, Locks, LetThrough;
    LockLasts(l, events, k, p);
    if LetThrough(l, events, p) { LetThroughUnlocked(l, events, p); }
  }

  /** The attempts that fail after the lock, and the one that set it, were all in flight when it was set. */
  lemma {:induction false} FailedInFlight(l: Limits, events: seq<Event>, asked: seq<nat>, k: nat, j: nat, n: nat)
    requires k < n <= j + 1 <= |events| == |asked| && Sensible(l) && Ordered(events) && LocksAt(l, events, k)
    requires Admitted(l, events, asked, k, j) && NoSuccess(events, k, j)
    requires events[j].at < events[k].at + l.lockDuration
    ensures InFlight(events, asked, k, n) >= 1 + Fails(events, k + 1, n)
    decreases n
  {
    hide LetThrough, Locks, RecordAt;
    if n > k + 1 {
      FailedInFlight(l, events, asked, k, j, n - 1);
      var p := asked[n - 1];
      if events[n - 1].Fail? && p > k { RefusedWhileLocked(l, events, k, p); }
      if events[n - 1].Fail? && p == k { AskIsNotFailure(l, events, k); }
    } else {
      assert Fails(events, k + 1, k + 1) == 0 && InFlight(events, asked, k, k) == 0;
    }
  }

  lemma AskIsNotFailure(l: Limits, events: seq<Event>, k: nat)
    requires k < |events| && events[k].Fail?
    ensures !LetThrough(l, events, k)
  {
  }

  /** The first lock from `i` on, before `n`. */
  lemma {:induction false} FirstLock(l: Limits, events: seq<Event>, i: nat, n: nat) returns (k: nat)
    requires i <= n <= |events|
    ensures i <= k <= n && (k < n ==> LocksAt(l, events, k)) && forall m :: i <= m < k ==> !LocksAt(l, events, m)
    decreases n
  {
    hide LocksAt;
    if n == i {
      k := n;
    } else {
      k := FirstLock(l, events, i, n - 1);
      if k == n - 1 && !LocksAt(l, events, n - 1) { k := n; }
    }
  }

  lemma {:induction false} FailsSplit(events: seq<Event>, i: nat, k: nat, n: nat)
    requires i <= k <= n <= |events|
    ensures Fails(events, i, n) == Fails(events, i, k) + Fails(events, k, n)
    decreases n
  {
    if n > k { FailsSplit(events, i, k, n - 1); }
  }

  /** The hypotheses on the interval from `i` to `j`, for the stretches before and from `k` on. */
  lemma Within(l: Limits, events: seq<Event>, asked: seq<nat>, c: nat, i: nat, j: nat, k: nat)
    requires Ordered(events) && i <= j < |events| == |asked| && i <= k <= j + 1
    requires Admitted(l, events, asked, i, j) && NoSuccess(events, i, j) && AtMostInFlight(events, asked, c, i, j + 1)
    ensures Admitted(l, events, asked, k, j) && NoSuccess(events, k, j)
    ensures forall m :: i <= m < k ==> !events[m].Succeed?
    ensures k > i ==> events[k - 1].at <= events[j].at
    ensures k <= j ==> events[i].at <= events[k].at && InFlight(events, asked, k, j + 1) <= c
    ensures k <= j && events[k].Fail? ==> Fails(events, k, j + 1) == 1 + Fails(events, k + 1, j + 1)
  {
    hide LetThrough, InFlight;
    if k <= j {
      FailsSplit(events, k, k + 1, j + 1);
      assert Fails(events, k, k) == 0;
    }
  }

  lemma LockIsFailure(l: Limits, events: seq<Event>, k: nat)
    requires k < |events| && LocksAt(l, events, k)
    ensures events[k].Fail?
  {
  }

  /**
   When every failure follows an admitted question, no success intervenes and at most `c` attempts are in flight at any
   moment, an interval shorter than the failure window and the lock duration holds at most `maxFailures + c - 1`
   failures; `maxFailures` when attempts come one after another. What happened before the interval does not matter.
   */
  lemma FailuresPerInterval(l: Limits, events: seq<Event>, asked: seq<nat>, c: nat, i: nat, j: nat)
    requires Sensible(l) && Ordered(events) && i <= j < |events| == |asked| && c >= 1
    requires Admitted(l, events, asked, i, j) && NoSuccess(events, i, j) && AtMostInFlight(events, asked, c, i, j + 1)
    requires events[j].at - events[i].at < l.failureWindow
    requires events[j].at - events[i].at < l.lockDuration
    ensures Fails(events, i, j + 1) <= l.maxFailures + c - 1
  {
    hide *;
    var k := FirstLock(l, events, i, j + 1);
    Within(l, events, asked, c, i, j, k);
    FewWithoutLock(l, events, i, k);
    if k <= j {
      LockIsFailure(l, events, k);
      FailedInFlight(l, events, asked, k, j, j + 1);
      FailsSplit(events, i, k, j + 1);
    }
  }

  // ---- the bound is reached ----

  /** The first `2 * m` events are attempts in turn; then `c` attempts ask before any of them fails. All at time 0. */
  function Burst(m: nat, c: nat): seq<Event> {
    seq(2 * m + 2 * c, i requires 0 <= i < 2 * m + 2 * c => if BurstFails(m, c, i) then Fail(0) else Ask(0))
  }

  predicate BurstFails(m: nat, c: nat, i: nat) {
    if i < 2 * m then i % 2 == 1 else i >= 2 * m + c
  }

  function BurstAsked(m: nat, c: nat): seq<nat> {
    seq(2 * m + 2 * c, i requires 0 <= i < 2 * m + 2 * c =>
          if i < 2 * m then (if i > 0 then i - 1 else 0) else if i >= 2 * m + c then i - c else i)
  }

  lemma {:induction false} BurstFailures(m: nat, c: nat, n: nat)
    requires n <= 2 * m + 2 * c
    ensures Fails(Burst(m, c), 0, n) == if n <= 2 * m then n / 2 else if n <= 2 * m + c then m else n - m - c
    decreases n
  {
    if n > 0 { BurstFailures(m, c, n - 1); }
  }

  lemma {:induction false} BurstFlight(m: nat, c: nat, p: nat, n: nat)
    requires p <= n <= 2 * m + 2 * c && c >= 1
    ensures InFlight(Burst(m, c), BurstAsked(m, c), p, n)
            <= if p < 2 * m then (if p % 2 == 1 && n > p then 1 else 0)
               else if n <= 2 * m + c then 0 else n - 2 * m - c
    decreases n
  {
    if n > p { BurstFlight(m, c, p, n - 1); }
  }

  /** Fewer failures than the limit never lock. */
  lemma {:induction false} FewNeverLock(l: Limits, events: seq<Event>, n: nat)
    requires n <= |events| && Fails(events, 0, n) < l.maxFailures
    ensures RecordAt(l, events, n).lockedUntil == None && |RecordAt(l, events, n).failures| <= Fails(events, 0, n)
    decreases n
  {
    hide CountAfter, Locks, RecordAt;
    if n > 0 {
      FewNeverLock(l, events, n - 1);
      RecordNext(l, events, n - 1);
      if events[n - 1].Fail? { FewDoNotLock(RecordAt(l, events, n - 1), l, events[n - 1].at); }
    } else {
      NothingRecorded(l, events);
    }
  }

  lemma NothingRecorded(l: Limits, events: seq<Event>)
    ensures RecordAt(l, events, 0) == CLEAN
  {
  }

  lemma FewAreLetThrough(l: Limits, events: seq<Event>, p: nat)
    requires Sensible(l) && Ordered(events) && p < |events| && events[p].Ask? && Fails(events, 0, p) < l.maxFailures
    ensures LetThrough(l, events, p)
  {
    hide RecordAfter, EntryAfter;
    OrderedPrefix(events, p);
    FewNeverLock(l, events, p);
    LimiterRefinesHistory(l, events[..p], events[p].at);
  }

  lemma BurstAdmitted(l: Limits, m: nat, c: nat)
    requires Sensible(l) && m == l.maxFailures - 1 && c >= 1
    ensures Ordered(Burst(m, c)) && Admitted(l, Burst(m, c), BurstAsked(m, c), 0, 2 * m + 2 * c - 1)
  {
    hide LetThrough;
    var events, asked := Burst(m, c), BurstAsked(m, c);
    forall k | 0 <= k < |events| && events[k].Fail? ensures asked[k] < k && LetThrough(l, events, asked[k]) {
      BurstFailures(m, c, asked[k]);
      FewAreLetThrough(l, events, asked[k]);
    }
  }

  /**
   For all limits and every `c`: attempts that all fall on one moment, each admitted, at most `c` of them in flight at
   any time, of which `maxFailures + c - 1` fail. Without a bound on overlapping attempts there is no bound on the
   failures.
   */
  lemma BoundIsReached(l: Limits, c: nat) returns (events: seq<Event>, asked: seq<nat>)
    requires Sensible(l) && c >= 1
    ensures Ordered(events) && |asked| == |events| > 0 && forall i :: 0 <= i < |events| ==> events[i].at == 0
    ensures var j := |events| - 1;
            && Admitted(l, events, asked, 0, j) && NoSuccess(events, 0, j) && AtMostInFlight(events, asked, c, 0, j + 1)
            && Fails(events, 0, j + 1) == l.maxFailures + c - 1
    ensures forall i, k :: 0 <= i < k < |events| && events[i].Fail? && events[k].Fail? ==> asked[i] != asked[k]
  {
    var m := l.maxFailures - 1;
    events, asked := Burst(m, c), BurstAsked(m, c);
    BurstAdmitted(l, m, c);
    BurstFailures(m, c, |events|);
    forall p | 0 <= p < |events| ensures InFlight(events, asked, p, |events|) <= c {
      BurstFlight(m, c, p, |events|);
    }
    hide Admitted, InFlight, Fails;
  }
}
