/**
 The limiter against its history. The reference keeps every failure since the last lock or success, and keeps expired
 locks: it neither prunes nor forgets. With a clock that does not go back, every answer agrees.
 */
module LoginHistory {
  import opened Wrappers
  import opened LoginLimiter

  datatype Event = Ask(at: Time) | Fail(at: Time) | Succeed(at: Time)

  /** Everything that has happened to a key since its last lock or success, and that lock. */
  datatype Record = Record(failures: seq<Time>, lockedUntil: Option<Time>)

  const CLEAN := Record([], None)

  /** How many of the failures happened later than `threshold`. */
  function CountAfter(failures: seq<Time>, threshold: Time): nat {
    if failures == [] then 0
    else CountAfter(failures[..|failures| - 1], threshold) + if failures[|failures| - 1] > threshold then 1 else 0
  }

  /** Does a failure at `at` complete a full window? */
  predicate Locks(r: Record, l: Limits, at: Time) {
    CountAfter(r.failures + [at], at - l.failureWindow) >= l.maxFailures
  }

  function RecordStep(r: Record, l: Limits, e: Event): Record {
    match e
    case Ask(_) => r
    case Fail(at) =>
      if Locks(r, l, at) then Record([], Some(at + l.lockDuration)) else r.(failures := r.failures + [at])
    case Succeed(_) => CLEAN
  }

  function RecordAfter(l: Limits, events: seq<Event>): Record
    decreases |events|
  {
    if events == [] then CLEAN else RecordStep(RecordAfter(l, events[..|events| - 1]), l, events[|events| - 1])
  }

  /** The limiter's own state for the key after the same events. */
  function EntryStep(e: Option<Entry>, l: Limits, event: Event): Option<Entry> {
    match event
    case Ask(at) => AllowEntry(e, l, at)
    case Fail(at) => Some(FailureEntry(e, l, at))
    case Succeed(_) => None
  }

  function EntryAfter(l: Limits, events: seq<Event>): Option<Entry>
    decreases |events|
  {
    if events == [] then None else EntryStep(EntryAfter(l, events[..|events| - 1]), l, events[|events| - 1])
  }

  ghost predicate Ordered(events: seq<Event>) {
    forall i, j :: 0 <= i < j < |events| ==> events[i].at <= events[j].at
  }

  predicate Sorted(s: seq<Time>) {
    forall i, j :: 0 <= i < j < |s| ==> s[i] <= s[j]
  }

  // ---- filtering ----

  lemma {:induction false} RecentCounts(failures: seq<Time>, threshold: Time)
    ensures |Recent(failures, threshold)| == CountAfter(failures, threshold)
    decreases |failures|
  {
    if failures != [] { RecentCounts(failures[..|failures| - 1], threshold); }
  }

  /** A later threshold makes an earlier filtering unnecessary. */
  lemma {:induction false} RecentTwice(failures: seq<Time>, early: Time, late: Time)
    requires early <= late
    ensures Recent(Recent(failures, early), late) == Recent(failures, late)
    decreases |failures|
  {
    if failures != [] {
      var front, last := failures[..|failures| - 1], failures[|failures| - 1];
      RecentTwice(front, early, late);
      var kept := Recent(front, early);
      if last > early {
        assert (kept + [last])[..|kept|] == kept;
      } else {
        assert kept + [] == kept && Recent(front, late) + [] == Recent(front, late);
      }
    }
  }

  lemma {:induction false} RecentSorted(failures: seq<Time>, threshold: Time)
    requires Sorted(failures)
    ensures Sorted(Recent(failures, threshold))
    ensures forall x :: x in Recent(failures, threshold) ==> x in failures
    decreases |failures|
  {
    if failures != [] {
      var front := failures[..|failures| - 1];
      RecentSorted(front, threshold);
      assert forall x :: x in front ==> x <= failures[|failures| - 1];
      var r := Recent(front, threshold);
      assert forall i :: 0 <= i < |r| ==> r[i] in r;
    }
  }

  lemma RecentSnoc(failures: seq<Time>, at: Time, threshold: Time)
    ensures Recent(failures + [at], threshold) == Recent(failures, threshold) + (if at > threshold then [at] else [])
  {
    assert (failures + [at])[..|failures|] == failures;
  }

  // ---- the simulation ----

  function FailuresOf(e: Option<Entry>): seq<Time> { if e.Some? then e.value.failures else [] }

  function LockOf(e: Option<Entry>): Option<Time> { if e.Some? then e.value.lockedUntil else None }

  /** At time `now` the two agree on the failures in the window and on the lock; the entry is short and in order. */
  ghost predicate Agree(e: Option<Entry>, r: Record, l: Limits, now: Time) {
    && Recent(FailuresOf(e), now - l.failureWindow) == Recent(r.failures, now - l.failureWindow)
    && (LockOf(e) == r.lockedUntil || (!Locked(LockOf(e), now) && !Locked(r.lockedUntil, now)))
    && Sorted(FailuresOf(e)) && (forall x :: x in FailuresOf(e) ==> x <= now)
    && |FailuresOf(e)| < l.maxFailures
  }

  lemma AgreeLater(e: Option<Entry>, r: Record, l: Limits, now: Time, later: Time)
    requires Agree(e, r, l, now) && now <= later
    ensures Agree(e, r, l, later)
  {
    hide Recent, FailuresOf, LockOf, Sorted;
    RecentTwice(FailuresOf(e), now - l.failureWindow, later - l.failureWindow);
    RecentTwice(r.failures, now - l.failureWindow, later - l.failureWindow);
  }

  /** Pruning keeps the agreement. */
  lemma AgreePruned(e: Entry, r: Record, l: Limits, now: Time)
    requires Agree(Some(e), r, l, now)
    ensures Agree(Some(Pruned(e, l, now)), r, l, now)
  {
    hide Recent, Sorted;
    RecentTwice(e.failures, now - l.failureWindow, now - l.failureWindow);
    RecentSorted(e.failures, now - l.failureWindow);
  }

  lemma AgreeNone(e: Option<Entry>, r: Record, l: Limits, now: Time)
    requires Agree(e, r, l, now) && Sensible(l) && FailuresOf(e) == [] && !Locked(LockOf(e), now)
    ensures Agree(None, r, l, now)
  {
  }

  lemma AgreeFresh(r: Record, l: Limits, now: Time)
    requires Agree(None, r, l, now)
    ensures Agree(Some(FRESH), r, l, now)
  {
  }

  lemma AgreeAsk(e: Option<Entry>, r: Record, l: Limits, at: Time)
    requires Sensible(l) && Agree(e, r, l, at)
    ensures Agree(AllowEntry(e, l, at), r, l, at)
  {
    hide Agree, Recent;
    if e.Some? {
      AgreePruned(e.value, r, l, at);
      var p := Some(Pruned(e.value, l, at));
      if FailuresOf(p) == [] && !Locked(LockOf(p), at) { AgreeNone(p, r, l, at); }
    }
  }

  /** Another failure is appended on both sides, or completes the window on both sides. */
  lemma AgreeAppend(p: Entry, r: Record, l: Limits, at: Time)
    requires Sensible(l) && Agree(Some(p), r, l, at) && p.failures == Recent(p.failures, at - l.failureWindow)
    ensures |p.failures + [at]| >= l.maxFailures <==> Locks(r, l, at)
    ensures !Locks(r, l, at) ==>
              Agree(Some(p.(failures := p.failures + [at])), r.(failures := r.failures + [at]), l, at)
  {
    hide Recent, CountAfter;
    var threshold := at - l.failureWindow;
    RecentSnoc(r.failures, at, threshold);
    RecentSnoc(p.failures, at, threshold);
    RecentCounts(r.failures + [at], threshold);
    assert forall x :: x in p.failures ==> x <= at;
    assert forall i :: 0 <= i < |p.failures| ==> p.failures[i] in p.failures;
  }

  lemma AgreeLocked(l: Limits, at: Time)
    requires Sensible(l)
    ensures Agree(Some(Entry([], Some(at + l.lockDuration))), Record([], Some(at + l.lockDuration)), l, at)
  {
  }

  lemma AgreeFail(e: Option<Entry>, r: Record, l: Limits, at: Time)
    requires Sensible(l) && Agree(e, r, l, at)
    ensures Agree(Some(FailureEntry(e, l, at)), RecordStep(r, l, Fail(at)), l, at)
  {
    hide Agree, Recent, Locks;
    if e.None? { AgreeFresh(r, l, at); }
    var start := if e.Some? then e.value else FRESH;
    AgreePruned(start, r, l, at);
    var p := Pruned(start, l, at);
    RecentTwice(start.failures, at - l.failureWindow, at - l.failureWindow);
    AgreeAppend(p, r, l, at);
    AgreeLocked(l, at);
  }

  lemma AgreeStep(e: Option<Entry>, r: Record, l: Limits, event: Event)
    requires Sensible(l) && Agree(e, r, l, event.at)
    ensures Agree(EntryStep(e, l, event), RecordStep(r, l, event), l, event.at)
  {
    match event
    case Ask(at) => AgreeAsk(e, r, l, at);
    case Succeed(_) =>
    case Fail(at) => AgreeFail(e, r, l, at);
  }

  lemma {:induction false} HistoryAgrees(l: Limits, events: seq<Event>, now: Time)
    requires Sensible(l) && Ordered(events) && (forall i :: 0 <= i < |events| ==> events[i].at <= now)
    ensures Agree(EntryAfter(l, events), RecordAfter(l, events), l, now)
    decreases |events|
  {
    if events != [] {
      var front, last := events[..|events| - 1], events[|events| - 1];
      HistoryAgrees(l, front, last.at);
      AgreeStep(EntryAfter(l, front), RecordAfter(l, front), l, last);
      AgreeLater(EntryAfter(l, events), RecordAfter(l, events), l, last.at, now);
    }
  }

  /**
   For every history and every later question: the limiter refuses exactly when the reference is locked, with the same
   waiting time. Its own failure list is always sorted and shorter than the limit.
   */
  lemma LimiterRefinesHistory(l: Limits, events: seq<Event>, now: Time)
    requires Sensible(l) && Ordered(events) && (forall i :: 0 <= i < |events| ==> events[i].at <= now)
    ensures var e, r := EntryAfter(l, events), RecordAfter(l, events);
            && AllowAnswer(e, now)
               == (if Locked(r.lockedUntil, now) then Some(RetryAfter(r.lockedUntil.value, now)) else None)
            && Sorted(FailuresOf(e)) && |FailuresOf(e)| < l.maxFailures
  {
    HistoryAgrees(l, events, now);
  }

  // ---- many keys ----

  /** A call on a key, as the limiter's methods change the book; the empty key is ignored. */
  function BookStep(b: Book, l: Limits, key: string, e: Event): Book {
    if key == "" then b else Put(b, key, EntryStep(Lookup(b, key), l, e))
  }

  function BookAfter(l: Limits, calls: seq<(string, Event)>): Book
    decreases |calls|
  {
    if calls == [] then map[]
    else BookStep(BookAfter(l, calls[..|calls| - 1]), l, calls[|calls| - 1].0, calls[|calls| - 1].1)
  }

  function EventsFor(key: string, calls: seq<(string, Event)>): seq<Event>
    decreases |calls|
  {
    if calls == [] then []
    else EventsFor(key, calls[..|calls| - 1]) + if calls[|calls| - 1].0 == key then [calls[|calls| - 1].1] else []
  }

  lemma {:induction false} KeysAreSeparate(l: Limits, calls: seq<(string, Event)>, key: string)
    requires key != ""
    ensures Lookup(BookAfter(l, calls), key) == EntryAfter(l, EventsFor(key, calls))
    decreases |calls|
  {
    hide EntryStep;
    if calls != [] {
      var front, last := calls[..|calls| - 1], calls[|calls| - 1];
      KeysAreSeparate(l, front, key);
      var events := EventsFor(key, front);
      if last.0 == key {
        assert (events + [last.1])[..|events|] == events;
      } else {
        assert events + [] == events;
      }
    }
  }

  lemma {:induction false} EventsForOrdered(key: string, calls: seq<(string, Event)>, now: Time)
    requires forall i, j :: 0 <= i < j < |calls| ==> calls[i].1.at <= calls[j].1.at
    requires forall i :: 0 <= i < |calls| ==> calls[i].1.at <= now
    ensures Ordered(EventsFor(key, calls))
    ensures forall i :: 0 <= i < |EventsFor(key, calls)| ==> EventsFor(key, calls)[i].at <= now
    decreases |calls|
  {
    if calls != [] { EventsForOrdered(key, calls[..|calls| - 1], calls[|calls| - 1].1.at); }
  }

  /** So, whatever happens to other keys, the answer for a key is that of its own never-forgotten history. */
  lemma EveryKeyRefinesHistory(l: Limits, calls: seq<(string, Event)>, key: string, now: Time)
    requires Sensible(l) && key != "" && (forall i, j :: 0 <= i < j < |calls| ==> calls[i].1.at <= calls[j].1.at)
    requires forall i :: 0 <= i < |calls| ==> calls[i].1.at <= now
    ensures var r := RecordAfter(l, EventsFor(key, calls));
            AllowAnswer(Lookup(BookAfter(l, calls), key), now)
            == if Locked(r.lockedUntil, now) then Some(RetryAfter(r.lockedUntil.value, now)) else None
  {
    hide RecordAfter, EntryAfter, BookAfter, EventsFor, RetryAfter, Lookup;
    KeysAreSeparate(l, calls, key);
    EventsForOrdered(key, calls, now);
    LimiterRefinesHistory(l, EventsFor(key, calls), now);
  }

  // ---- a clock that goes back ----

  /** The limiter answers a question at `now` as the reference does. */
  predicate AnsweredRightly(l: Limits, events: seq<Event>, now: Time) {
    var r := RecordAfter(l, events);
    AllowAnswer(EntryAfter(l, events), now)
    == if Locked(r.lockedUntil, now) then Some(RetryAfter(r.lockedUntil.value, now)) else None
  }

  ghost predicate HistoryUpTo(events: seq<Event>, latest: Time) {
    Ordered(events) && forall i :: 0 <= i < |events| ==> events[i].at <= latest
  }

  /** `n` failures at the same time. */
  function FailuresAt(at: Time, n: nat): seq<Event> {
    if n == 0 then [] else FailuresAt(at, n - 1) + [Fail(at)]
  }

  lemma {:induction false} FailuresAtOrdered(at: Time, n: nat)
    ensures |FailuresAt(at, n)| == n && Ordered(FailuresAt(at, n))
    ensures forall i :: 0 <= i < n ==> FailuresAt(at, n)[i] == Fail(at)
    decreases n
  {
    if n > 0 { FailuresAtOrdered(at, n - 1); }
  }

  lemma {:induction false} CountAll(failures: seq<Time>, threshold: Time)
    requires forall i :: 0 <= i < |failures| ==> failures[i] > threshold
    ensures CountAfter(failures, threshold) == |failures|
    decreases |failures|
  {
    if failures != [] { CountAll(failures[..|failures| - 1], threshold); }
  }

  /** A record of `n` failures at one time, or of the lock that they set. */
  predicate Remembers(r: Record, l: Limits, at: Time, n: nat) {
    if n == l.maxFailures then r == Record([], Some(at + l.lockDuration))
    else |r.failures| == n && r.lockedUntil == None && forall i :: 0 <= i < n ==> r.failures[i] == at
  }

  lemma OneMoreRemembered(r: Record, l: Limits, at: Time, n: nat)
    requires Sensible(l) && n < l.maxFailures && Remembers(r, l, at, n)
    ensures Remembers(RecordStep(r, l, Fail(at)), l, at, n + 1)
  {
    hide CountAfter;
    CountAll(r.failures + [at], at - l.failureWindow);
  }

  /** Failures at one time are remembered until they complete the window. */
  lemma {:induction false} FailuresAtRemembered(l: Limits, at: Time, n: nat)
    requires Sensible(l) && n <= l.maxFailures
    ensures Remembers(RecordAfter(l, FailuresAt(at, n)), l, at, n)
    decreases n
  {
    hide *;
    FailuresAtNext(l, at, n);
    if n > 0 {
      FailuresAtRemembered(l, at, n - 1);
      RecordSnoc(l, FailuresAt(at, n - 1), Fail(at));
      OneMoreRemembered(RecordAfter(l, FailuresAt(at, n - 1)), l, at, n - 1);
    } else {
      NothingRemembered(l, at);
    }
  }

  lemma FailuresAtNext(l: Limits, at: Time, n: nat)
    ensures n > 0 ==> FailuresAt(at, n) == FailuresAt(at, n - 1) + [Fail(at)]
    ensures n == 0 ==> RecordAfter(l, FailuresAt(at, n)) == CLEAN
  {
  }

  lemma NothingRemembered(l: Limits, at: Time)
    requires Sensible(l)
    ensures Remembers(CLEAN, l, at, 0)
  {
  }

  /**
   A lock that has just run out is forgotten when the key is asked for, though an earlier clock reading is within it.
   */
  lemma ForgottenLock(l: Limits, latest: Time) returns (events: seq<Event>)
    requires Sensible(l)
    ensures HistoryUpTo(events, latest)
    ensures EntryAfter(l, events) == None && RecordAfter(l, events).lockedUntil == Some(latest)
  {
    hide RecordAfter, EntryAfter, Recent;
    var at := latest - l.lockDuration;
    var failures := FailuresAt(at, l.maxFailures);
    FailuresAtOrdered(at, l.maxFailures);
    FailuresAtRemembered(l, at, l.maxFailures);
    events := failures + [Ask(latest)];
    RecordSnoc(l, failures, Ask(latest));
    EntrySnoc(l, failures, Ask(latest));
    HistoryAgrees(l, failures, latest);
    assert Recent([], latest - l.failureWindow) == [] by { RecentNothing(latest - l.failureWindow); }
  }

  lemma RecentNothing(threshold: Time)
    ensures Recent([], threshold) == []
  {
  }

  lemma EntrySnoc(l: Limits, events: seq<Event>, e: Event)
    ensures EntryAfter(l, events + [e]) == EntryStep(EntryAfter(l, events), l, e)
  {
    assert (events + [e])[..|events|] == events;
  }

  /**
   For all limits and times: every history that runs up to `latest` is answered rightly at `now` if and only if the
   clock has not gone back. Otherwise some history ends in a lock that is forgotten although it is in force again.
   */
  lemma ClockMustNotGoBack(l: Limits, latest: Time, now: Time)
    requires Sensible(l)
    ensures (forall events :: HistoryUpTo(events, latest) ==> AnsweredRightly(l, events, now)) <==> latest <= now
  {
    hide RecordAfter, EntryAfter, RetryAfter;
    if latest <= now {
      forall events | HistoryUpTo(events, latest) ensures AnsweredRightly(l, events, now) {
        LimiterRefinesHistory(l, events, now);
      }
    } else {
      var events := ForgottenLock(l, latest);
      assert !AnsweredRightly(l, events, now);
    }
  }

  // ---- what a full window does, told from outside ----

  /** None of the failures counts. */
  lemma {:induction false} CountNone(failures: seq<Time>, threshold: Time)
    requires forall i :: 0 <= i < |failures| ==> failures[i] <= threshold
    ensures CountAfter(failures, threshold) == 0
    decreases |failures|
  {
    if failures != [] { CountNone(failures[..|failures| - 1], threshold); }
  }

  lemma LastFailureLocks(r: Record, l: Limits, at: Time, last: Time)
    requires Sensible(l) && Remembers(r, l, at, l.maxFailures - 1) && at <= last
    ensures Locks(r, l, last) <==> l.maxFailures == 1 || last - at < l.failureWindow
  {
    hide CountAfter;
    var threshold := last - l.failureWindow;
    CountSnoc(r.failures, last, threshold);
    if at > threshold { CountAll(r.failures, threshold); } else { CountNone(r.failures, threshold); }
  }

  /**
   For all limits and times: after all failures but one at one time and the last one later, a question is refused if and
   only if the last failure came less than a failure window after the others and the question less than a lock duration
   after it; the time told is what is left of the lock.
   */
  lemma FullWindowRefuses(l: Limits, at: Time, last: Time, now: Time)
    requires Sensible(l) && at <= last <= now
    ensures var answer := AllowAnswer(EntryAfter(l, FailuresAt(at, l.maxFailures - 1) + [Fail(last)]), now);
            && (answer.Some? <==>
                  (l.maxFailures == 1 || last - at < l.failureWindow) && now < last + l.lockDuration)
            && (answer.Some? ==> Announces(answer.value, last + l.lockDuration - now))
  {
    hide RecordAfter, EntryAfter, Locks, RetryAfter;
    var m := l.maxFailures - 1;
    var events := FailuresAt(at, m) + [Fail(last)];
    FailuresAtOrdered(at, m);
    FailuresAtRemembered(l, at, m);
    RecordSnoc(l, FailuresAt(at, m), Fail(last));
    LastFailureLocks(RecordAfter(l, FailuresAt(at, m)), l, at, last);
    LimiterRefinesHistory(l, events, now);
  }

  /** After a success every question is let through. */
  lemma SuccessForgives(l: Limits, events: seq<Event>, at: Time, now: Time)
    ensures AllowAnswer(EntryAfter(l, events + [Succeed(at)]), now) == None
  {
    EntrySnoc(l, events, Succeed(at));
  }

  // ---- counting ----

  lemma RecordSnoc(l: Limits, events: seq<Event>, e: Event)
    ensures RecordAfter(l, events + [e]) == RecordStep(RecordAfter(l, events), l, e)
  {
    assert (events + [e])[..|events|] == events;
  }

  lemma CountSnoc(failures: seq<Time>, at: Time, threshold: Time)
    ensures CountAfter(failures + [at], threshold)
            == CountAfter(failures, threshold) + (if at > threshold then 1 else 0)
  {
    assert (failures + [at])[..|failures|] == failures;
  }

  lemma {:induction false} CountMonotone(failures: seq<Time>, early: Time, late: Time)
    requires early <= late
    ensures CountAfter(failures, late) <= CountAfter(failures, early)
    decreases |failures|
  {
    if failures != [] { CountMonotone(failures[..|failures| - 1], early, late); }
  }

  lemma UnlockedCount(r: Record, l: Limits, at: Time)
    requires !Locks(r, l, at)
    ensures CountAfter(r.failures + [at], at - l.failureWindow) < l.maxFailures
  {
  }

  lemma {:induction false} CountAtMost(failures: seq<Time>, threshold: Time)
    ensures CountAfter(failures, threshold) <= |failures|
    decreases |failures|
  {
    if failures != [] { CountAtMost(failures[..|failures| - 1], threshold); }
  }

  lemma FewDoNotLock(r: Record, l: Limits, at: Time)
    requires |r.failures| + 1 < l.maxFailures
    ensures !Locks(r, l, at)
  {
    CountAtMost(r.failures + [at], at - l.failureWindow);
  }
}
