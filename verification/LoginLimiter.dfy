/** The in-memory login limiter: per key, the failures in a sliding window, compacted in place, and a lock. */
module LoginLimiter {
  import opened Wrappers

  type Time = int

  const SECOND: int := 1_000_000_000

  datatype Limits = Limits(maxFailures: int, failureWindow: int, lockDuration: int)

  /** The defaults replace options that are not positive, and no others. */
  function NewLimits(maxFailures: int, failureWindow: int, lockDuration: int): (l: Limits)
    ensures Sensible(l)
    ensures l.maxFailures == maxFailures <==> maxFailures > 0
    ensures l.failureWindow == failureWindow <==> failureWindow > 0
    ensures l.lockDuration == lockDuration <==> lockDuration > 0
    ensures maxFailures <= 0 && failureWindow <= 0 && lockDuration <= 0 ==> l == Limits(5, 900 * SECOND, 900 * SECOND)
  {
    Limits(if maxFailures <= 0 then 5 else maxFailures,
           if failureWindow <= 0 then 15 * 60 * SECOND else failureWindow,
           if lockDuration <= 0 then 15 * 60 * SECOND else lockDuration)
  }

  predicate Sensible(l: Limits) {
    l.maxFailures > 0 && l.failureWindow > 0 && l.lockDuration > 0
  }

  /** A key's entry, as a value. */
  datatype Entry = Entry(failures: seq<Time>, lockedUntil: Option<Time>)

  type Book = map<string, Entry>

  const FRESH := Entry([], None)

  /** The failures later than `threshold`, in order. */
  function Recent(failures: seq<Time>, threshold: Time): (r: seq<Time>)
    ensures |r| <= |failures|
    ensures forall i :: 0 <= i < |r| ==> r[i] > threshold
  {
    if failures == [] then []
    else Recent(failures[..|failures| - 1], threshold)
         + (if failures[|failures| - 1] > threshold then [failures[|failures| - 1]] else [])
  }

  lemma RecentNext(failures: seq<Time>, i: nat, threshold: Time)
    requires i < |failures|
    ensures Recent(failures[..i + 1], threshold)
            == Recent(failures[..i], threshold) + (if failures[i] > threshold then [failures[i]] else [])
  {
    assert failures[..i + 1][..i] == failures[..i];
  }

  lemma RecentNone(failures: seq<Time>, threshold: Time)
    ensures Recent(failures[..0], threshold) == []
  {
  }

  function Pruned(e: Entry, l: Limits, now: Time): Entry {
    e.(failures := Recent(e.failures, now - l.failureWindow))
  }

  predicate Locked(lockedUntil: Option<Time>, now: Time) {
    lockedUntil.Some? && lockedUntil.value > now
  }

  /** The waiting time shown to the caller: to the nearest second, and never less than one. */
  function RetryAfter(lockedUntil: Time, now: Time): (r: int)
    ensures r % SECOND == 0 && r >= SECOND
    ensures lockedUntil - now >= SECOND ==> -SECOND < 2 * (r - (lockedUntil - now)) <= SECOND
    ensures lockedUntil - now < SECOND ==> r == SECOND
  {
    var remaining := (lockedUntil - now + SECOND / 2) / SECOND * SECOND;
    if remaining < SECOND then SECOND else remaining
  }

  /** The waiting time told for a lock with `left` to go: whole seconds, at least one, to the nearest. */
  predicate Announces(told: int, left: int) {
    && told % SECOND == 0 && told >= SECOND
    && (left >= SECOND ==> -SECOND < 2 * (told - left) <= SECOND)
    && (left < SECOND ==> told == SECOND)
  }

  function AllowAnswer(e: Option<Entry>, now: Time): Option<int> {
    if e.Some? && Locked(e.value.lockedUntil, now) then Some(RetryAfter(e.value.lockedUntil.value, now)) else None
  }

  /** A question is refused exactly while the lock lasts, with the time that is left. */
  lemma AnswerMeans(b: Book, key: string, now: Time)
    ensures var answer := AllowAnswer(Lookup(b, key), now);
            && (answer.Some? <==> key in b && b[key].lockedUntil.Some? && b[key].lockedUntil.value > now)
            && (answer.Some? ==> Announces(answer.value, b[key].lockedUntil.value - now))
  {
    hide RetryAfter;
  }

  /** The entry after a question: pruned, and forgotten when neither a lock nor a failure is left. */
  function AllowEntry(e: Option<Entry>, l: Limits, now: Time): Option<Entry> {
    if e.None? then None
    else
      var p := Pruned(e.value, l, now);
      if !Locked(p.lockedUntil, now) && p.failures == [] then None else Some(p)
  }

  function FailureEntry(e: Option<Entry>, l: Limits, now: Time): Entry {
    var p := Pruned(if e.Some? then e.value else FRESH, l, now);
    var failures := p.failures + [now];
    if |failures| >= l.maxFailures then Entry([], Some(now + l.lockDuration)) else p.(failures := failures)
  }

  function Lookup(b: Book, key: string): Option<Entry> {
    if key in b then Some(b[key]) else None
  }

  function Put(b: Book, key: string, e: Option<Entry>): Book {
    if e.Some? then b[key := e.value] else b - {key}
  }

  class AttemptState {
    var failures: array<Time>
    var count: nat
    var lockedUntil: Option<Time>

    constructor ()
      ensures fresh(failures) && count == 0 && lockedUntil == None
    {
      failures := new Time[0];
      count := 0;
      lockedUntil := None;
    }

    ghost function View(): Entry
      reads this, failures
      requires count <= failures.Length
    {
      Entry(failures[..count], lockedUntil)
    }

    /** Moves the failures that are still in the window to the front of the same array. */
    method PruneFailures(l: Limits, now: Time)
      requires count <= failures.Length
      modifies this`count, failures
      ensures count <= failures.Length && View() == Pruned(old(View()), l, now)
    {
      hide Recent;
      var threshold := now - l.failureWindow;
      var items, n := failures, count;
      var kept := 0;
      ghost var before := items[..];
      RecentNone(before, threshold);
      for i := 0 to n
        invariant failures == items && count == n && lockedUntil == old(lockedUntil)
        invariant kept <= i
        invariant items[..kept] == Recent(before[..i], threshold)
        invariant forall j :: i <= j < items.Length ==> items[j] == before[j]
      {
        RecentNext(before, i, threshold);
        if items[i] > threshold {
          items[kept] := items[i];
          kept := kept + 1;
        }
      }
      assert before[..n] == old(failures[..count]);
      count := kept;
    }

    /** Adds a failure, moving to a larger array when the current one is full. */
    method Append(at: Time)
      requires count <= failures.Length
      modifies this`count, this`failures, failures
      ensures count <= failures.Length
      ensures View() == old(View()).(failures := old(View()).failures + [at])
      ensures failures == old(failures) || fresh(failures)
    {
      if count == failures.Length {
        var items, n := failures, count;
        var larger := new Time[2 * n + 1];
        for i := 0 to n
          invariant failures == items && count == n && lockedUntil == old(lockedUntil)
          invariant items[..] == old(failures[..])
          invariant forall j :: 0 <= j < i ==> larger[j] == items[j]
        {
          larger[i] := items[i];
        }
        failures := larger;
        assert failures[..n] == old(failures[..count]);
      }
      failures[count] := at;
      count := count + 1;
    }
  }

  class Limiter {
    const limits: Limits
    var states: map<string, AttemptState>
    ghost var Repr: set<object>

    /** Every key has a state and an array of its own. */
    ghost predicate Valid()
      reads this, Repr
    {
      && (forall k :: k in states ==> states[k] in Repr && states[k].failures in Repr)
      && (forall k :: k in states ==> states[k].count <= states[k].failures.Length)
      && (forall k, k' :: k in states && k' in states && k != k' ==> Apart(states[k], states[k']))
    }

    static ghost predicate Apart(a: AttemptState, b: AttemptState)
      reads a, b
    {
      a != b && a.failures != b.failures
    }

    ghost function View(): Book
      requires Valid()
      reads this, Repr
    {
      map k | k in states :: states[k].View()
    }

    constructor (maxFailures: int, failureWindow: int, lockDuration: int)
      ensures Valid() && View() == map[] && Repr == {}
      ensures limits == NewLimits(maxFailures, failureWindow, lockDuration)
    {
      limits := NewLimits(maxFailures, failureWindow, lockDuration);
      states := map[];
      Repr := {};
    }

    /** Only `state` and its array have been touched, and the array may be a new one. */
    twostate predicate OnlyTouched(state: AttemptState)
      reads this, Repr, state, state.failures
    {
      && state.count <= state.failures.Length
      && (state.failures == old(state.failures) || fresh(state.failures))
    }

    twostate lemma StillValid(key: string)
      requires old(Valid()) && key in states && states == old(states)
      requires states[key].failures in Repr && old(Repr) <= Repr
      requires OnlyTouched(states[key])
      requires forall k :: k in states && k != key ==> unchanged(states[k])
      ensures Valid()
    {
      forall k, k' | k in states && k' in states && k != k' ensures Apart(states[k], states[k']) {
        assert old(Apart(states[k], states[k']));
      }
    }

    /** When only the state of `key` has been touched, only its entry differs. */
    twostate lemma OnlyEntryChanged(key: string)
      requires old(Valid()) && key in states && states == old(states)
      requires states[key].failures in Repr && old(Repr) <= Repr
      requires OnlyTouched(states[key])
      requires forall k :: k in states && k != key ==> unchanged(states[k]) && unchanged(states[k].failures)
      ensures Valid() && View() == old(View())[key := states[key].View()]
    {
      StillValid(key);
    }

    method Allow(key: string, now: Time) returns (retryAfter: Option<int>)
      requires Valid()
      modifies this, Repr
      ensures Valid() && fresh(Repr - old(Repr))
      ensures key == "" ==> retryAfter == None && View() == old(View())
      ensures key != "" ==> retryAfter == AllowAnswer(Lookup(old(View()), key), now)
      ensures key != "" ==>
                (retryAfter.Some? <==> key in old(View()) && old(View())[key].lockedUntil.Some?
                                       && old(View())[key].lockedUntil.value > now)
      ensures key != "" && retryAfter.Some? ==>
                Announces(retryAfter.value, old(View())[key].lockedUntil.value - now)
      ensures key != "" ==> View() == Put(old(View()), key, AllowEntry(Lookup(old(View()), key), limits, now))
    {
      hide *;
      ghost var before := View();
      if key == "" {
        return None;
      }
      AnswerMeans(before, key, now);
      StateOwned(key);
      if key !in states {
        UnknownAllowed(before, key, now);
        return None;
      }
      Prune(key, now);
      StateOwned(key);
      var state := states[key];
      PrunedAllowed(before, key, now, state.View());
      StateParts(state);
      if state.lockedUntil.Some? && state.lockedUntil.value > now {
        return Some(RetryAfter(state.lockedUntil.value, now));
      }
      if state.count == 0 {
        RecordSuccess(key);
      }
      return None;
    }

    lemma StateParts(state: AttemptState)
      requires state.count <= state.failures.Length
      ensures state.View().lockedUntil == state.lockedUntil && (state.View().failures == [] <==> state.count == 0)
    {
    }

    lemma UnknownAllowed(before: Book, key: string, now: Time)
      requires key !in before
      ensures AllowAnswer(Lookup(before, key), now) == None
      ensures Put(before, key, AllowEntry(Lookup(before, key), limits, now)) == before
    {
    }

    /** The answer and the entry, told from the pruned entry `p`. */
    lemma PrunedAllowed(before: Book, key: string, now: Time, p: Entry)
      requires key in before && p == Pruned(before[key], limits, now)
      ensures p.lockedUntil.Some? && p.lockedUntil.value > now ==>
                AllowAnswer(Lookup(before, key), now) == Some(RetryAfter(p.lockedUntil.value, now))
      ensures !(p.lockedUntil.Some? && p.lockedUntil.value > now) ==> AllowAnswer(Lookup(before, key), now) == None
      ensures Put(before, key, AllowEntry(Lookup(before, key), limits, now))
              == if !(p.lockedUntil.Some? && p.lockedUntil.value > now) && p.failures == []
                 then Put(before[key := p], key, None) else before[key := p]
    {
      hide Recent, RetryAfter;
    }

    lemma StateOwned(key: string)
      requires Valid()
      ensures key in View() <==> key in states
      ensures key in states ==> states[key] in Repr && states[key].failures in Repr
      ensures key in states ==> states[key].count <= states[key].failures.Length && View()[key] == states[key].View()
    {
    }

    /** Prunes the state of a known key. */
    method Prune(key: string, now: Time)
      requires Valid() && key in states
      modifies states[key], states[key].failures
      ensures Valid() && states == old(states) && Repr == old(Repr)
      ensures View() == old(View())[key := Pruned(old(View())[key], limits, now)]
      ensures states[key].failures == old(states[key].failures) && states[key].count <= states[key].failures.Length
      ensures states[key].View() == View()[key]
    {
      assert forall k :: k in states && k != key ==> Apart(states[k], states[key]);
      states[key].PruneFailures(limits, now);
      OnlyEntryChanged(key);
      StateOwned(key);
    }

    method RecordFailure(key: string, now: Time)
      requires Valid()
      modifies this, Repr
      ensures Valid() && fresh(Repr - old(Repr))
      ensures key == "" ==> View() == old(View())
      ensures key != "" ==> View() == Put(old(View()), key, Some(FailureEntry(Lookup(old(View()), key), limits, now)))
    {
      hide *;
      if key == "" {
        return;
      }
      ghost var before := View();
      EnsureState(key);
      StateOwned(key);
      ghost var present := View();
      Prune(key, now);
      StateOwned(key);
      AddFailure(key, now);
      FailureInSteps(before, present, key, now);
    }

    lemma FailureInSteps(before: Book, present: Book, key: string, now: Time)
      requires present == if key in before then before else before[key := FRESH]
      ensures key in present
      ensures var pruned := Pruned(present[key], limits, now);
              var failures := pruned.failures + [now];
              present[key := pruned][key := if |failures| >= limits.maxFailures
                                            then Entry([], Some(now + limits.lockDuration))
                                            else pruned.(failures := failures)]
              == Put(before, key, Some(FailureEntry(Lookup(before, key), limits, now)))
    {
      hide Recent;
    }

    /** Adds a failure to the state of a known key, and locks it when there are enough. */
    method AddFailure(key: string, now: Time)
      requires Valid() && key in states
      modifies this`Repr, states[key], states[key].failures
      ensures Valid() && fresh(Repr - old(Repr)) && states == old(states)
      ensures var failures := old(View())[key].failures + [now];
              View() == old(View())[key := if |failures| >= limits.maxFailures
                                           then Entry([], Some(now + limits.lockDuration))
                                           else old(View())[key].(failures := failures)]
    {
      assert forall k :: k in states && k != key ==> Apart(states[k], states[key]);
      var state := states[key];
      state.Append(now);
      if state.count >= limits.maxFailures {
        state.failures := new Time[0];
        state.count := 0;
        state.lockedUntil := Some(now + limits.lockDuration);
      }
      Repr := Repr + {state.failures};
      OnlyEntryChanged(key);
    }

    /** A key without a state gets an empty one. */
    method EnsureState(key: string)
      requires Valid()
      modifies this
      ensures Valid() && fresh(Repr - old(Repr)) && key in states
      ensures View() == (if key in old(View()) then old(View()) else old(View())[key := FRESH])
    {
      if key !in states {
        var created := new AttemptState();
        states := states[key := created];
        Repr := Repr + {created, created.failures};
        StateAdded(key, created);
      }
    }

    twostate lemma StateAddedValid(key: string, new created: AttemptState)
      requires old(Valid()) && key !in old(states) && states == old(states)[key := created]
      requires fresh(created) && fresh(created.failures) && created.count == 0 && created.lockedUntil == None
      requires Repr == old(Repr) + {created, created.failures}
      requires forall k :: k in old(states) ==> unchanged(old(states)[k]) && unchanged(old(states)[k].failures)
      ensures Valid()
    {
      forall k, k' | k in states && k' in states && k != k' ensures Apart(states[k], states[k']) {
        if k != key && k' != key {
          assert old(Apart(states[k], states[k']));
        } else if k == key {
          assert old(allocated(states[k'].failures));
        } else {
          assert old(allocated(states[k].failures));
        }
      }
    }

    twostate lemma StateAdded(key: string, new created: AttemptState)
      requires old(Valid()) && key !in old(states) && states == old(states)[key := created]
      requires fresh(created) && fresh(created.failures) && created.count == 0 && created.lockedUntil == None
      requires Repr == old(Repr) + {created, created.failures}
      requires forall k :: k in old(states) ==> unchanged(old(states)[k]) && unchanged(old(states)[k].failures)
      ensures Valid() && View() == old(View())[key := FRESH]
    {
      StateAddedValid(key, created);
      hide Apart, Valid;
      assert created.View() == FRESH;
    }

    twostate lemma ForgottenValid(key: string)
      requires old(Valid()) && states == old(states) - {key} && Repr == old(Repr)
      requires forall k :: k in states ==> unchanged(states[k])
      ensures Valid()
    {
      forall k, k' | k in states && k' in states && k != k' ensures Apart(states[k], states[k']) {
        assert old(Apart(states[k], states[k']));
      }
    }

    twostate lemma Forgotten(key: string)
      requires old(Valid()) && states == old(states) - {key} && Repr == old(Repr)
      requires forall k :: k in states ==> unchanged(states[k]) && unchanged(states[k].failures)
      ensures Valid() && View() == Put(old(View()), key, None)
    {
      ForgottenValid(key);
      hide Apart, Valid;
    }

    method RecordSuccess(key: string)
      requires Valid()
      modifies this
      ensures Valid() && Repr == old(Repr)
      ensures View() == (if key == "" then old(View()) else Put(old(View()), key, None))
    {
      if key == "" {
        return;
      }
      states := states - {key};
      Forgotten(key);
    }
  }
}
