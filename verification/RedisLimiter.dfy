/**
 The limiter shared through a Redis server. A Lua script keeps one fixed window per key; every failure and every success
 also goes to an in-memory limiter, which answers when the server cannot be reached.
 */
module RedisLimiter {
  import opened Wrappers
  import opened LoginLimiter

  const MILLISECOND: int := 1_000_000

  /** A duration as the script receives it: whole milliseconds, here again in nanoseconds. */
  function WholeMillis(duration: int): (d: int)
    requires duration > 0
    ensures 0 <= d <= duration && duration - d < MILLISECOND && d % MILLISECOND == 0
  {
    duration / MILLISECOND * MILLISECOND
  }

  datatype Counter = Counter(count: int, expires: Time)

  /** What the server holds for one attempt key: the lock with its expiry, and the failure counter with its own. */
  datatype Cells = Cells(lock: Option<Time>, counter: Option<Counter>)

  const EMPTY := Cells(None, None)

  predicate HasLock(c: Cells, now: Time) { c.lock.Some? && now < c.lock.value }

  predicate HasCounter(c: Cells, now: Time) { c.counter.Some? && now < c.counter.value.expires }

  /** The counter after one more failure. The first failure of a window starts its lifetime. */
  function Incremented(c: Cells, l: Limits, now: Time): Counter
    requires Sensible(l)
  {
    var count := (if HasCounter(c, now) then c.counter.value.count else 0) + 1;
    Counter(count, if count == 1 then now + WholeMillis(l.failureWindow) else c.counter.value.expires)
  }

  /** Does a failure at `now` make the script set the lock? A lifetime of zero milliseconds is refused by the server. */
  predicate SetsLock(c: Cells, l: Limits, now: Time)
    requires Sensible(l)
  {
    !HasLock(c, now) && Incremented(c, l, now).count >= l.maxFailures && WholeMillis(l.lockDuration) > 0
  }

  function ScriptStep(c: Cells, l: Limits, now: Time): Cells
    requires Sensible(l)
  {
    if HasLock(c, now) then c
    else if SetsLock(c, l, now) then Cells(Some(now + WholeMillis(l.lockDuration)), None)
    else Cells(None, Some(Incremented(c, l, now)))
  }

  /** What `Allow` says while the server answers: the lifetime left to the lock, in whole milliseconds, decides. */
  function ServerAnswer(c: Cells, now: Time): Option<int> {
    var left := if c.lock.Some? then (c.lock.value - now) / MILLISECOND * MILLISECOND else 0;
    if left > 0 then Some(RetryAfter(now + left, now)) else None
  }

  class Server {
    var locks: map<string, Time>
    var counters: map<string, Counter>

    function CellsOf(key: string): Cells
      reads this
    {
      Cells(if key in locks then Some(locks[key]) else None, if key in counters then Some(counters[key]) else None)
    }

    constructor ()
      ensures forall key :: CellsOf(key) == EMPTY
    {
      locks := map[];
      counters := map[];
    }

    /** `INCR`: a missing or expired counter counts as zero. */
    method Increment(key: string, now: Time) returns (count: int)
      modifies this`counters
      ensures count == (if HasCounter(old(CellsOf(key)), now) then old(CellsOf(key)).counter.value.count else 0) + 1
      ensures key in counters && counters[key].count == count && counters == old(counters)[key := counters[key]]
      ensures HasCounter(old(CellsOf(key)), now) ==> counters[key].expires == old(counters[key].expires)
    {
      if key !in counters || counters[key].expires <= now {
        counters := counters[key := Counter(0, now)];
      }
      count := counters[key].count + 1;
      counters := counters[key := counters[key].(count := count)];
    }

    /** The Lua script, command by command; the server runs it without interruption. `None` is a failed command. */
    method RecordFailureScript(key: string, l: Limits, now: Time) returns (answer: Option<int>)
      requires Sensible(l)
      modifies this
      ensures CellsOf(key) == ScriptStep(old(CellsOf(key)), l, now)
      ensures forall other :: other != key ==> CellsOf(other) == old(CellsOf(other))
      ensures answer == Some(1) <==> HasLock(CellsOf(key), now)
      ensures answer == None ==> WholeMillis(l.lockDuration) == 0
    {
      hide WholeMillis;
      if key in locks && now < locks[key] {
        return Some(1);
      }
      locks := locks - {key};
      var count := Increment(key, now);
      if count == 1 {
        counters := counters[key := counters[key].(expires := now + WholeMillis(l.failureWindow))];
      }
      assert counters[key] == Incremented(old(CellsOf(key)), l, now);
      if count >= l.maxFailures {
        if WholeMillis(l.lockDuration) <= 0 {
          return None;
        }
        locks := locks[key := now + WholeMillis(l.lockDuration)];
        counters := counters - {key};
        return Some(1);
      }
      return Some(0);
    }

    method Delete(key: string)
      modifies this
      ensures CellsOf(key) == EMPTY
      ensures forall other :: other != key ==> CellsOf(other) == old(CellsOf(other))
    {
      locks := locks - {key};
      counters := counters - {key};
    }
  }

  /** `reachable` says of each call whether the server answered within the command's time. */
  class SharedLimiter {
    const limits: Limits
    const server: Server
    const fallback: Limiter

    ghost predicate Valid()
      reads this, fallback, fallback.Repr
    {
      && Sensible(limits) && fallback.limits == limits && fallback.Valid()
      && server as object != fallback && server !in fallback.Repr && fallback !in fallback.Repr
    }

    constructor (server: Server, maxFailures: int, failureWindow: int, lockDuration: int)
      ensures Valid() && this.server == server && fallback.View() == map[] && fresh(fallback) && fresh(fallback.Repr)
      ensures limits == NewLimits(maxFailures, failureWindow, lockDuration)
    {
      var l := NewLimits(maxFailures, failureWindow, lockDuration);
      this.limits := l;
      this.server := server;
      this.fallback := new Limiter(l.maxFailures, l.failureWindow, l.lockDuration);
    }

    method Allow(key: string, now: Time, reachable: bool) returns (retryAfter: Option<int>)
      requires Valid()
      modifies fallback, fallback.Repr
      ensures Valid() && fresh(fallback.Repr - old(fallback.Repr))
      ensures key == "" ==> retryAfter == None
      ensures key == "" || reachable ==> fallback.View() == old(fallback.View())
      ensures key != "" && reachable ==> retryAfter == ServerAnswer(server.CellsOf(key), now)
      ensures key != "" && reachable ==>
                (retryAfter.Some? <==> key in server.locks && server.locks[key] - now >= MILLISECOND)
      ensures key != "" && reachable && retryAfter.Some? ==>
                exists left :: server.locks[key] - now - MILLISECOND < left <= server.locks[key] - now
                               && left % MILLISECOND == 0 && Announces(retryAfter.value, left)
      ensures key != "" && !reachable ==> retryAfter == AllowAnswer(Lookup(old(fallback.View()), key), now)
      ensures key != "" && !reachable ==>
                fallback.View() == Put(old(fallback.View()), key,
                                       AllowEntry(Lookup(old(fallback.View()), key), limits, now))
    {
      hide Limiter.View, Limiter.Valid, AllowAnswer, AllowEntry, Lookup, Put, RetryAfter;
      if key == "" {
        return None;
      }
      if !reachable {
        retryAfter := fallback.Allow(key, now);
        return;
      }
      // Without a lock the server reports a negative lifetime.
      var left := if key in server.locks then (server.locks[key] - now) / MILLISECOND * MILLISECOND else -2;
      if left > 0 {
        var told := RetryAfter(now + left, now);
        assert Announces(told, left);
        return Some(told);
      }
      return None;
    }

    method RecordFailure(key: string, now: Time, reachable: bool)
      requires Valid()
      modifies server, fallback, fallback.Repr
      ensures Valid() && fresh(fallback.Repr - old(fallback.Repr))
      ensures key == "" ==> fallback.View() == old(fallback.View())
      ensures key != "" ==>
                fallback.View() == Put(old(fallback.View()), key,
                                       Some(FailureEntry(Lookup(old(fallback.View()), key), limits, now)))
      ensures forall k :: server.CellsOf(k) == if k == key && key != "" && reachable
                                               then ScriptStep(old(server.CellsOf(k)), limits, now)
                                               else old(server.CellsOf(k))
    {
      hide Limiter.View, Limiter.Valid, Server.CellsOf, FailureEntry, Lookup, Put, ScriptStep;
      if key == "" {
        return;
      }
      fallback.RecordFailure(key, now);
      if reachable {
        var answer := server.RecordFailureScript(key, limits, now);
      }
    }

    method RecordSuccess(key: string, reachable: bool)
      requires Valid()
      modifies server, fallback
      ensures Valid() && fallback.Repr == old(fallback.Repr)
      ensures fallback.View() == if key == "" then old(fallback.View()) else Put(old(fallback.View()), key, None)
      ensures forall k :: server.CellsOf(k) == if k == key && key != "" && reachable then EMPTY
                                               else old(server.CellsOf(k))
    {
      hide Limiter.View, Limiter.Valid, Server.CellsOf, Put;
      if key == "" {
        return;
      }
      fallback.RecordSuccess(key);
      if reachable {
        server.Delete(key);
      }
    }
  }
}
