/** The pure lease and back-off arithmetic of the task worker. Durations and instants are integer nanoseconds. */
module RetryPolicy {
  import opened Wrappers

  type Time = int

  const MILLISECOND: int := 1_000_000
  const SECOND: int := 1000 * MILLISECOND

  /** How often a worker renews its lease. */
  function TaskHeartbeatInterval(lease: int): int {
    if lease <= 0 then 10 * SECOND
    else
      var interval := lease / 3;
      if interval <= 0 then lease
      else if interval < 50 * MILLISECOND then 50 * MILLISECOND
      else interval
  }

  /** `value << bits`. */
  function ShiftLeft(value: int, bits: nat): int {
    if bits == 0 then value else 2 * ShiftLeft(value, bits - 1)
  }

  /** The pause after the failure of attempt number `attempt`. */
  function TaskRetryBackoff(attempt: int): int {
    var low := if attempt <= 0 then 1 else attempt;
    var clamped := if low > 6 then 6 else low;
    var delay := ShiftLeft(SECOND, clamped - 1);
    if delay > 30 * SECOND then 30 * SECOND else delay
  }

  function NextTaskRetryAt(now: Time, attempt: int, maxAttempts: int, retryable: bool): Option<Time> {
    if !retryable || maxAttempts <= 0 || attempt >= maxAttempts then None
    else Some(now + TaskRetryBackoff(attempt))
  }

  /** The pauses after attempts 1 to `attempts`, added up. */
  function BackoffSum(attempts: nat): int {
    if attempts == 0 then 0 else BackoffSum(attempts - 1) + TaskRetryBackoff(attempts)
  }

  /** A lease can be renewed in time exactly when it is at least 50 ms (or degenerate, under 3 ns). */
  lemma HeartbeatFitsLease(lease: int)
    ensures TaskHeartbeatInterval(lease) <= lease <==> lease >= 50 * MILLISECOND || 0 < lease < 3
    ensures lease >= 150 * MILLISECOND ==> 3 * TaskHeartbeatInterval(lease) <= lease
    ensures TaskHeartbeatInterval(lease) > 0
    ensures lease >= 150 * MILLISECOND ==> lease - 3 < 3 * TaskHeartbeatInterval(lease)
    ensures lease <= 0 ==> TaskHeartbeatInterval(lease) == 10 * SECOND
    ensures 3 <= lease < 150 * MILLISECOND ==> TaskHeartbeatInterval(lease) == 50 * MILLISECOND
  {
    if 0 < lease {
      assert lease == 3 * (lease / 3) + lease % 3;
    }
  }

  lemma ShiftLeftSteps(value: int)
    ensures ShiftLeft(value, 0) == value
    ensures ShiftLeft(value, 1) == 2 * value
    ensures ShiftLeft(value, 2) == 4 * value
    ensures ShiftLeft(value, 3) == 8 * value
    ensures ShiftLeft(value, 4) == 16 * value
    ensures ShiftLeft(value, 5) == 32 * value
  {
    assert ShiftLeft(value, 3) == 2 * ShiftLeft(value, 2);
    assert ShiftLeft(value, 4) == 2 * ShiftLeft(value, 3);
    assert ShiftLeft(value, 5) == 2 * ShiftLeft(value, 4);
  }

  /** For every integer the pause lies between 1 s and 30 s. It doubles up to the cap and never shrinks. */
  lemma BackoffShape(attempt: int)
    ensures SECOND <= TaskRetryBackoff(attempt) <= 30 * SECOND
    ensures TaskRetryBackoff(attempt) <= TaskRetryBackoff(attempt + 1)
    ensures 1 <= attempt <= 4 ==> TaskRetryBackoff(attempt + 1) == 2 * TaskRetryBackoff(attempt)
    ensures attempt <= 1 <==> TaskRetryBackoff(attempt) == SECOND
    ensures attempt >= 6 <==> TaskRetryBackoff(attempt) == 30 * SECOND
  {
    ShiftLeftSteps(SECOND);
  }

  /** Back-off is monotone over all integers, not just neighbours. */
  lemma {:induction false} BackoffMonotone(a: int, b: int)
    requires a <= b
    ensures TaskRetryBackoff(a) <= TaskRetryBackoff(b)
    decreases b - a
  {
    if a < b {
      BackoffMonotone(a, b - 1);
      BackoffShape(b - 1);
    }
  }
}
