/**
 The generic retry loop and the coordinator's, and the one property that determines
 how often a retry loop of this shape calls its operation.
 */
module Retry {
  import opened Arithmetic
  import opened Wrappers
  import opened Backoff

  /** Call `calls - 1` is the last: it is final, and every earlier call was worth retrying. */
  ghost predicate StopsAfter<T(!new), E(!new)>(
      op: nat -> Result<T, E>, retryable: E -> bool, limit: nat, calls: nat)
  {
    && 1 <= calls <= limit
    && (forall j: nat :: j < calls - 1 ==> op(j).Failure? && retryable(op(j).error))
    && (op(calls - 1).Success? || !retryable(op(calls - 1).error) || calls == limit)
  }

  /** Retry loops with the same limit and classifier make the same calls. */
  lemma SameCalls<T(!new), E(!new)>(op: nat -> Result<T, E>, retryable: E -> bool, limit: nat, m: nat, n: nat)
    requires StopsAfter(op, retryable, limit, m) && StopsAfter(op, retryable, limit, n)
    ensures m == n
  {
    NotFewer(op, retryable, limit, m, n);
    NotFewer(op, retryable, limit, n, m);
  }

  lemma NotFewer<T(!new), E(!new)>(op: nat -> Result<T, E>, retryable: E -> bool, limit: nat, m: nat, n: nat)
    requires StopsAfter(op, retryable, limit, m) && StopsAfter(op, retryable, limit, n)
    ensures m >= n
  {
  }

  /** `retry_with_backoff`; `slept` is the total sleep in milliseconds. */
  method RetryWithBackoff<T(!new), E(!new)>(
      config: RetryConfig, op: nat -> Result<T, E>, retryable: E -> bool, nanos: nat -> nat)
    returns (r: Result<T, E>, calls: nat, slept: nat)
    ensures StopsAfter(op, retryable, Max(1, config.maxAttempts), calls)
    ensures r == op(calls - 1)
    ensures slept == TotalSleepMs(calls - 1, config, nanos)
  {
    var attempt := 0;
    slept := 0;
    while true
      invariant attempt < config.Limit()
      invariant forall j: nat :: j < attempt ==> op(j).Failure? && retryable(op(j).error)
      invariant slept == TotalSleepMs(attempt, config, nanos)
      decreases config.Limit() - attempt
    {
      attempt := attempt + 1;
      r := op(attempt - 1);
      calls := attempt;
      if r.Success? {
        return;
      }
      if !(retryable(r.error) && attempt < config.Limit()) {
        return;
      }
      slept := slept + DelayMs(attempt, config, nanos(attempt));
    }
  }

  const MAX_ATTEMPTS_PER_TICK: nat := 3

  /** The coordinator's `with_backoff`. */
  method WithBackoff<T(!new), E(!new)>(op: nat -> Result<T, E>, retryable: E -> bool)
    returns (r: Result<T, E>, calls: nat, slept: nat)
    ensures StopsAfter(op, retryable, 3, calls)
    ensures r == op(calls - 1)
    ensures slept == (if calls == 1 then 0 else if calls == 2 then 1000 else 3000)
  {
    var attempt := 0;
    slept := 0;
    while true
      invariant attempt < MAX_ATTEMPTS_PER_TICK
      invariant forall j: nat :: j < attempt ==> op(j).Failure? && retryable(op(j).error)
      invariant slept == (if attempt == 0 then 0 else if attempt == 1 then 1000 else 3000)
      decreases MAX_ATTEMPTS_PER_TICK - attempt
    {
      attempt := attempt + 1;
      r := op(attempt - 1);
      calls := attempt;
      if r.Success? {
        return;
      }
      if !(retryable(r.error) && attempt < MAX_ATTEMPTS_PER_TICK) {
        return;
      }
      assert Pow(2, 1) == 2 && Pow(2, 2) == 4;
      slept := slept + SyncDelayMs(attempt);
    }
  }

  /** What a whole retry loop can cost in sleep, by the cap and by the geometric growth. */
  lemma RetrySleepBound<T(!new), E(!new)>(
      config: RetryConfig, op: nat -> Result<T, E>, retryable: E -> bool, nanos: nat -> nat, calls: nat)
    requires StopsAfter(op, retryable, Max(1, config.maxAttempts), calls)
    ensures 5 * TotalSleepMs(calls - 1, config, nanos)
            <= 6 * (1000 * Max(1, config.maxDelaySecs)) * (Max(1, config.maxAttempts) - 1)
    ensures var k, base := Max(1, config.maxAttempts) - 1, 1000 * Max(1, config.baseDelaySecs);
            5 * (Pow(2, k) * TotalSleepMs(calls - 1, config, nanos))
            <= 18 * (base * Pow(3, k)) - 18 * (base * Pow(2, k))
  {
    var k := config.Limit() - 1;
    SleepGrows(calls - 1, k, config, nanos);
    TotalSleepCapped(k, config, nanos);
    TotalSleepGeometric(k, config, nanos);
    MulLess(Pow(2, k), TotalSleepMs(calls - 1, config, nanos), TotalSleepMs(k, config, nanos));
  }

  lemma {:induction false} SleepGrows(j: nat, k: nat, config: RetryConfig, nanos: nat -> nat)
    requires j <= k
    ensures TotalSleepMs(j, config, nanos) <= TotalSleepMs(k, config, nanos)
  {
    if j < k { SleepGrows(j, k - 1, config, nanos); }
  }
}
