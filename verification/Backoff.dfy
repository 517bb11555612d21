/**
 Jittered exponential backoff in whole milliseconds. `1.5^n` is the exact rational
 3^n / 2^n; the jitter sample is the nanosecond reading of a clock and may be anything.
 */
module Backoff {
  import opened Arithmetic

  datatype RetryConfig = RetryConfig(maxAttempts: nat, baseDelaySecs: nat, maxDelaySecs: nat) {
    function Limit(): nat { Max(1, maxAttempts) }
    function BaseMs(): nat { 1000 * Max(1, baseDelaySecs) }
    function CapMs(): nat { 1000 * Max(1, maxDelaySecs) }
  }

  function Pow(b: nat, e: nat): nat {
    if e == 0 then 1 else b * Pow(b, e - 1)
  }

  lemma {:induction false} PowPositive(b: nat, e: nat)
    requires b > 0
    ensures Pow(b, e) > 0
  {
    if e > 0 { PowPositive(b, e - 1); }
  }

  /** floor(base * 1.5^attempt), before the cap. */
  function UncappedMs(attempt: nat, config: RetryConfig): nat {
    PowPositive(2, attempt);
    config.BaseMs() * Pow(3, attempt) / Pow(2, attempt)
  }

  function CappedMs(attempt: nat, config: RetryConfig): nat {
    Max(1, Min(UncappedMs(attempt, config), config.CapMs()))
  }

  /** `c` moved by up to a fifth either way, by the sample. */
  function Jittered(c: nat, nanos: nat): nat {
    var range := c / 5;
    if range == 0 then c else Max(1, c + nanos % (2 * range + 1) - range)
  }

  function DelayMs(attempt: nat, config: RetryConfig, nanos: nat): nat {
    Jittered(CappedMs(attempt, config), nanos)
  }

  /**
   With c the capped value, the delay stays within one fifth of c and below 6/5 of the cap.
   */
  lemma DelayBounds(attempt: nat, config: RetryConfig, nanos: nat)
    ensures var c, d := CappedMs(attempt, config), DelayMs(attempt, config, nanos);
            && d >= 1 && c - c / 5 <= d <= c + c / 5
            && 5 * d <= 6 * (1000 * Max(1, config.maxDelaySecs))
            && 5 * d <= 6 * c
  {
  }

  /** The capped value is the cap, or base * 1.5^attempt rounded down while that is below the cap. */
  lemma CappedIs(attempt: nat, config: RetryConfig)
    ensures var base, cap := 1000 * Max(1, config.baseDelaySecs), 1000 * Max(1, config.maxDelaySecs);
            var c, p, q := CappedMs(attempt, config), base * Pow(3, attempt), Pow(2, attempt);
            if cap * q <= p then c == cap else c * q <= p < (c + 1) * q
  {
    PowPositive(2, attempt);
    UncappedAtLeastOne(attempt, config);
    hide Pow;
    CappedFloor(config.BaseMs() * Pow(3, attempt), Pow(2, attempt), config.CapMs());
  }

  lemma CappedFloor(p: nat, q: nat, cap: nat)
    requires q > 0 && cap >= 1 && p / q >= 1
    ensures var c := Max(1, Min(p / q, cap));
            if cap * q <= p then c == cap else c * q <= p < (c + 1) * q
  {
    var u := p / q;
    FloorIs(p, q, u);
    if cap * q <= p && u < cap {
      MulLess(q, u + 1, cap);
    }
    if cap * q > p && u >= cap {
      MulLess(q, cap, u);
    }
  }

  /** Every delay within one fifth of the capped value occurs for some jitter sample. */
  lemma JitterIsOnto(attempt: nat, config: RetryConfig, d: nat)
    requires var c := CappedMs(attempt, config); d >= 1 && c - c / 5 <= d <= c + c / 5
    ensures exists nanos: nat :: DelayMs(attempt, config, nanos) == d
  {
    var c := CappedMs(attempt, config);
    hide CappedMs;
    JitteredIsOnto(c, d);
    assert DelayMs(attempt, config, d - (c - c / 5)) == d;
  }

  lemma JitteredIsOnto(c: nat, d: nat)
    requires d >= 1 && c - c / 5 <= d <= c + c / 5
    ensures Jittered(c, d - (c - c / 5)) == d
  {
    var range := c / 5;
    if range > 0 { SmallMod(d - (c - range), 2 * range + 1); }
  }

  lemma SmallMod(x: nat, m: nat)
    requires x < m
    ensures x % m == x
  {
  }

  /** Growing a quotient by 3/2 grows its floor by 3/2 up to one half. */
  lemma FloorGrows(a: nat, b: nat)
    requires b > 0
    ensures 3 * (a / b) <= 2 * (3 * a / (2 * b)) + 1
    ensures a / b <= 3 * a / (2 * b)
  {
    var q, r := a / b, 3 * a / (2 * b);
    QuotientBelow(a, b);
    assert 3 * a < 2 * b * (r + 1);
    assert b * (3 * q) == 3 * (b * q) && b * (2 * (r + 1)) == 2 * b * (r + 1);
    MulCancel(b, 3 * q, 2 * (r + 1));
  }

  lemma QuotientBelow(a: nat, b: nat)
    requires b > 0
    ensures b * (a / b) <= a
  {
  }

  lemma UncappedGrows(attempt: nat, config: RetryConfig)
    ensures var c, d := UncappedMs(attempt, config), UncappedMs(attempt + 1, config);
            c <= d && 3 * c <= 2 * d + 1
  {
    PowPositive(2, attempt);
    var a, b := config.BaseMs() * Pow(3, attempt), Pow(2, attempt);
    assert config.BaseMs() * Pow(3, attempt + 1) == 3 * a;
    assert Pow(2, attempt + 1) == 2 * b;
    FloorGrows(a, b);
  }

  lemma UncappedAtLeastOne(attempt: nat, config: RetryConfig)
    ensures UncappedMs(attempt, config) >= 1
    decreases attempt
  {
    if attempt > 0 {
      UncappedAtLeastOne(attempt - 1, config);
      UncappedGrows(attempt - 1, config);
    }
  }

  /**
   Backoff is monotone whatever the clock says: while the next attempt is not yet
   capped, every jittered delay of this attempt is at most every jittered delay of the next.
   */
  lemma DelaysGrow(attempt: nat, config: RetryConfig, nanos: nat, nanos': nat)
    requires UncappedMs(attempt + 1, config) <= config.CapMs()
    ensures DelayMs(attempt, config, nanos) <= DelayMs(attempt + 1, config, nanos')
  {
    UncappedGrows(attempt, config);
    UncappedAtLeastOne(attempt, config);
    DelayBounds(attempt, config, nanos);
    DelayBounds(attempt + 1, config, nanos');
  }

  /** Sleep before the retries of attempts 1..k. */
  function TotalSleepMs(k: nat, config: RetryConfig, nanos: nat -> nat): nat {
    if k == 0 then 0 else TotalSleepMs(k - 1, config, nanos) + DelayMs(k, config, nanos(k))
  }

  lemma {:induction false} TotalSleepCapped(k: nat, config: RetryConfig, nanos: nat -> nat)
    ensures 5 * TotalSleepMs(k, config, nanos) <= 6 * config.CapMs() * k
  {
    if k > 0 {
      TotalSleepCapped(k - 1, config, nanos);
      DelayBounds(k, config, nanos(k));
      hide DelayMs, CappedMs;
      OneMore(6 * config.CapMs(), k);
    }
  }

  lemma OneMore(c: nat, k: nat)
    requires k > 0
    ensures c * k == c * (k - 1) + c
  {
  }

  lemma Scaled(a: nat, b: nat, u: nat, d: nat)
    requires b * u <= a && 5 * d <= 6 * u
    ensures 5 * (b * d) <= 6 * a
  {
    MulLess(b, 5 * d, 6 * u);
    assert b * (5 * d) == 5 * (b * d) && b * (6 * u) == 6 * (b * u);
  }

  lemma DelayBelowPower(k: nat, config: RetryConfig, nanos: nat)
    ensures 5 * (Pow(2, k) * DelayMs(k, config, nanos)) <= 6 * (config.BaseMs() * Pow(3, k))
  {
    PowPositive(2, k);
    DelayBounds(k, config, nanos);
    UncappedAtLeastOne(k, config);
    var a, b := config.BaseMs() * Pow(3, k), Pow(2, k);
    assert UncappedMs(k, config) == a / b;
    assert 5 * DelayMs(k, config, nanos) <= 6 * (a / b);
    hide *;
    QuotientBelow(a, b);
    Scaled(a, b, a / b, DelayMs(k, config, nanos));
  }

  /** Geometric bound: the sleep is at most 6/5 of base * 3 * (1.5^k - 1), times 2^k throughout. */
  lemma {:induction false} TotalSleepGeometric(k: nat, config: RetryConfig, nanos: nat -> nat)
    ensures 5 * (Pow(2, k) * TotalSleepMs(k, config, nanos))
            <= 18 * (config.BaseMs() * Pow(3, k)) - 18 * (config.BaseMs() * Pow(2, k))
  {
    if k > 0 {
      TotalSleepGeometric(k - 1, config, nanos);
      DelayBelowPower(k, config, nanos(k));
      hide DelayMs;
      assert Pow(2, k) == 2 * Pow(2, k - 1) && Pow(3, k) == 3 * Pow(3, k - 1);
      assert TotalSleepMs(k, config, nanos)
             == TotalSleepMs(k - 1, config, nanos) + DelayMs(k, config, nanos(k));
      GeometricStep(config.BaseMs(), Pow(2, k - 1), Pow(3, k - 1),
                    TotalSleepMs(k - 1, config, nanos), DelayMs(k, config, nanos(k)));
    }
  }

  lemma GeometricStep(base: nat, p: nat, q: nat, t: nat, d: nat)
    requires 5 * (p * t) <= 18 * (base * q) - 18 * (base * p)
    requires 5 * ((2 * p) * d) <= 6 * (base * (3 * q))
    ensures 5 * ((2 * p) * (t + d)) <= 18 * (base * (3 * q)) - 18 * (base * (2 * p))
  {
    assert (2 * p) * (t + d) == 2 * (p * t) + (2 * p) * d;
    assert base * (3 * q) == 3 * (base * q) && base * (2 * p) == 2 * (base * p);
  }

  /** Powers are repeated products. */
  lemma {:induction false} PowIsProduct(b: nat, m: nat, n: nat)
    ensures Pow(b, 0) == 1 && Pow(b, 1) == b && Pow(b, m + n) == Pow(b, m) * Pow(b, n)
    decreases m
  {
    if m > 0 {
      PowIsProduct(b, m - 1, n);
      assert Pow(b, m) * Pow(b, n) == b * (Pow(b, m - 1) * Pow(b, n));
    }
  }

  lemma {:induction false} PowGrows(m: nat, n: nat)
    requires m <= n
    ensures Pow(2, m) <= Pow(2, n)
  {
    if m < n { PowGrows(m, n - 1); }
  }

  /** The clamp on the exponent never shows: the delay is 500 ms doubled per attempt up to 30 s. */
  lemma SyncDelayDoubles(attempt: nat)
    ensures SyncDelayMs(attempt) == Min(500 * Pow(2, attempt), 30_000)
  {
    if attempt > 6 {
      PowGrows(6, attempt);
      assert Pow(2, 3) == 8;
      PowIsProduct(2, 3, 3);
    }
  }

  /** The coordinator's own backoff: 500 ms doubled per attempt, at most 30 s. */
  function SyncDelayMs(attempt: nat): nat {
    Min(500 * Pow(2, Min(attempt, 6)), 30_000)
  }
}
