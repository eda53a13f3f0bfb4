/**
 * Retry policies: which failures are retried and how long the daemon waits before the next attempt.
 *
 * Durations are int64 nanoseconds in the original. Seconds times 10^9, the doubling and the conversion of the jittered
 * delay from a float can each leave that range, so this is modelled, and the lemmas below say exactly for which
 * policies it is never observed.
 */
module Retry {
  import opened Basics

  const SECOND := 1_000_000_000
  const DEFAULT_MAX_ATTEMPTS := 1
  const DEFAULT_BASE_DELAY := 5_000_000_000
  const DEFAULT_MAX_DELAY := 300_000_000_000
  const MAX_RETRY_ATTEMPTS := 10
  const JITTER_PERCENT := 20.0
  const TWO_62 := 0x4000_0000_0000_0000
  const TWO_63 := 0x8000_0000_0000_0000
  const TWO_64 := 0x1_0000_0000_0000_0000

  /** codes == [] means "the default whitelist"; otherwise a subset of it. */
  datatype RetryPolicy = RetryPolicy(maxAttempts: int, baseDelay: int, maxDelay: int, codes: seq<Code>)

  /** What is submitted. Durations are in seconds; zero asks for the default. */
  datatype RetrySpec = RetrySpec(maxAttempts: int, baseDelaySeconds: int, maxDelaySeconds: int, codes: seq<Code>)

  /** Two's complement wrap-around of an int64. */
  function Wrap64(x: int): int {
    (x + TWO_63) % TWO_64 - TWO_63
  }

  /** How every policy comes about, at submission and when it is read back. */
  function FromSpec(spec: RetrySpec): RetryPolicy {
    var base, maxDelay := Wrap64(spec.baseDelaySeconds * SECOND), Wrap64(spec.maxDelaySeconds * SECOND);
    RetryPolicy(
      if spec.maxAttempts == 0 then DEFAULT_MAX_ATTEMPTS else spec.maxAttempts,
      if base == 0 then DEFAULT_BASE_DELAY else base,
      if maxDelay == 0 then DEFAULT_MAX_DELAY else maxDelay,
      spec.codes)
  }

  /** The zero value, also used when a stored policy cannot be parsed: never retry. */
  const NO_RETRY := RetryPolicy(0, 0, 0, [])

  function DefaultRetryable(): set<Code> {
    {ExecTimeout, ExecExitNonZero, RuntimeNotReady, DaemonRestarted, BackupPreflightFailed, BackupVerifyFailed}
  }

  function NeverRetryable(): set<Code> {
    {ExecCancelled, PermissionDenied, LockBusy, SecretUnresolved, Internal, ConfigInvalid, InvalidRequest, ManifestInvalid}
  }

  predicate Enabled(p: RetryPolicy) {
    p.maxAttempts > 1
  }

  predicate Valid(p: RetryPolicy) {
    && 1 <= p.maxAttempts <= MAX_RETRY_ATTEMPTS
    && 0 <= p.baseDelay
    && 0 <= p.maxDelay
    && (p.maxDelay > 0 ==> p.baseDelay <= p.maxDelay)
    && forall c | c in p.codes :: c !in NeverRetryable() && c in DefaultRetryable()
  }

  predicate Retryable(p: RetryPolicy, code: Code) {
    && Enabled(p)
    && code !in NeverRetryable()
    && code in DefaultRetryable()
    && (p.codes == [] || code in p.codes)
  }

  /** A request can only narrow the whitelist, and a narrower list never retries more. */
  lemma NarrowingOnlyRemoves(p: RetryPolicy, q: RetryPolicy, code: Code)
    requires p.maxAttempts == q.maxAttempts
    requires q.codes == [] || (p.codes != [] && forall c | c in p.codes :: c in q.codes)
    ensures Retryable(p, code) ==> Retryable(q, code)
    ensures Retryable(p, code) ==> code in DefaultRetryable() && code !in NeverRetryable()
  {
  }

  // ---- Back-off ----

  /** delay *= 2 on an int64. */
  function Double64(x: int): int {
    var y := x + x;
    if y >= TWO_63 then y - TWO_64 else if y < -TWO_63 then y + TWO_64 else y
  }

  function Pow2(n: nat): (r: nat)
    ensures r >= 1
  {
    if n == 0 then 1 else 2 * Pow2(n - 1)
  }

  /** The value of delay after n rounds of the doubling loop, including its early exit. */
  function Doubled(delay: int, maxDelay: int, n: nat): int
    decreases n
  {
    if n == 0 then delay
    else
      var next := Double64(delay);
      if next >= maxDelay then maxDelay else Doubled(next, maxDelay, n - 1)
  }

  function EffectiveBase(p: RetryPolicy): (r: int)
    ensures r > 0
  {
    if p.baseDelay <= 0 then DEFAULT_BASE_DELAY else p.baseDelay
  }

  function EffectiveMax(p: RetryPolicy): (r: int)
    ensures r > 0
  {
    if p.maxDelay <= 0 then DEFAULT_MAX_DELAY else p.maxDelay
  }

  function Unjittered(p: RetryPolicy, attempt: int): int {
    var n := if attempt < 1 then 0 else attempt - 1;
    Min(Doubled(EffectiveBase(p), EffectiveMax(p), n), EffectiveMax(p))
  }

  /**
   * Conversion of a float to an int64 truncates toward zero. Out of range the language leaves the result open; this is
   * what the conversion instruction of amd64 gives.
   */
  function ToInt64(x: real): int {
    var n := if x >= 0.0 then x.Floor else -((-x).Floor);
    if -TWO_63 <= n < TWO_63 then n else -TWO_63
  }

  function JitterFactor(jitter: real): (f: real)
    ensures 0.8 <= f <= 1.2
  {
    var j := if jitter < 0.0 then 0.0 else if jitter > 1.0 then 1.0 else jitter;
    1.0 + (j * 2.0 - 1.0) * JITTER_PERCENT / 100.0
  }

  function Product(delay: int, factor: real): real {
    delay as real * factor
  }

  function Scaled(delay: int, jitter: real): int {
    ToInt64(Product(delay, JitterFactor(jitter)))
  }

  /** The jitter is applied last, and the cap is absolute: it holds after the jitter too. */
  function Jittered(delay: int, maxDelay: int, jitter: real): int {
    Max(0, Min(maxDelay, Scaled(delay, jitter)))
  }

  function DelayFor(p: RetryPolicy, attempt: int, jitter: real): int {
    Jittered(Unjittered(p, attempt), EffectiveMax(p), jitter)
  }

  method Backoff(base: int, maxDelay: int, attempt: int) returns (delay: int)
    requires attempt >= 1
    ensures delay == Min(Doubled(base, maxDelay, attempt - 1), maxDelay)
  {
    delay := base;
    var i := 1;
    while i < attempt
      invariant 1 <= i <= attempt
      invariant Doubled(delay, maxDelay, attempt - i) == Doubled(base, maxDelay, attempt - 1)
    {
      delay := Double64(delay);
      if delay >= maxDelay {
        delay := maxDelay;
        break;
      }
      i := i + 1;
    }
    if delay > maxDelay {
      delay := maxDelay;
    }
  }

  method NextDelay(p: RetryPolicy, attempt: int, jitter: real) returns (delay: int)
    ensures delay == DelayFor(p, attempt, jitter)
    ensures 0 <= delay <= EffectiveMax(p)
  {
    var base := p.baseDelay;
    if base <= 0 {
      base := DEFAULT_BASE_DELAY;
    }
    var maxDelay := p.maxDelay;
    if maxDelay <= 0 {
      maxDelay := DEFAULT_MAX_DELAY;
    }
    var n := attempt;
    if n < 1 {
      n := 1;
    }
    delay := Backoff(base, maxDelay, n);
    delay := Scaled(delay, jitter);
    if delay > maxDelay {
      delay := maxDelay;
    }
    if delay < 0 {
      delay := 0;
    }
  }

  /**
   * On the way to any attempt the policy allows, no value that the loop doubles is 2^62 or more: neither the base
   * itself nor a power-of-two multiple of it that is still below the cap.
   */
  ghost predicate NeverOverflows(p: RetryPolicy) {
    p.maxAttempts > 2 ==>
      && EffectiveBase(p) < TWO_62
      && forall j: nat | j < p.maxAttempts - 2 :: !(TWO_62 <= EffectiveBase(p) * Pow2(j) < EffectiveMax(p))
  }

  /** A failed attempt that is followed by another one. */
  predicate Retried(p: RetryPolicy, attempt: int) {
    1 <= attempt < p.maxAttempts
  }

  /** The documented delay before jitter. */
  function Documented(p: RetryPolicy, attempt: int): int
    requires attempt >= 1
  {
    Min(EffectiveBase(p) * Pow2(attempt - 1), EffectiveMax(p))
  }

  lemma {:induction false} Pow2Monotone(a: nat, b: nat)
    requires a <= b
    ensures Pow2(a) <= Pow2(b)
  {
    if a < b {
      Pow2Monotone(a, b - 1);
    }
  }

  lemma MulMonotone(x: int, k: int, l: int)
    requires x > 0 && k <= l
    ensures x * k <= x * l
  {
    assert x * l == x * k + x * (l - k);
    assert x * (l - k) >= 0;
  }

  lemma ShiftPower(delay: int, n: nat)
    requires n > 0
    ensures delay * Pow2(n) == (delay + delay) * Pow2(n - 1)
  {
  }

  /** While no doubled value reaches 2^62, the loop computes base * 2^n, capped. */
  lemma {:induction false} DoubledIsCappedPower(delay: int, maxDelay: int, n: nat)
    decreases n
    requires 0 < delay < TWO_62 && 0 < maxDelay
    requires forall j: nat | j < n :: !(TWO_62 <= delay * Pow2(j) < maxDelay)
    ensures Min(Doubled(delay, maxDelay, n), maxDelay) == Min(delay * Pow2(n), maxDelay)
  {
    if n > 0 {
      ShiftPower(delay, n);
      var next := delay + delay;
      if next >= maxDelay {
        MulMonotone(next, 1, Pow2(n - 1));
      } else if n > 1 {
        forall j: nat | j < n - 1
          ensures !(TWO_62 <= next * Pow2(j) < maxDelay)
        {
          ShiftPower(delay, j + 1);
        }
        assert next * Pow2(0) == next;
        assert next < TWO_62;
        DoubledIsCappedPower(next, maxDelay, n - 1);
      }
    }
  }

  /** If base * 2^j is still below the cap, the loop arrives at exactly that value after j rounds. */
  lemma {:induction false} DoubledReaches(delay: int, maxDelay: int, j: nat, n: nat)
    decreases j
    requires 0 < delay && j <= n
    requires delay * Pow2(j) < maxDelay && delay * Pow2(j) < TWO_63
    ensures Doubled(delay, maxDelay, n) == Doubled(delay * Pow2(j), maxDelay, n - j)
  {
    if j > 0 {
      assert delay * Pow2(j) == (delay * 2) * Pow2(j - 1);
      MulMonotone(delay * 2, 1, Pow2(j - 1));
      DoubledReaches(delay * 2, maxDelay, j - 1, n - 1);
    }
  }

  /** The code computes the documented delay for every attempt that is retried exactly when no doubling overflows. */
  lemma UnjitteredIsExact(p: RetryPolicy)
    requires EffectiveBase(p) < TWO_63 && EffectiveMax(p) < TWO_63
    ensures (forall attempt: nat | Retried(p, attempt) :: Unjittered(p, attempt) == Documented(p, attempt))
            <==> NeverOverflows(p)
  {
    if NeverOverflows(p) {
      forall attempt: nat | Retried(p, attempt)
        ensures Unjittered(p, attempt) == Documented(p, attempt)
      {
        NoOverflowMeansDocumented(p, attempt);
      }
    } else {
      var attempt := OverflowShows(p);
      assert Retried(p, attempt) && Unjittered(p, attempt) != Documented(p, attempt);
    }
  }

  lemma NoOverflowMeansDocumented(p: RetryPolicy, attempt: int)
    requires NeverOverflows(p) && Retried(p, attempt) && EffectiveBase(p) < TWO_63
    ensures Unjittered(p, attempt) == Documented(p, attempt)
  {
    if attempt > 1 {
      DoubledIsCappedPower(EffectiveBase(p), EffectiveMax(p), attempt - 1);
    }
  }

  /** An overflow makes the delay of some attempt negative, where the documented one is at least 2^62. */
  lemma OverflowShows(p: RetryPolicy) returns (attempt: nat)
    requires EffectiveBase(p) < TWO_63 && EffectiveMax(p) < TWO_63 && !NeverOverflows(p)
    ensures Retried(p, attempt) && Unjittered(p, attempt) < 0 < Documented(p, attempt)
    ensures EffectiveBase(p) <= EffectiveMax(p) ==> TWO_62 <= Documented(p, attempt)
  {
    var base, maxDelay := EffectiveBase(p), EffectiveMax(p);
    if base >= TWO_62 {
      OverflowIsObserved(base, maxDelay);
      assert Pow2(1) == 2;
      attempt := 2;
    } else {
      var j: nat :| j < p.maxAttempts - 2 && TWO_62 <= base * Pow2(j) < maxDelay;
      DoubledReaches(base, maxDelay, j, j + 1);
      OverflowIsObserved(base * Pow2(j), maxDelay);
      assert base * Pow2(j + 1) == 2 * (base * Pow2(j));
      attempt := j + 2;
    }
  }

  lemma OverflowIsObserved(delay: int, maxDelay: int)
    requires TWO_62 <= delay < TWO_63 && 0 < maxDelay
    ensures Doubled(delay, maxDelay, 1) < 0
  {
    assert Doubled(Double64(delay), maxDelay, 0) == delay * 2 - TWO_64;
  }

  /** Three attempts, 146 years apart, and a cap of 292: the second delay wraps, so it is served as zero. */
  lemma OverflowingPolicy()
    ensures var p := FromSpec(RetrySpec(3, 4_611_686_019, 9_223_372_036, []));
            Valid(p) && forall jitter :: DelayFor(p, 2, jitter) == 0
  {
    var p := FromSpec(RetrySpec(3, 4_611_686_019, 9_223_372_036, []));
    assert p == RetryPolicy(3, 4_611_686_019_000_000_000, 9_223_372_036_000_000_000, []);
    OverflowIsObserved(p.baseDelay, p.maxDelay);
    forall jitter
      ensures DelayFor(p, 2, jitter) == 0
    {
      NegativeIsServedAsZero(Unjittered(p, 2), p.maxDelay, jitter);
    }
  }

  lemma NegativeIsServedAsZero(delay: int, maxDelay: int, jitter: real)
    requires delay < 0 < maxDelay
    ensures Jittered(delay, maxDelay, jitter) == 0
  {
    assert Product(-delay, JitterFactor(jitter)) >= 0.0;
    assert Product(delay, JitterFactor(jitter)) == -Product(-delay, JitterFactor(jitter));
  }

  // ---- The jitter ----

  /** Within twenty percent (rounded down) of the delay before the jitter, and never above the cap. */
  predicate InBand(before: int, after: int, maxDelay: int) {
    (before as real * 0.8).Floor <= after && after as real <= before as real * 1.2 && after <= maxDelay
  }

  /** The largest delay the jitter can make of this one is still an int64. */
  predicate JitterFits(delay: int) {
    delay as real * 1.2 < TWO_63 as real
  }

  lemma ProductMonotone(d: int, x: real, y: real)
    requires d >= 0 && x <= y
    ensures Product(d, x) <= Product(d, y)
  {
    var k := d as real;
    assert k * y == k * x + k * (y - x);
    assert k * (y - x) >= 0.0;
  }

  /**
   * For a delay of any length: it stays in the band whatever number in [0, 1) is drawn exactly when a fifth more is
   * still below 2^63. Otherwise some draws convert out of range, and the delay is served as zero.
   */
  lemma JitterStaysInBand(delay: int, maxDelay: int)
    requires 0 <= delay <= maxDelay
    ensures (forall jitter | 0.0 <= jitter < 1.0 :: InBand(delay, Jittered(delay, maxDelay, jitter), maxDelay)) <==> JitterFits(delay)
    ensures JitterFits(delay) ==> forall jitter :: InBand(delay, Jittered(delay, maxDelay, jitter), maxDelay)
  {
    if JitterFits(delay) {
      forall jitter
        ensures InBand(delay, Jittered(delay, maxDelay, jitter), maxDelay)
      {
        FittingJitter(delay, maxDelay, jitter);
      }
    } else {
      var jitter := UnfittingJitter(delay, maxDelay);
      assert !InBand(delay, Jittered(delay, maxDelay, jitter), maxDelay);
    }
  }

  lemma FittingJitter(delay: int, maxDelay: int, jitter: real)
    requires 0 <= delay <= maxDelay && JitterFits(delay)
    ensures InBand(delay, Jittered(delay, maxDelay, jitter), maxDelay)
  {
    var low, mid, high := Product(delay, 0.8), Product(delay, JitterFactor(jitter)), Product(delay, 1.2);
    ProductMonotone(delay, 0.8, JitterFactor(jitter));
    ProductMonotone(delay, JitterFactor(jitter), 1.2);
    Clamp(delay, maxDelay, low, mid, high);
  }

  lemma Clamp(delay: int, maxDelay: int, low: real, mid: real, high: real)
    requires 0 <= delay <= maxDelay
    requires 0.0 <= low <= mid <= high < TWO_63 as real && low <= delay as real
    ensures var r := Max(0, Min(maxDelay, ToInt64(mid)));
            low.Floor <= r <= maxDelay && r as real <= high
  {
    assert mid.Floor as real <= mid;
    assert low.Floor <= mid.Floor;
    assert low.Floor <= delay;
  }

  /** The draw that takes the delay to 2^63 exactly. */
  lemma UnfittingJitter(delay: int, maxDelay: int) returns (jitter: real)
    requires 0 <= delay <= maxDelay && !JitterFits(delay)
    ensures 0.0 <= jitter < 1.0 && Jittered(delay, maxDelay, jitter) == 0 && !InBand(delay, 0, maxDelay)
  {
    jitter := if delay >= TWO_63 then 0.5 else (TWO_63 as real / delay as real - 0.8) * 2.5;
    var factor := JitterFactor(jitter);
    if delay < TWO_63 {
      LimitingFactor(delay, TWO_63 as real / delay as real);
      assert factor == TWO_63 as real / delay as real;
      assert Product(delay, factor) == TWO_63 as real;
    } else {
      assert factor == 1.0;
    }
    assert ToInt64(Product(delay, factor)) == -TWO_63;
  }

  lemma LimitingFactor(delay: int, factor: real)
    requires 0 < delay < TWO_63 && !JitterFits(delay) && factor == TWO_63 as real / delay as real
    ensures 1.0 < factor < 1.2
  {
    // 2^63 is not divisible by six
    assert 6 * delay != 5 * TWO_63;
    Cancel(factor, 1.2, delay as real);
    Cancel(1.0, factor, delay as real);
  }

  lemma Cancel(x: real, y: real, k: real)
    requires k > 0.0 && x * k < y * k
    ensures x < y
  {
  }

  /** Eight billion seconds, a cap of nine, and a draw of 0.9: the delay is served as zero. */
  lemma JitterOutOfRange()
    ensures var p := FromSpec(RetrySpec(2, 8_000_000_000, 9_000_000_000, []));
            Valid(p) && NeverOverflows(p) && DelayFor(p, 1, 0.9) == 0
  {
    var p := FromSpec(RetrySpec(2, 8_000_000_000, 9_000_000_000, []));
    assert p == RetryPolicy(2, 8_000_000_000_000_000_000, 9_000_000_000_000_000_000, []);
    assert JitterFactor(0.9) == 1.16;
    assert Product(p.baseDelay, 1.16) == 9_280_000_000_000_000_000.0;
  }

  // ---- The whole policy ----

  lemma DocumentedGrows(p: RetryPolicy, attempt: int, later: int)
    requires 1 <= attempt <= later
    ensures 0 < Documented(p, attempt) <= Documented(p, later)
  {
    Pow2Monotone(attempt - 1, later - 1);
    MulMonotone(EffectiveBase(p), 1, Pow2(attempt - 1));
    MulMonotone(EffectiveBase(p), Pow2(attempt - 1), Pow2(later - 1));
  }

  ghost predicate AsDocumented(p: RetryPolicy) {
    forall attempt: int, jitter: real | Retried(p, attempt) && 0.0 <= jitter < 1.0 ::
      InBand(Documented(p, attempt), DelayFor(p, attempt, jitter), EffectiveMax(p))
  }

  /**
   * Main theorem: every delay a policy leads to is within twenty percent of the documented one if and only if no
   * doubling overflows and a fifth more than the longest delay is still an int64.
   */
  lemma DelaysAreAsDocumented(p: RetryPolicy)
    requires Enabled(p) && EffectiveBase(p) <= EffectiveMax(p) < TWO_63
    ensures AsDocumented(p) <==> NeverOverflows(p) && JitterFits(Documented(p, p.maxAttempts - 1))
  {
    var last := p.maxAttempts - 1;
    if !NeverOverflows(p) {
      var attempt := OverflowShows(p);
      NegativeIsServedAsZero(Unjittered(p, attempt), EffectiveMax(p), 0.5);
      assert !InBand(Documented(p, attempt), DelayFor(p, attempt, 0.5), EffectiveMax(p));
    } else if !JitterFits(Documented(p, last)) {
      DocumentedGrows(p, 1, last);
      NoOverflowMeansDocumented(p, last);
      var jitter := UnfittingJitter(Documented(p, last), EffectiveMax(p));
      assert !InBand(Documented(p, last), DelayFor(p, last, jitter), EffectiveMax(p));
    } else {
      forall attempt: int, jitter: real | Retried(p, attempt) && 0.0 <= jitter < 1.0
        ensures InBand(Documented(p, attempt), DelayFor(p, attempt, jitter), EffectiveMax(p))
      {
        DocumentedGrows(p, attempt, last);
        NoOverflowMeansDocumented(p, attempt);
        FittingJitter(Documented(p, attempt), EffectiveMax(p), jitter);
      }
    }
  }

  /** What a caller can check: a cap below 2^62 ns, 146 years, is enough. */
  lemma SmallCapSuffices(spec: RetrySpec)
    requires Valid(FromSpec(spec)) && Enabled(FromSpec(spec)) && 0 <= spec.maxDelaySeconds <= 4_611_686_018
    ensures AsDocumented(FromSpec(spec))
  {
    var p := FromSpec(spec);
    assert p.maxDelay < TWO_62;
    DocumentedGrows(p, 1, p.maxAttempts - 1);
    DelaysAreAsDocumented(p);
  }

  /** The seconds of a policy are what was submitted up to 292 years either way, and no further. */
  lemma SecondsAreExact(seconds: int)
    ensures Wrap64(seconds * SECOND) == seconds * SECOND <==> -9_223_372_036 <= seconds <= 9_223_372_036
  {
  }
}
