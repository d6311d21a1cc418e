/**
 The generic retry loop, and the delay before each retry: capped exponential backoff with jitter.
 Delays are computed over the reals and rounded down at the end.
 */
module Retry {

  import opened Outcomes

  const U32_MAX: nat := 0xFFFF_FFFF
  const U64_MAX: nat := 0xFFFF_FFFF_FFFF_FFFF

  datatype Classification = Transient | Permanent

  function ClassifyStatus(status: nat): (c: Classification) {
    if status in {429, 500, 502, 503, 504} then Transient else Permanent
  }

  // ----- when a retried operation stops -----

  predicate IsTransient<T, E>(r: Result<T, E>, classify: E -> Classification) {
    r.Err? && classify(r.error) == Transient
  }

  /** Call `k` (from zero) is the last: the first success, the first permanent error, or the one after all retries. */
  ghost predicate StopsAt<T, E>(execute: nat -> Result<T, E>, classify: E -> Classification, maxRetries: nat, k: nat) {
    && k <= maxRetries
    && TransientUpTo(execute, classify, k)
    && (k == maxRetries || !IsTransient(execute(k), classify))
  }

  ghost predicate TransientUpTo<T, E>(execute: nat -> Result<T, E>, classify: E -> Classification, n: nat) {
    forall i: nat | i < n :: IsTransient(execute(i), classify)
  }

  /** The retry numbers 1, 2, ..., n. */
  function Attempts(n: nat): (s: seq<nat>)
    ensures |s| == n && forall i | 0 <= i < n :: s[i] == i + 1
  {
    if n == 0 then [] else Attempts(n - 1) + [n]
  }

  /** What a retried operation returns, how often it was called, and how its backoffs were numbered. */
  datatype Retried<T, E> = Retried(result: Result<T, E>, calls: nat, backoffs: seq<nat>)

  ghost predicate RetriedRight<T, E>(execute: nat -> Result<T, E>, classify: E -> Classification, maxRetries: nat,
      r: Retried<T, E>) {
    && r.calls > 0
    && StopsAt(execute, classify, maxRetries, r.calls - 1)
    && r.result == execute(r.calls - 1)
    && r.backoffs == Attempts(r.calls - 1)
  }

  /** The conditions leave no choice, so any two loops that meet them agree. */
  lemma {:induction false} RetriedIsUnique<T, E>(execute: nat -> Result<T, E>, classify: E -> Classification,
      maxRetries: nat, r: Retried<T, E>, s: Retried<T, E>)
    requires RetriedRight(execute, classify, maxRetries, r) && RetriedRight(execute, classify, maxRetries, s)
    ensures r == s
  {
    StopIsUnique(execute, classify, maxRetries, r.calls - 1, s.calls - 1);
  }

  lemma StopIsUnique<T, E>(execute: nat -> Result<T, E>, classify: E -> Classification, maxRetries: nat, j: nat, k: nat)
    requires StopsAt(execute, classify, maxRetries, j) && StopsAt(execute, classify, maxRetries, k)
    ensures j == k
  {
  }

  lemma {:induction false} StopsRight<T, E>(execute: nat -> Result<T, E>, classify: E -> Classification,
      maxRetries: nat, n: nat)
    requires n <= maxRetries && TransientUpTo(execute, classify, n)
    requires n == maxRetries || !IsTransient(execute(n), classify)
    ensures RetriedRight(execute, classify, maxRetries, Retried(execute(n), n + 1, Attempts(n)))
  {
  }

  lemma {:induction false} GoesOn<T, E>(execute: nat -> Result<T, E>, classify: E -> Classification, n: nat)
    requires TransientUpTo(execute, classify, n) && IsTransient(execute(n), classify)
    ensures TransientUpTo(execute, classify, n + 1) && Attempts(n + 1) == Attempts(n) + [n + 1]
  {
  }

  /** All of the first 2^32 calls fail transiently. */
  ghost predicate AlwaysTransient<T, E>(execute: nat -> Result<T, E>, classify: E -> Classification) {
    TransientUpTo(execute, classify, U32_MAX + 1)
  }

  // ----- the delay before a retry -----

  datatype RetryPolicy = RetryPolicy(maxRetries: nat, baseMs: nat, multiplier: real, maxMs: nat, jitter: real)

  const DEFAULT_POLICY := RetryPolicy(3, 200, 2.0, 5000, 0.25)

  /** Conversion of a 32-bit unsigned number to a signed one. */
  function AsI32(n: nat): (i: int) {
    var low := n % 0x1_0000_0000;
    if low < 0x8000_0000 then low else low - 0x1_0000_0000
  }

  function Power(b: real, n: nat): (r: real) {
    if n == 0 then 1.0 else b * Power(b, n - 1)
  }

  /** `powi`; a zero base to a negative power is taken as zero. */
  function Powi(b: real, e: int): (r: real) {
    if e >= 0 then Power(b, e)
    else if Power(b, -e) == 0.0 then 0.0
    else 1.0 / Power(b, -e)
  }

  function Times(a: real, b: real): (r: real) { a * b }

  function Min(a: real, b: real): (r: real) { if a < b then a else b }

  function Max(a: real, b: real): (r: real) { if a < b then b else a }

  function Capped(p: RetryPolicy, attempt: nat): (ms: real)
    ensures ms <= p.maxMs as real
  {
    var exponent := AsI32(if attempt == 0 then 0 else attempt - 1);
    Min(Times(p.baseMs as real, Powi(p.multiplier, exponent)), p.maxMs as real)
  }

  /** 1 - 2^-52, the largest sample used. */
  const LARGEST_SAMPLE := 1.0 - 1.0 / 4503599627370496.0

  function Clamped(sample: real): (s: real)
    ensures 0.0 <= s < 1.0
  {
    Max(0.0, Min(sample, LARGEST_SAMPLE))
  }

  /** Rounded down, at least zero, at most the largest 64-bit number. */
  function ToMillis(ms: real): (n: nat)
    ensures n <= U64_MAX && n as real <= Max(ms, 0.0)
    ensures ms < U64_MAX as real ==> ms - 1.0 < n as real
  {
    var floor := Max(ms, 0.0).Floor;
    if floor > U64_MAX then U64_MAX else floor
  }

  function ComputeDelayWithSample(p: RetryPolicy, attempt: nat, sample: real): (ms: nat) {
    var capped := Capped(p, attempt);
    var range := Times(capped, p.jitter);
    ToMillis(Max(capped + Times(range, 2.0 * Clamped(sample) - 1.0), 0.0))
  }

  /** The factor that jitter applies to the capped delay. */
  function Factor(p: RetryPolicy, sample: real): (f: real) {
    1.0 + Times(p.jitter, 2.0 * Clamped(sample) - 1.0)
  }

  lemma Scale(a: real, b: real, f: real)
    requires a <= b && f >= 0.0
    ensures Times(a, f) <= Times(b, f) && Times(f, a) <= Times(f, b)
    ensures a == 0.0 ==> Times(a, f) == 0.0 && Times(f, a) == 0.0
    ensures Times(f, 1.0) == f && Times(f, -1.0) == -f
  {
  }

  predicate JitterOk(p: RetryPolicy) { 0.0 <= p.jitter <= 1.0 }

  lemma FactorBounds(p: RetryPolicy, sample: real)
    requires JitterOk(p)
    ensures 0.0 <= 1.0 - p.jitter <= Factor(p, sample) <= 1.0 + p.jitter
  {
    var x := 2.0 * Clamped(sample) - 1.0;
    assert -1.0 <= x <= 1.0;
    Scale(-1.0, x, p.jitter);
    Scale(x, 1.0, p.jitter);
  }

  lemma DelayIsCappedTimesFactor(p: RetryPolicy, attempt: nat, sample: real)
    ensures ComputeDelayWithSample(p, attempt, sample) == ToMillis(Times(Capped(p, attempt), Factor(p, sample)))
  {
    Distribute(Capped(p, attempt), p.jitter, 2.0 * Clamped(sample) - 1.0);
  }

  lemma Distribute(c: real, j: real, x: real)
    ensures c + Times(Times(c, j), x) == Times(c, 1.0 + Times(j, x))
  {
    assert c * (1.0 + j * x) == c + c * j * x;
  }

  lemma {:induction false} PowerIsMonotone(b: real, m: nat, n: nat)
    requires b >= 1.0 && m <= n
    ensures 1.0 <= Power(b, m) <= Power(b, n)
    decreases n
  {
    if m < n {
      PowerIsMonotone(b, m, n - 1);
      assert Power(b, n) == b * Power(b, n - 1) >= Power(b, n - 1);
    } else if m > 0 {
      PowerIsMonotone(b, m - 1, m - 1);
      assert Power(b, m) == b * Power(b, m - 1) >= Power(b, m - 1);
    }
  }

  lemma {:induction false} PowerIsNonNegative(b: real, n: nat)
    requires b >= 0.0
    ensures Power(b, n) >= 0.0
  {
    if n > 0 {
      PowerIsNonNegative(b, n - 1);
    }
  }

  lemma {:induction false} CappedIsNonNegative(p: RetryPolicy, attempt: nat)
    requires p.multiplier >= 0.0
    ensures 0.0 <= Capped(p, attempt)
  {
    var e := AsI32(if attempt == 0 then 0 else attempt - 1);
    PowerIsNonNegative(p.multiplier, if e >= 0 then e else -e);
    assert Powi(p.multiplier, e) >= 0.0;
    Scale(0.0, Powi(p.multiplier, e), p.baseMs as real);
  }

  lemma RoundingIsMonotone(x: real, y: real)
    requires x <= y
    ensures ToMillis(x) <= ToMillis(y)
  {
  }

  /** Rounding a value between two bounds. */
  lemma RoundedBetween(low: real, x: real, high: real)
    requires 0.0 <= low <= x <= high
    ensures ToMillis(x) as real <= high
    ensures high < U64_MAX as real ==> low - 1.0 < ToMillis(x) as real
  {
  }

  /** Each delay is the capped delay give or take the jitter, rounded down. */
  lemma {:induction false} DelayBounds(p: RetryPolicy, attempt: nat, sample: real)
    requires JitterOk(p) && p.multiplier >= 0.0
    ensures var d, c := ComputeDelayWithSample(p, attempt, sample) as real, Capped(p, attempt);
            && d <= Times(c, 1.0 + p.jitter)
            && (Times(c, 1.0 + p.jitter) < U64_MAX as real ==> Times(c, 1.0 - p.jitter) - 1.0 < d)
  {
    DelayIsCappedTimesFactor(p, attempt, sample);
    FactorBounds(p, sample);
    CappedIsNonNegative(p, attempt);
    JitteredBounds(Capped(p, attempt), Factor(p, sample), p.jitter);
  }

  lemma {:induction false} JitteredBounds(c: real, f: real, j: real)
    requires 0.0 <= c && 0.0 <= 1.0 - j <= f <= 1.0 + j
    ensures ToMillis(Times(c, f)) as real <= Times(c, 1.0 + j)
    ensures Times(c, 1.0 + j) < U64_MAX as real ==> Times(c, 1.0 - j) - 1.0 < ToMillis(Times(c, f)) as real
  {
    Scale(1.0 - j, f, c);
    Scale(f, 1.0 + j, c);
    Scale(0.0, 1.0 - j, c);
    RoundedBetween(Times(c, 1.0 - j), Times(c, f), Times(c, 1.0 + j));
  }

  /** No delay exceeds the largest allowed one by more than the jitter. */
  lemma {:induction false} DelayIsLimited(p: RetryPolicy, attempt: nat, sample: real)
    requires JitterOk(p)
    ensures ComputeDelayWithSample(p, attempt, sample) as real <= Times(p.maxMs as real, 1.0 + p.jitter)
  {
    DelayIsCappedTimesFactor(p, attempt, sample);
    FactorBounds(p, sample);
    JitteredLimit(Capped(p, attempt), p.maxMs as real, Factor(p, sample), p.jitter);
  }

  lemma {:induction false} JitteredLimit(c: real, m: real, f: real, j: real)
    requires c <= m && 0.0 <= m && 0.0 <= f <= 1.0 + j
    ensures ToMillis(Times(c, f)) as real <= Times(m, 1.0 + j)
  {
    Scale(c, m, f);
    Scale(f, 1.0 + j, m);
    Scale(0.0, m, f);
  }

  /** The greater the sample the longer the delay: least at zero, and the capped delay itself in the middle. */
  lemma {:induction false} SampleSpreadsDelay(p: RetryPolicy, attempt: nat, low: real, high: real)
    requires JitterOk(p) && p.multiplier >= 0.0 && low <= high
    ensures ComputeDelayWithSample(p, attempt, low) <= ComputeDelayWithSample(p, attempt, high)
    ensures ComputeDelayWithSample(p, attempt, 0.0) == ToMillis(Times(Capped(p, attempt), 1.0 - p.jitter))
    ensures ComputeDelayWithSample(p, attempt, 0.5) == ToMillis(Capped(p, attempt))
  {
    var c := Capped(p, attempt);
    CappedIsNonNegative(p, attempt);
    forall s | s in {low, high, 0.0, 0.5}
      ensures ComputeDelayWithSample(p, attempt, s) == ToMillis(Times(c, Factor(p, s)))
    {
      DelayIsCappedTimesFactor(p, attempt, s);
    }
    Scale(2.0 * Clamped(low) - 1.0, 2.0 * Clamped(high) - 1.0, p.jitter);
    Scale(Factor(p, low), Factor(p, high), c);
    RoundingIsMonotone(Times(c, Factor(p, low)), Times(c, Factor(p, high)));
    Scale(0.0, p.jitter, p.jitter);
    Scale(0.0, c, c);
    assert Factor(p, 0.0) == 1.0 - p.jitter && Factor(p, 0.5) == 1.0;
  }

  lemma {:induction false} CappedIsMonotone(p: RetryPolicy, a: nat, b: nat)
    requires p.multiplier >= 1.0 && 1 <= a <= b <= 0x8000_0000
    ensures Capped(p, a) <= Capped(p, b)
  {
    PowerIsMonotone(p.multiplier, a - 1, b - 1);
    Scale(Power(p.multiplier, a - 1), Power(p.multiplier, b - 1), p.baseMs as real);
    CappedByPower(p, a);
    CappedByPower(p, b);
  }

  lemma {:induction false} CappedByPower(p: RetryPolicy, a: nat)
    requires 1 <= a <= 0x8000_0000
    ensures Capped(p, a) == Min(Times(p.baseMs as real, Power(p.multiplier, a - 1)), p.maxMs as real)
  {
    assert AsI32(a - 1) == a - 1;
  }

  /** For one sample the delays do not decrease from one retry to the next, up to retry 2^31. */
  lemma {:induction false} DelaysDoNotDecrease(p: RetryPolicy, a: nat, b: nat, sample: real)
    requires JitterOk(p) && p.multiplier >= 1.0 && 1 <= a <= b <= 0x8000_0000
    ensures ComputeDelayWithSample(p, a, sample) <= ComputeDelayWithSample(p, b, sample)
  {
    CappedIsMonotone(p, a, b);
    DelayIsCappedTimesFactor(p, a, sample);
    DelayIsCappedTimesFactor(p, b, sample);
    FactorBounds(p, sample);
    Scale(Capped(p, a), Capped(p, b), Factor(p, sample));
    RoundingIsMonotone(Times(Capped(p, a), Factor(p, sample)), Times(Capped(p, b), Factor(p, sample)));
  }

  lemma {:induction false} PowerOfTwoExceeds(n: nat)
    ensures Power(2.0, n) >= n as real + 1.0
  {
    if n > 0 {
      PowerOfTwoExceeds(n - 1);
    }
  }

  lemma {:induction false} InverseIsSmall(big: real)
    requires big >= 2147483649.0
    ensures 0.0 <= 200.0 * (1.0 / big) < 0.5
  {
    assert big * (1.0 / big) == 1.0;
  }

  /** Past that the exponent wraps to a negative number and the delay collapses to nothing. */
  lemma {:induction false} DelayCollapsesAfterWrap(sample: real)
    ensures ComputeDelayWithSample(DEFAULT_POLICY, 0x8000_0001, sample) == 0
    ensures ComputeDelayWithSample(DEFAULT_POLICY, 1, sample) >= 149
  {
    var p := DEFAULT_POLICY;
    CollapsedCap(p);
    DelayBounds(p, 0x8000_0001, sample);
    CappedByPower(p, 1);
    assert Power(2.0, 0) == 1.0;
    DelayBounds(p, 1, sample);
  }

  lemma {:induction false} CollapsedCap(p: RetryPolicy)
    requires p == DEFAULT_POLICY
    ensures 0.0 <= Capped(p, 0x8000_0001) < 0.5
  {
    var n: nat := 0x8000_0000;
    PowerOfTwoExceeds(n);
    var big := Power(2.0, n);
    InverseIsSmall(big);
    var e: int := AsI32(n);
    assert e == 0 - n;
    assert Powi(2.0, e) == 1.0 / big;
  }

  /** Delays do not decrease over the first `n` retries, whatever the policy and the sample. */
  ghost predicate NonDecreasingUpTo(n: nat) {
    forall p, a: nat, b: nat, sample | JitterOk(p) && p.multiplier >= 1.0 && 1 <= a <= b <= n ::
      ComputeDelayWithSample(p, a, sample) <= ComputeDelayWithSample(p, b, sample)
  }

  /** The largest number of retries for which delays are sure not to decrease is 2^31. */
  lemma {:induction false} NonDecreasingIff(n: nat)
    ensures NonDecreasingUpTo(n) <==> n <= 0x8000_0000
  {
    if n <= 0x8000_0000 {
      forall p, a: nat, b: nat, sample | JitterOk(p) && p.multiplier >= 1.0 && 1 <= a <= b <= n
        ensures ComputeDelayWithSample(p, a, sample) <= ComputeDelayWithSample(p, b, sample)
      {
        DelaysDoNotDecrease(p, a, b, sample);
      }
    } else {
      DelayCollapsesAfterWrap(0.0);
      assert ComputeDelayWithSample(DEFAULT_POLICY, 1, 0.0) > ComputeDelayWithSample(DEFAULT_POLICY, 0x8000_0001, 0.0);
    }
  }

  // ----- a whole run -----

  /** The delay before a retry, from the number of the retry and a random sample. */
  type Backoff = (nat, real) -> nat

  function PolicyBackoff(p: RetryPolicy): (b: Backoff) {
    (attempt, sample) => ComputeDelayWithSample(p, attempt, sample)
  }

  function Sum(delays: seq<nat>): (n: nat) {
    if delays == [] then 0 else Sum(delays[..|delays| - 1]) + delays[|delays| - 1]
  }

  /** The delays before retries 1, 2, ..., n. */
  function Delays(backoff: Backoff, samples: nat -> real, n: nat): (ms: seq<nat>)
    ensures |ms| == n
  {
    if n == 0 then [] else Delays(backoff, samples, n - 1) + [backoff(n, samples(n - 1))]
  }

  /**
   The loop of `with_retry_classified`. Its 32-bit attempt counter is incremented before it is
   compared, so, where overflow is not checked, it wraps to zero and the loop goes on (no result here)
   exactly when the limit is the largest 32-bit number and every call up to then fails transiently.
   */
  method RetryLoop<T, E>(maxRetries: nat, backoff: Backoff, classify: E -> Classification,
      execute: nat -> Result<T, E>, samples: nat -> real)
    returns (r: Option<Retried<T, E>>, delays: seq<nat>)
    requires maxRetries <= U32_MAX
    ensures r.Some? ==> RetriedRight(execute, classify, maxRetries, r.value)
    ensures r.Some? ==> delays == Delays(backoff, samples, |r.value.backoffs|)
    ensures r.Some? && maxRetries == U32_MAX ==> !IsTransient(r.value.result, classify)
    ensures r.None? ==> maxRetries == U32_MAX && AlwaysTransient(execute, classify)
  {
    var attempt, calls := 0, 0;
    var backoffs: seq<nat> := [];
    delays := [];
    while true
      invariant attempt == calls <= maxRetries
      invariant backoffs == Attempts(calls) && delays == Delays(backoff, samples, calls)
      invariant TransientUpTo(execute, classify, calls)
      decreases maxRetries - calls
    {
      var outcome := execute(calls);
      calls := calls + 1;
      if outcome.Ok? {
        StopsRight(execute, classify, maxRetries, calls - 1);
        return Some(Retried(outcome, calls, backoffs)), delays;
      }
      if attempt == U32_MAX && classify(outcome.error) == Transient {
        GoesOn(execute, classify, calls - 1);
        return None, delays;
      }
      attempt := if attempt == U32_MAX then 0 else attempt + 1;
      if classify(outcome.error) == Permanent {
        StopsRight(execute, classify, maxRetries, calls - 1);
        return Some(Retried(outcome, calls, backoffs)), delays;
      }
      if attempt > maxRetries {
        StopsRight(execute, classify, maxRetries, calls - 1);
        return Some(Retried(outcome, calls, backoffs)), delays;
      }
      GoesOn(execute, classify, calls - 1);
      delays := delays + [backoff(attempt, samples(attempt - 1))];
      backoffs := backoffs + [attempt];
    }
  }

  lemma {:induction false} SumIsBounded(backoff: Backoff, samples: nat -> real, n: nat, most: nat, longest: real)
    requires 0.0 <= longest && n <= most && forall attempt, sample :: backoff(attempt, sample) as real <= longest
    ensures Sum(Delays(backoff, samples, n)) as real <= Times(most as real, longest)
    decreases most
  {
    if n < most {
      SumIsBounded(backoff, samples, n, most - 1, longest);
      OneMore(most - 1, longest);
    } else if n > 0 {
      SumIsBounded(backoff, samples, n - 1, most - 1, longest);
      OneMore(most - 1, longest);
      assert Delays(backoff, samples, n)[..n - 1] == Delays(backoff, samples, n - 1);
    } else {
      Scale(0.0, longest, longest);
    }
  }

  lemma OneMore(n: nat, x: real)
    ensures Times((n + 1) as real, x) == Times(n as real, x) + x
  {
    assert (n + 1) as real == n as real + 1.0;
    assert (n as real + 1.0) * x == n as real * x + x;
  }

  /** Delays of a policy with a jitter of at most one sum to at most the allowed number of longest delays. */
  lemma {:induction false} SleepIsBounded(p: RetryPolicy, samples: nat -> real, n: nat)
    requires JitterOk(p) && n <= p.maxRetries
    ensures Sum(Delays(PolicyBackoff(p), samples, n)) as real
         <= Times(p.maxRetries as real, Times(p.maxMs as real, 1.0 + p.jitter))
  {
    var longest := Times(p.maxMs as real, 1.0 + p.jitter);
    forall attempt, sample ensures PolicyBackoff(p)(attempt, sample) as real <= longest {
      DelayIsLimited(p, attempt, sample);
    }
    assert PolicyBackoff(p)(0, 0.0) as real <= longest;
    SumIsBounded(PolicyBackoff(p), samples, n, p.maxRetries, longest);
  }

  /** A run under a policy: result, calls and numbering, and how long it sleeps in all. */
  method WithRetryClassified<T, E>(p: RetryPolicy, classify: E -> Classification,
      execute: nat -> Result<T, E>, samples: nat -> real)
    returns (r: Option<Retried<T, E>>, delays: seq<nat>)
    requires p.maxRetries <= U32_MAX
    ensures r.Some? ==> RetriedRight(execute, classify, p.maxRetries, r.value)
    ensures r.Some? ==> delays == Delays(PolicyBackoff(p), samples, |r.value.backoffs|)
    ensures r.None? <==> p.maxRetries == U32_MAX && AlwaysTransient(execute, classify)
    ensures r.Some? && JitterOk(p) ==>
              Sum(delays) as real <= Times(p.maxRetries as real, Times(p.maxMs as real, 1.0 + p.jitter))
  {
    r, delays := RetryLoop(p.maxRetries, PolicyBackoff(p), classify, execute, samples);
    if r.Some? {
      assert r.value.calls - 1 <= p.maxRetries;
      if JitterOk(p) {
        SleepIsBounded(p, samples, |r.value.backoffs|);
      }
    }
  }
}
