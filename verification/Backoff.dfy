/** Retry delays with bounded jitter (core/routing/src/backoff.rs). */
module Backoffs {
  import opened Results
  import opened Integers

  /** Nanoseconds; a duration holds 64 bits of seconds and a fraction. */
  const DURATION_MAX: nat := 0xFFFF_FFFF_FFFF_FFFF * 1_000_000_000 + 999_999_999

  type Duration = d: int | 0 <= d <= DURATION_MAX

  const MAXIMUM_POLICY_DELAY: Duration := 3_600_000_000_000

  datatype BackoffError = InvalidPolicy | InvalidEntropySample

  datatype BackoffPolicy = BackoffPolicy(initial: Duration, maximum: Duration, attempts: u32, jitter: u16) {
    predicate Valid() {
      && initial != 0 && initial <= maximum <= MAXIMUM_POLICY_DELAY
      && attempts != 0 && attempts <= 32
      && jitter <= 5_000
    }
  }

  function Power(n: nat): (r: nat)
    ensures r > 0
  {
    if n == 0 then 1 else 2 * Power(n - 1)
  }

  /** Shifting one left fails from the width on. */
  function CheckedShift(attempt: u32): Option<u32> {
    if attempt < 32 then PowerFits(attempt); Some(Power(attempt)) else None
  }

  function CheckedMul(d: Duration, by_: u32): Option<Duration> {
    if d * by_ <= DURATION_MAX then ProductNatural(d, by_); Some(d * by_) else None
  }

  lemma ProductNatural(a: nat, b: nat)
    ensures a * b >= 0
  {
  }

  lemma {:induction false} PowerMonotone(a: nat, b: nat)
    requires a <= b
    ensures Power(a) <= Power(b)
    decreases b
  {
    if a < b { PowerMonotone(a, b - 1); }
  }

  lemma PowerFits(n: nat)
    requires n < 32
    ensures Power(n) <= 0x8000_0000
  {
    PowerMonotone(n, 31);
    LargestPower();
  }

  lemma {:induction false} PowerSum(a: nat, b: nat)
    ensures Power(a + b) == Power(a) * Power(b)
    decreases b
  {
    if b == 0 {
    } else {
      PowerSum(a, b - 1);
    }
  }

  lemma LargestPower()
    ensures Power(31) == 0x8000_0000
  {
    assert Power(4) == 16;
    PowerSum(4, 4);
    PowerSum(8, 8);
    PowerSum(16, 8);
    PowerSum(24, 4);
    PowerSum(28, 3);
  }

  function Base(p: BackoffPolicy, attempt: u32): Duration {
    var multiplier := UnwrapOr(CheckedShift(attempt), U32_MAX);
    Min(UnwrapOr(CheckedMul(p.initial, multiplier), p.maximum), p.maximum)
  }

  /** Basis points to scale by: from below ten thousand to as far above it. */
  function Factor(jitter: u16, sample: u16): u128
    requires jitter <= 5_000 && sample <= 10_000
  {
    ProductNatural(2 * jitter, sample);
    MulMonotone(2 * jitter, 10_000, sample);
    10_000 - jitter + 2 * jitter * sample / 10_000
  }

  function Scale(base: Duration, factor: u128): u128
    requires base <= MAXIMUM_POLICY_DELAY && factor <= 20_000
  {
    MulMonotone(base, MAXIMUM_POLICY_DELAY, factor);
    ProductNatural(base, factor);
    base * factor / 10_000
  }

  function Delay(p: BackoffPolicy, attempt: u32, sample: u16): (r: Result<Option<Duration>, BackoffError>) {
    if !p.Valid() then Err(InvalidPolicy)
    else if sample > 10_000 then Err(InvalidEntropySample)
    else if attempt >= p.attempts then Ok(None)
    else
      FactorBounds(p.jitter, sample);
      var bounded := Min(Scale(Base(p, attempt), Factor(p.jitter, sample)), p.maximum);
      Ok(Some(UnwrapOr(ToU64(bounded), U64_MAX)))
  }

  // --- The factor -----------------------------------------------------------

  lemma FactorBounds(jitter: u16, sample: u16)
    requires jitter <= 5_000 && sample <= 10_000
    ensures 10_000 - jitter <= Factor(jitter, sample) <= 10_000 + jitter
  {
    MulMonotone(sample, 10_000, 2 * jitter);
    ProductNatural(2 * jitter, sample);
    DivMonotone(2 * jitter * sample, 2 * jitter * 10_000, 10_000);
  }

  lemma FactorMonotone(jitter: u16, sample: u16, larger: u16)
    requires jitter <= 5_000 && sample <= larger <= 10_000
    ensures Factor(jitter, sample) <= Factor(jitter, larger)
  {
    MulMonotone(sample, larger, 2 * jitter);
    ProductNatural(2 * jitter, sample);
    DivMonotone(2 * jitter * sample, 2 * jitter * larger, 10_000);
  }

  /** Opposite samples balance, up to one basis point lost to rounding. */
  lemma FactorSymmetric(jitter: u16, sample: u16)
    requires jitter <= 5_000 && sample <= 10_000
    ensures Factor(jitter, sample) + Factor(jitter, 10_000 - sample) ==
      if 2 * jitter * sample % 10_000 == 0 then 20_000 else 19_999
  {
    var a, b := 2 * jitter * sample, 2 * jitter * (10_000 - sample);
    assert a + b == 2 * jitter * 10_000;
    ProductNatural(2 * jitter, sample);
    ProductNatural(2 * jitter, 10_000 - sample);
  }

  lemma FactorCentered(jitter: u16)
    requires jitter <= 5_000
    ensures Factor(jitter, 5_000) == 10_000
  {
  }

  // --- The base -------------------------------------------------------------

  /** No step of the base falls back: it is the doubled delay, cut off at the maximum. */
  lemma BaseExact(p: BackoffPolicy, attempt: u32)
    requires p.Valid() && attempt < p.attempts
    ensures CheckedShift(attempt) == Some(Power(attempt))
    ensures CheckedMul(p.initial, Power(attempt)) == Some(p.initial * Power(attempt))
    ensures Base(p, attempt) == Min(p.initial * Power(attempt), p.maximum)
    ensures p.initial <= Base(p, attempt)
  {
    PowerFits(attempt);
    MulMonotone(p.initial, MAXIMUM_POLICY_DELAY, Power(attempt));
    MulMonotone(Power(attempt), 0x8000_0000, MAXIMUM_POLICY_DELAY);
    MulMonotone(1, Power(attempt), p.initial);
  }

  lemma BaseMonotone(p: BackoffPolicy, attempt: u32, later: u32)
    requires p.Valid() && attempt <= later < p.attempts
    ensures Base(p, attempt) <= Base(p, later)
  {
    BaseExact(p, attempt);
    BaseExact(p, later);
    PowerMonotone(attempt, later);
    CutOffMonotone(p.initial, Power(attempt), Power(later), p.maximum);
  }

  lemma CutOffMonotone(initial: nat, a: nat, b: nat, maximum: nat)
    requires a <= b
    ensures 0 <= initial * a <= initial * b
    ensures Min(initial * a, maximum) <= Min(initial * b, maximum)
  {
    MulMonotone(a, b, initial);
  }

  // --- The delay ------------------------------------------------------------

  predicate Accepts(p: BackoffPolicy, attempt: u32, sample: u16) {
    p.Valid() && sample <= 10_000 && attempt < p.attempts
  }

  /**
   * No conversion falls back: the delay is the doubled delay, cut off at the
   * maximum, scaled by the factor, and cut off again. It ends with the attempts.
   */
  lemma DelayExact(p: BackoffPolicy, attempt: u32, sample: u16)
    ensures Delay(p, attempt, sample) == Err(InvalidPolicy) <==> !p.Valid()
    ensures Delay(p, attempt, sample) == Err(InvalidEntropySample) <==> p.Valid() && sample > 10_000
    ensures Delay(p, attempt, sample) == Ok(None) <==> p.Valid() && sample <= 10_000 && attempt >= p.attempts
    ensures Accepts(p, attempt, sample) ==>
      Delay(p, attempt, sample) ==
      Ok(Some(Min(Min(p.initial * Power(attempt), p.maximum) * Factor(p.jitter, sample) / 10_000, p.maximum)))
  {
    if Accepts(p, attempt, sample) {
      BaseExact(p, attempt);
    }
  }

  function DelayOf(p: BackoffPolicy, attempt: u32, sample: u16): Duration
    requires Accepts(p, attempt, sample)
  {
    Delay(p, attempt, sample).value.value
  }

  /** Never above the maximum, and never below half the base. */
  lemma DelayBounded(p: BackoffPolicy, attempt: u32, sample: u16)
    requires Accepts(p, attempt, sample)
    ensures Base(p, attempt) / 2 <= DelayOf(p, attempt, sample) <= p.maximum
  {
    FactorBounds(p.jitter, sample);
    ScaleMonotone(Base(p, attempt), Base(p, attempt), 5_000, Factor(p.jitter, sample));
    assert Scale(Base(p, attempt), 5_000) == Base(p, attempt) / 2;
  }

  lemma ScaleMonotone(base: Duration, larger: Duration, factor: u128, higher: u128)
    requires base <= larger <= MAXIMUM_POLICY_DELAY && factor <= higher <= 20_000
    ensures Scale(base, factor) <= Scale(larger, higher)
  {
    MulMonotone(base, larger, factor);
    MulMonotone(factor, higher, larger);
    ProductNatural(base, factor);
    DivMonotone(base * factor, larger * higher, 10_000);
  }

  /** A later attempt or a larger sample never shortens the delay. */
  lemma DelayMonotone(p: BackoffPolicy, attempt: u32, later: u32, sample: u16, larger: u16)
    requires Accepts(p, later, larger) && attempt <= later && sample <= larger
    ensures DelayOf(p, attempt, sample) <= DelayOf(p, later, larger)
  {
    BaseMonotone(p, attempt, later);
    FactorMonotone(p.jitter, sample, larger);
    FactorBounds(p.jitter, larger);
    ScaleMonotone(Base(p, attempt), Base(p, later), Factor(p.jitter, sample), Factor(p.jitter, larger));
  }

  /** The middle sample adds no jitter at all. */
  lemma DelayCentered(p: BackoffPolicy, attempt: u32)
    requires Accepts(p, attempt, 5_000)
    ensures DelayOf(p, attempt, 5_000) == Min(p.initial * Power(attempt), p.maximum)
  {
    FactorCentered(p.jitter);
    BaseExact(p, attempt);
    assert Scale(Base(p, attempt), 10_000) == Base(p, attempt);
  }

  // --- A whole series of retries --------------------------------------------

  /** The time waited over a series of attempts with these samples. */
  function Waited(p: BackoffPolicy, samples: seq<u16>): nat
    requires forall i :: 0 <= i < |samples| ==> samples[i] <= 10_000
    requires p.Valid() && |samples| <= p.attempts
  {
    if samples == [] then 0
    else
      var init := samples[..|samples| - 1];
      Waited(p, init) + DelayOf(p, |init|, samples[|init|])
  }

  lemma OneMoreTime(n: nat, d: nat)
    ensures (n + 1) * d == n * d + d
  {
  }

  lemma AllTimes(n: nat, d: nat)
    requires n <= 32 && d <= MAXIMUM_POLICY_DELAY
    ensures 0 <= n * d <= 32 * MAXIMUM_POLICY_DELAY
  {
    MulMonotone(n, 32, d);
  }

  /** Retries are finite, and all of them together wait at most the attempts times the maximum. */
  lemma {:induction false} WaitedBounded(p: BackoffPolicy, samples: seq<u16>)
    requires forall i :: 0 <= i < |samples| ==> samples[i] <= 10_000
    requires p.Valid() && |samples| <= p.attempts
    ensures Waited(p, samples) <= |samples| * p.maximum <= 32 * MAXIMUM_POLICY_DELAY
    decreases |samples|
  {
    AllTimes(|samples|, p.maximum);
    if samples == [] {
    } else {
      var init := samples[..|samples| - 1];
      WaitedBounded(p, init);
      DelayBounded(p, |init|, samples[|init|]);
      OneMoreTime(|init|, p.maximum);
    }
  }
}
