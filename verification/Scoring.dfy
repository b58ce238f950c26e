/** Deterministic scoring and selection of nodes (core/routing/src/lib.rs). */
module Scoring {
  import opened Results
  import opened Integers

  const QUALITY_MAX: u32 := 10_000

  datatype Measurements = Measurements(available: bool, latency: u32, jitter: u32, loss: u16, bandwidth: u32)

  datatype Candidate = Candidate(id: string, measurements: Measurements)

  datatype Weights = Weights(latency: u16, jitter: u16, loss: u16, bandwidth: u16) {
    function Total(): u32 {
      latency + jitter + loss + bandwidth
    }
  }

  datatype Limits = Limits(latency: u32, jitter: u32, bandwidth: u32)

  datatype RoutingError = InvalidPolicy | InvalidMeasurements | NoAvailableNodes

  datatype RoutingPolicy = RoutingPolicy(weights: Weights, limits: Limits) {
    predicate Valid() {
      weights.Total() != 0 && limits.latency != 0 && limits.jitter != 0 && limits.bandwidth != 0
    }
  }

  // --- Qualities ------------------------------------------------------------

  function Normalized(value: u32, limit: u32): u64
    requires limit != 0
  {
    DivShrinks(value * QUALITY_MAX, limit);
    value * QUALITY_MAX / limit
  }

  function InverseQuality(value: u32, maximum: u32): u32
    requires maximum != 0
  {
    SaturatingSub(QUALITY_MAX, UnwrapOr(ToU32(Normalized(value, maximum)), U32_MAX))
  }

  function DirectQuality(value: u32, target: u32): u32
    requires target != 0
  {
    Min(UnwrapOr(ToU32(Normalized(value, target)), U32_MAX), QUALITY_MAX)
  }

  /**
   * The saturating steps lose nothing: quality is what is left of ten thousand,
   * in whole parts, and is zero exactly from the limit on.
   */
  lemma InverseQualityExact(value: u32, maximum: u32, q: nat)
    requires maximum != 0
    ensures InverseQuality(value, maximum) <= QUALITY_MAX
    ensures InverseQuality(value, maximum) ==
            if value >= maximum then 0 else QUALITY_MAX - value * QUALITY_MAX / maximum
    ensures q < QUALITY_MAX ==>
      (InverseQuality(value, maximum) > q <==> value * QUALITY_MAX < (QUALITY_MAX - q) * maximum)
  {
    DivExact(value * QUALITY_MAX, maximum, QUALITY_MAX);
    if value >= maximum {
      MulMonotone(maximum, value, QUALITY_MAX);
    } else {
      MulMonotone(value + 1, maximum, QUALITY_MAX);
    }
    if q < QUALITY_MAX {
      DivExact(value * QUALITY_MAX, maximum, QUALITY_MAX - q);
    }
  }

  lemma DirectQualityExact(value: u32, target: u32, q: nat)
    requires target != 0
    ensures DirectQuality(value, target) <= QUALITY_MAX
    ensures DirectQuality(value, target) == if value >= target then QUALITY_MAX else value * QUALITY_MAX / target
    ensures q <= QUALITY_MAX ==> (DirectQuality(value, target) >= q <==> value * QUALITY_MAX >= q * target)
  {
    DivExact(value * QUALITY_MAX, target, QUALITY_MAX);
    if value >= target {
      MulMonotone(target, value, QUALITY_MAX);
    } else {
      MulMonotone(value + 1, target, QUALITY_MAX);
    }
    DivExact(value * QUALITY_MAX, target, q);
  }

  // --- Scores ---------------------------------------------------------------

  datatype Qualities = Qualities(latency: u32, jitter: u32, loss: u32, bandwidth: u32) {
    predicate Between(low: nat, high: nat) {
      low <= latency <= high && low <= jitter <= high && low <= loss <= high && low <= bandwidth <= high
    }

    predicate AtLeast(that: Qualities) {
      latency >= that.latency && jitter >= that.jitter && loss >= that.loss && bandwidth >= that.bandwidth
    }
  }

  function QualitiesOf(limits: Limits, m: Measurements): (q: Qualities)
    requires limits.latency != 0 && limits.jitter != 0 && limits.bandwidth != 0 && m.loss <= QUALITY_MAX
    ensures q.Between(0, QUALITY_MAX)
  {
    InverseQualityExact(m.latency, limits.latency, 0);
    InverseQualityExact(m.jitter, limits.jitter, 0);
    DirectQualityExact(m.bandwidth, limits.bandwidth, 0);
    Qualities(InverseQuality(m.latency, limits.latency), InverseQuality(m.jitter, limits.jitter),
              QUALITY_MAX - m.loss, DirectQuality(m.bandwidth, limits.bandwidth))
  }

  function Weighted(w: Weights, q: Qualities): int {
    q.latency * w.latency + q.jitter * w.jitter + q.loss * w.loss + q.bandwidth * w.bandwidth
  }

  lemma WeightedAtLeast(w: Weights, q: Qualities, low: nat, high: nat)
    requires q.Between(low, high)
    ensures low * w.Total() <= Weighted(w, q)
  {
    MulMonotone(low, q.latency, w.latency);
    MulMonotone(low, q.jitter, w.jitter);
    MulMonotone(low, q.loss, w.loss);
    MulMonotone(low, q.bandwidth, w.bandwidth);
    Distribute(low, w.latency, w.jitter, w.loss, w.bandwidth);
  }

  lemma WeightedAtMost(w: Weights, q: Qualities, low: nat, high: nat)
    requires q.Between(low, high)
    ensures Weighted(w, q) <= high * w.Total()
  {
    MulMonotone(q.latency, high, w.latency);
    MulMonotone(q.jitter, high, w.jitter);
    MulMonotone(q.loss, high, w.loss);
    MulMonotone(q.bandwidth, high, w.bandwidth);
    Distribute(high, w.latency, w.jitter, w.loss, w.bandwidth);
  }

  /** The weighted sum fits the 64 bits the source computes it in. */
  lemma WeightedFits(w: Weights, q: Qualities)
    requires q.Between(0, QUALITY_MAX)
    ensures 0 <= Weighted(w, q) <= 10_000 * 4 * 0xFFFF
  {
    WeightedAtLeast(w, q, 0, QUALITY_MAX);
    WeightedAtMost(w, q, 0, QUALITY_MAX);
  }

  function Score(p: RoutingPolicy, m: Measurements): (r: Result<u32, RoutingError>) {
    if !p.Valid() then Err(InvalidPolicy)
    else if !m.available then Ok(0)
    else if m.loss > 10_000 then Err(InvalidMeasurements)
    else
      var q := QualitiesOf(p.limits, m);
      WeightedFits(p.weights, q);
      Ok(Quotient(Weighted(p.weights, q), p.weights.Total()))
  }

  function Quotient(sum: u64, total: u32): u32
    requires total > 0
  {
    DivShrinks(sum, total);
    UnwrapOr(ToU32(sum / total), QUALITY_MAX)
  }

  predicate Scorable(p: RoutingPolicy, m: Measurements) {
    p.Valid() && m.available && m.loss <= 10_000
  }

  /** A weighted mean lies between the worst and the best of its parts. */
  lemma MeanBetween(w: Weights, q: Qualities, low: nat, high: nat)
    requires w.Total() > 0 && q.Between(low, high)
    ensures low <= Weighted(w, q) / w.Total() <= high
  {
    var sum, total := Weighted(w, q), w.Total();
    WeightedAtLeast(w, q, low, high);
    WeightedAtMost(w, q, low, high);
    assert sum >= 0;
    QuotientBetween(sum, total, low, high);
  }

  lemma QuotientBetween(sum: nat, total: nat, low: nat, high: nat)
    requires total > 0 && low * total <= sum <= high * total
    ensures low <= sum / total <= high
  {
    DivExact(sum, total, low);
    DivExact(sum, total, high + 1);
    assert (high + 1) * total == high * total + total;
  }

  /**
   * The conversion never falls back: a score is the weighted mean of the
   * qualities, so it lies between the worst and the best of them.
   */
  lemma ScoreExact(p: RoutingPolicy, m: Measurements, low: nat, high: nat)
    requires Scorable(p, m)
    ensures Score(p, m) == Ok(Weighted(p.weights, QualitiesOf(p.limits, m)) / p.weights.Total())
    ensures Score(p, m).value <= QUALITY_MAX
    ensures QualitiesOf(p.limits, m).Between(low, high) ==> low <= Score(p, m).value <= high
  {
    var q := QualitiesOf(p.limits, m);
    MeanBetween(p.weights, q, 0, QUALITY_MAX);
    if q.Between(low, high) {
      MeanBetween(p.weights, q, low, high);
    }
  }

  /** The whole computation in one formula: limits cut off, parts rounded down, and the mean rounded down. */
  lemma ScoreFormula(p: RoutingPolicy, m: Measurements)
    requires Scorable(p, m)
    ensures
      var w, l := p.weights, p.limits;
      var latency := if m.latency >= l.latency then 0 else 10_000 - m.latency * 10_000 / l.latency;
      var jitter := if m.jitter >= l.jitter then 0 else 10_000 - m.jitter * 10_000 / l.jitter;
      var bandwidth := if m.bandwidth >= l.bandwidth then 10_000 else m.bandwidth * 10_000 / l.bandwidth;
      var sum := latency * w.latency + jitter * w.jitter + (10_000 - m.loss) * w.loss + bandwidth * w.bandwidth;
      Score(p, m) == Ok(sum / (w.latency + w.jitter + w.loss + w.bandwidth))
  {
    InverseQualityExact(m.latency, p.limits.latency, 0);
    InverseQualityExact(m.jitter, p.limits.jitter, 0);
    DirectQualityExact(m.bandwidth, p.limits.bandwidth, 0);
    ScoreExact(p, m, 0, 0);
  }

  /** A weight counts for its own measurement, against its own limit: alone it decides the score. */
  lemma SingleWeight(p: RoutingPolicy, m: Measurements)
    requires Scorable(p, m)
    ensures
      var w := p.weights;
      && (w.latency == w.Total() ==> Score(p, m) == Ok(InverseQuality(m.latency, p.limits.latency)))
      && (w.jitter == w.Total() ==> Score(p, m) == Ok(InverseQuality(m.jitter, p.limits.jitter)))
      && (w.loss == w.Total() ==> Score(p, m) == Ok(QUALITY_MAX - m.loss))
      && (w.bandwidth == w.Total() ==> Score(p, m) == Ok(DirectQuality(m.bandwidth, p.limits.bandwidth)))
  {
    ScoreExact(p, m, 0, 0);
    var w, q := p.weights, QualitiesOf(p.limits, m);
    if w.latency == w.Total() {
      Alone(q.latency, w.latency);
    } else if w.jitter == w.Total() {
      Alone(q.jitter, w.jitter);
    } else if w.loss == w.Total() {
      Alone(q.loss, w.loss);
    } else if w.bandwidth == w.Total() {
      Alone(q.bandwidth, w.bandwidth);
    }
  }

  lemma Alone(quality: nat, weight: nat)
    requires weight > 0
    ensures quality * weight / weight == quality
  {
    DivExact(quality * weight, weight, quality);
    DivExact(quality * weight, weight, quality + 1);
  }

  lemma ScoreBounded(p: RoutingPolicy, m: Measurements)
    ensures Score(p, m).Ok? <==> p.Valid() && (m.available ==> m.loss <= 10_000)
    ensures Score(p, m) == Err(InvalidPolicy) <==> !p.Valid()
    ensures Score(p, m) == Err(InvalidMeasurements) <==> p.Valid() && m.available && m.loss > 10_000
    ensures p.Valid() && !m.available ==> Score(p, m) == Ok(0)
    ensures Score(p, m).Ok? ==> Score(p, m).value <= QUALITY_MAX
  {
    if Scorable(p, m) { ScoreExact(p, m, 0, QUALITY_MAX); }
  }

  /** No measurement of `a` is worse than that of `b`. */
  predicate NoWorse(a: Measurements, b: Measurements) {
    a.latency <= b.latency && a.jitter <= b.jitter && a.loss <= b.loss && a.bandwidth >= b.bandwidth
  }

  /** Improving any measurements never lowers the score, whatever the weights and limits. */
  lemma ScoreMonotone(p: RoutingPolicy, a: Measurements, b: Measurements)
    requires Scorable(p, a) && Score(p, b).Ok? && (b.available ==> NoWorse(a, b))
    ensures Score(p, a).value >= Score(p, b).value
  {
    if b.available {
      ScoreExact(p, a, 0, 0);
      ScoreExact(p, b, 0, 0);
      QualitiesMonotone(p.limits, a, b);
      WeightedMonotone(p.weights, QualitiesOf(p.limits, a), QualitiesOf(p.limits, b));
      DivMonotone(Weighted(p.weights, QualitiesOf(p.limits, b)), Weighted(p.weights, QualitiesOf(p.limits, a)),
                  p.weights.Total());
    }
  }

  lemma QualitiesMonotone(limits: Limits, a: Measurements, b: Measurements)
    requires limits.latency != 0 && limits.jitter != 0 && limits.bandwidth != 0
    requires b.loss <= QUALITY_MAX && NoWorse(a, b)
    ensures QualitiesOf(limits, a).AtLeast(QualitiesOf(limits, b))
  {
    NormalizedMonotone(a.latency, b.latency, limits.latency);
    NormalizedMonotone(a.jitter, b.jitter, limits.jitter);
    NormalizedMonotone(b.bandwidth, a.bandwidth, limits.bandwidth);
  }

  lemma NormalizedMonotone(a: u32, b: u32, limit: u32)
    requires limit != 0 && a <= b
    ensures Normalized(a, limit) <= Normalized(b, limit)
  {
    MulMonotone(a, b, QUALITY_MAX);
    DivMonotone(a * QUALITY_MAX, b * QUALITY_MAX, limit);
  }

  lemma WeightedMonotone(w: Weights, a: Qualities, b: Qualities)
    requires a.AtLeast(b)
    ensures Weighted(w, a) >= Weighted(w, b)
  {
    MulMonotone(b.latency, a.latency, w.latency);
    MulMonotone(b.jitter, a.jitter, w.jitter);
    MulMonotone(b.loss, a.loss, w.loss);
    MulMonotone(b.bandwidth, a.bandwidth, w.bandwidth);
  }
}
