/** internal/store/capacity_estimate.go: the arithmetic of the learned ceiling. A confirmed
    rate-limit hit multiplies it down; clean time grows it additively, computed lazily from
    the instant of the last decrease. */
module CapacityEstimate {
  import opened Prelude
  import opened Config

  datatype Estimate = Estimate(
    hasEstimate: bool, maxRequests: int, increaseStep: int, windowSeconds: int, lastDecreaseAt: int)

  const NO_ESTIMATE := Estimate(false, 0, 0, 0, 0)

  function Scaled(base: int, factor: real): int {
    Truncate(base as real * factor)
  }

  /** What a decrease starts from: the smaller of the effective ceiling and the observed count. */
  function DecreaseBase(prior: Estimate, effectiveNow: int, observed: int): int {
    if prior.hasEstimate && effectiveNow < observed then effectiveNow else observed
  }

  function StepFor(ceiling: int): int {
    Max(1, ceiling / 10)
  }

  function ApplyCapacityDecrease(prior: Estimate, effectiveNow: int, observed: int, windowSeconds: int,
                                 params: CapacityLearning, now: int): Estimate
  {
    var base := DecreaseBase(prior, effectiveNow, observed);
    var scaled := Scaled(base, params.decreaseFactor);
    var newMax := if scaled < params.minEstimate then params.minEstimate else scaled;
    Estimate(true, newMax, StepFor(newMax), windowSeconds, now)
  }

  predicate ShouldApplyCapacityDecrease(estimate: Estimate, windowSeconds: int, now: int) {
    !estimate.hasEstimate || now - estimate.lastDecreaseAt >= Seconds(windowSeconds)
  }

  function EffectiveMaxRequests(estimate: Estimate, params: CapacityLearning, now: int): int {
    if !estimate.hasEstimate then 0
    else if params.increaseInterval <= 0 then estimate.maxRequests
    else
      var elapsed := now - estimate.lastDecreaseAt;
      if elapsed <= 0 then estimate.maxRequests
      else estimate.maxRequests + elapsed / Seconds(params.increaseInterval) * estimate.increaseStep
  }

  /** What every persisted estimate satisfies. */
  predicate Sound(e: Estimate, params: CapacityLearning) {
    e.hasEstimate ==>
      e.maxRequests >= params.minEstimate && e.increaseStep == StepFor(e.maxRequests) && e.windowSeconds >= 1
  }

  // ---- Decrease -------------------------------------------------------------------------

  lemma ScaledBounds(base: int, factor: real)
    requires base >= 0 && 0.0 < factor < 1.0
    ensures 0 <= Scaled(base, factor) <= base
    ensures base >= 1 ==> Scaled(base, factor) < base
    ensures factor >= 0.5 ==> 2 * Scaled(base, factor) + 1 >= base
    ensures factor <= 0.5 ==> 2 * Scaled(base, factor) <= base
  {
    var y := ProductBounds(base as real, factor);
    TruncateBounds(y, base);
  }

  lemma ProductBounds(x: real, f: real) returns (y: real)
    requires x >= 0.0 && 0.0 < f < 1.0
    ensures y == x * f
    ensures 0.0 <= y <= x
    ensures x > 0.0 ==> y < x
    ensures f >= 0.5 ==> y + y >= x
    ensures f <= 0.5 ==> y + y <= x
  {
    y := x * f;
    NonNegativeProduct(x, f);
    NonNegativeProduct(x, 1.0 - f);
    if f >= 0.5 {
      NonNegativeProduct(x, f - 0.5);
    }
    if f <= 0.5 {
      NonNegativeProduct(x, 0.5 - f);
    }
  }

  lemma NonNegativeProduct(x: real, g: real)
    requires x >= 0.0 && g >= 0.0
    ensures x * g >= 0.0
    ensures x > 0.0 && g > 0.0 ==> x * g > 0.0
  {
  }

  lemma TruncateBounds(y: real, b: int)
    requires 0.0 <= y
    ensures 0 <= Truncate(y)
    ensures y <= b as real ==> Truncate(y) <= b
    ensures y < b as real ==> Truncate(y) < b
    ensures y + y >= b as real ==> 2 * Truncate(y) + 1 >= b
    ensures y + y <= b as real ==> 2 * Truncate(y) <= b
  {
    var s := Truncate(y);
    assert s as real <= y < s as real + 1.0;
  }

  /** A decrease leaves a sound estimate that never exceeds the ceiling it was taken from,
      and is strictly below it unless that ceiling was already at the floor. */
  lemma DecreaseIsSafe(prior: Estimate, observed: int, windowSeconds: int, params: CapacityLearning, now: int)
    requires InRange(params) && Sound(prior, params) && observed >= 0 && windowSeconds >= 1
    ensures
      var effective := EffectiveMaxRequests(prior, params, now);
      var next := ApplyCapacityDecrease(prior, effective, observed, windowSeconds, params, now);
      && next.hasEstimate && Sound(next, params)
      && next.windowSeconds == windowSeconds && next.lastDecreaseAt == now
      && next.maxRequests <= Max(params.minEstimate, observed)
      && (prior.hasEstimate ==> next.maxRequests <= effective)
      && (prior.hasEstimate && effective > params.minEstimate ==> next.maxRequests < effective)
  {
    var effective := EffectiveMaxRequests(prior, params, now);
    if prior.hasEstimate {
      GrowthIsMonotone(prior, params, Min(prior.lastDecreaseAt, now), now);
    }
    ScaledBounds(DecreaseBase(prior, effective, observed), params.decreaseFactor);
  }

  /** m is the base times the factor, rounded down, or the floor if that is larger. */
  predicate IsFlooredProduct(m: int, base: int, factor: real, least: int) {
    && least <= m && (m == least || m as real <= base as real * factor)
    && base as real * factor < m as real + 1.0
  }

  /** What a decrease persists, in numbers: it starts from the smaller of the effective ceiling
      and the observed count, or from the count alone without a prior estimate. The new ceiling
      is that times the factor, rounded down, or the floor; the step is a tenth of it, rounded
      down, and 1 below twenty. */
  lemma DecreaseInNumbers(prior: Estimate, effectiveNow: int, observed: int, windowSeconds: int,
                          params: CapacityLearning, now: int)
    requires InRange(params) && observed >= 0 && effectiveNow >= 0
    ensures
      var next := ApplyCapacityDecrease(prior, effectiveNow, observed, windowSeconds, params, now);
      var base := if prior.hasEstimate then Min(effectiveNow, observed) else observed;
      && IsFlooredProduct(next.maxRequests, base, params.decreaseFactor, params.minEstimate)
      && (if next.maxRequests < 20 then next.increaseStep == 1
          else 10 * next.increaseStep <= next.maxRequests < 10 * next.increaseStep + 10)
      && next.hasEstimate && next.windowSeconds == windowSeconds && next.lastDecreaseAt == now
  {
    var base := DecreaseBase(prior, effectiveNow, observed);
    ScaledIsFloored(base, params.decreaseFactor, params.minEstimate);
    var scaled := Scaled(base, params.decreaseFactor);
    StepInNumbers(if scaled < params.minEstimate then params.minEstimate else scaled);
  }

  lemma StepInNumbers(m: int)
    requires m >= 1
    ensures if m < 20 then StepFor(m) == 1 else 10 * StepFor(m) <= m < 10 * StepFor(m) + 10
  {
  }

  lemma ScaledIsFloored(base: int, factor: real, least: int)
    requires base >= 0 && 0.0 < factor < 1.0
    ensures IsFlooredProduct(if Scaled(base, factor) < least then least else Scaled(base, factor), base, factor, least)
  {
    var y := ProductBounds(base as real, factor);
    TruncationIsBelow(y, least);
  }

  lemma TruncationIsBelow(y: real, least: int)
    requires y >= 0.0
    ensures Truncate(y) as real <= y < Truncate(y) as real + 1.0
    ensures Truncate(y) < least ==> y < least as real + 1.0
  {
    if Truncate(y) < least {
      assert (Truncate(y) + 1) as real <= least as real;
    }
  }

  // ---- Recovery time --------------------------------------------------------------------

  /** With a factor of at least one half, twenty clean intervals always bring the effective
      ceiling back to what the decrease started from. */
  lemma RecoversWithinTwentyIntervals(prior: Estimate, effectiveNow: int, observed: int, windowSeconds: int,
                                      params: CapacityLearning, now: int, later: int)
    requires InRange(params) && params.decreaseFactor >= 0.5
    requires observed >= 0 && effectiveNow >= 0
    requires later >= now + 20 * Seconds(params.increaseInterval)
    ensures
      var next := ApplyCapacityDecrease(prior, effectiveNow, observed, windowSeconds, params, now);
      EffectiveMaxRequests(next, params, later) >= if prior.hasEstimate then Min(effectiveNow, observed) else observed
  {
    var base := DecreaseBase(prior, effectiveNow, observed);
    var next := ApplyCapacityDecrease(prior, effectiveNow, observed, windowSeconds, params, now);
    ScaledBounds(base, params.decreaseFactor);
    assert base <= 2 * next.maxRequests + 1;
    QuotientAtLeast(later - now, Seconds(params.increaseInterval), 20);
    MultiplyOrdered(20, (later - now) / Seconds(params.increaseInterval), next.increaseStep);
    assert next.maxRequests + 20 * next.increaseStep >= base;
  }

  lemma QuotientAtLeast(a: int, d: int, k: int)
    requires d > 0 && a >= k * d
    ensures a / d >= k
  {
    var q, r := a / d, a % d;
    assert a == q * d + r;
    if q < k {
      MultiplyOrdered(q + 1, k, d);
      assert false;
    }
  }

  lemma MultiplyOrdered(a: int, b: int, d: int)
    requires a <= b && d >= 0
    ensures a * d <= b * d
  {
  }

  /** Twenty is the least such number: one nanosecond earlier a halving from 39 is still short. */
  lemma TwentyIntervalsAreNeeded(now: int)
    ensures
      var params := DEFAULT_LEARNING;
      var next := ApplyCapacityDecrease(NO_ESTIMATE, 0, 39, 60, params, now);
      EffectiveMaxRequests(next, params, now + 20 * Seconds(params.increaseInterval) - 1) < 39
  {
    assert Scaled(39, 0.5) == 19;
    assert (20 * Seconds(60) - 1) / Seconds(60) == 19;
  }

  // ---- Contraction under sustained hits -------------------------------------------------

  /** A hit that lands less than two intervals after the last one, with a factor of at most
      one half: the ceiling drops, or sits at the floor; a large one drops by 9/20 or more. */
  lemma HitContracts(prior: Estimate, observed: int, windowSeconds: int, params: CapacityLearning, now: int)
    requires InRange(params) && params.decreaseFactor <= 0.5
    requires Sound(prior, params) && prior.hasEstimate && observed >= 0
    requires now < prior.lastDecreaseAt + 2 * Seconds(params.increaseInterval)
    ensures
      var next := ApplyCapacityDecrease(prior, EffectiveMaxRequests(prior, params, now), observed, windowSeconds,
                                        params, now);
      && (next.maxRequests < prior.maxRequests || next.maxRequests == prior.maxRequests == params.minEstimate)
      && (prior.maxRequests >= 10 && next.maxRequests > params.minEstimate ==>
          20 * next.maxRequests <= 11 * prior.maxRequests)
  {
    var effective := EffectiveMaxRequests(prior, params, now);
    AtMostOneStep(prior, params, now);
    ScaledBounds(DecreaseBase(prior, effective, observed), params.decreaseFactor);
  }

  lemma AtMostOneStep(e: Estimate, params: CapacityLearning, now: int)
    requires InRange(params) && e.hasEstimate && e.increaseStep >= 0
    requires now < e.lastDecreaseAt + 2 * Seconds(params.increaseInterval)
    ensures e.maxRequests <= EffectiveMaxRequests(e, params, now) <= e.maxRequests + e.increaseStep
  {
    var elapsed, period := now - e.lastDecreaseAt, Seconds(params.increaseInterval);
    if elapsed > 0 {
      var steps, rest := elapsed / period, elapsed % period;
      assert elapsed == steps * period + rest;
      if steps >= 2 {
        MultiplyOrdered(2, steps, period);
        assert false;
      }
      assert steps == 0 || steps == 1;
    }
  }

  datatype Hit = Hit(gap: nat, observed: nat)

  function AfterHit(e: Estimate, params: CapacityLearning, hit: Hit): Estimate {
    var now := e.lastDecreaseAt + hit.gap;
    ApplyCapacityDecrease(e, EffectiveMaxRequests(e, params, now), hit.observed, e.windowSeconds, params, now)
  }

  lemma OneHit(e: Estimate, params: CapacityLearning, hit: Hit)
    requires InRange(params) && params.decreaseFactor <= 0.5
    requires Sound(e, params) && e.hasEstimate && hit.gap < 2 * Seconds(params.increaseInterval)
    ensures
      var next := AfterHit(e, params, hit);
      && next.hasEstimate && Sound(next, params)
      && (next.maxRequests < e.maxRequests || next.maxRequests == e.maxRequests == params.minEstimate)
      && (e.maxRequests >= 10 && next.maxRequests > params.minEstimate ==> 20 * next.maxRequests <= 11 * e.maxRequests)
  {
    HitContracts(e, hit.observed, e.windowSeconds, params, e.lastDecreaseAt + hit.gap);
    DecreaseIsSafe(e, hit.observed, e.windowSeconds, params, e.lastDecreaseAt + hit.gap);
  }

  /** The estimate after a burst of hits, each `gap` after the one before. */
  function AfterHits(e: Estimate, params: CapacityLearning, hits: seq<Hit>): Estimate
    decreases |hits|
  {
    if hits == [] then e
    else
      AfterHit(AfterHits(e, params, hits[..|hits| - 1]), params, hits[|hits| - 1])
  }

  predicate Sustained(hits: seq<Hit>, params: CapacityLearning) {
    forall i :: 0 <= i < |hits| ==> hits[i].gap < 2 * Seconds(params.increaseInterval)
  }

  /** Under sustained hits the ceiling reaches the floor and stays there; MaxRequests is the
      termination measure, losing at least one per hit until then. */
  lemma {:induction false} SustainedHitsReachTheFloor(e: Estimate, params: CapacityLearning, hits: seq<Hit>)
    requires InRange(params) && params.decreaseFactor <= 0.5
    requires Sound(e, params) && e.hasEstimate && Sustained(hits, params)
    ensures var after := AfterHits(e, params, hits); after.hasEstimate && Sound(after, params)
    ensures AfterHits(e, params, hits).maxRequests <= Max(params.minEstimate, e.maxRequests - |hits|)
    ensures |hits| >= e.maxRequests - params.minEstimate ==>
      AfterHits(e, params, hits).maxRequests == params.minEstimate
  {
    if hits != [] {
      var earlier, hit := hits[..|hits| - 1], hits[|hits| - 1];
      SustainedHitsReachTheFloor(e, params, earlier);
      OneHit(AfterHits(e, params, earlier), params, hit);
    }
  }

  /** While it stays at ten or more and above the floor, the ceiling shrinks geometrically. */
  lemma {:induction false} SustainedHitsShrinkGeometrically(e: Estimate, params: CapacityLearning, hits: seq<Hit>)
    requires InRange(params) && params.decreaseFactor <= 0.5
    requires Sound(e, params) && e.hasEstimate && Sustained(hits, params)
    requires forall k :: 0 <= k < |hits| ==> AfterHits(e, params, hits[..k]).maxRequests >= 10
    requires AfterHits(e, params, hits).maxRequests > params.minEstimate
    ensures Power(20, |hits|) * AfterHits(e, params, hits).maxRequests <= Power(11, |hits|) * e.maxRequests
  {
    if hits != [] {
      var n := |hits| - 1;
      var earlier := hits[..n];
      forall k | 0 <= k < |earlier| ensures AfterHits(e, params, earlier[..k]).maxRequests >= 10 {
        assert earlier[..k] == hits[..k];
      }
      LastHitShrinks(e, params, hits);
      SustainedHitsShrinkGeometrically(e, params, earlier);
      GeometricStep(Power(20, n), Power(11, n), AfterHits(e, params, hits).maxRequests,
                    AfterHits(e, params, earlier).maxRequests, e.maxRequests);
    }
  }

  lemma LastHitShrinks(e: Estimate, params: CapacityLearning, hits: seq<Hit>)
    requires InRange(params) && params.decreaseFactor <= 0.5 && hits != []
    requires Sound(e, params) && e.hasEstimate && Sustained(hits, params)
    requires AfterHits(e, params, hits[..|hits| - 1]).maxRequests >= 10
    requires AfterHits(e, params, hits).maxRequests > params.minEstimate
    ensures
      var before := AfterHits(e, params, hits[..|hits| - 1]).maxRequests;
      20 * AfterHits(e, params, hits).maxRequests <= 11 * before && before > params.minEstimate
  {
    var earlier, hit := hits[..|hits| - 1], hits[|hits| - 1];
    SustainedHitsReachTheFloor(e, params, earlier);
    OneHit(AfterHits(e, params, earlier), params, hit);
  }

  lemma GeometricStep(p: int, q: int, after: int, before: int, first: int)
    requires p >= 0 && 20 * after <= 11 * before && p * before <= q * first
    ensures 20 * p * after <= 11 * q * first
  {
    assert p * (20 * after) <= p * (11 * before);
    assert 11 * (p * before) <= 11 * (q * first);
    assert p * (11 * before) == 11 * (p * before);
    assert 20 * p * after == p * (20 * after);
    assert 11 * q * first == 11 * (q * first);
  }

  // ---- Lazy growth ----------------------------------------------------------------------

  lemma GrowthIsMonotone(e: Estimate, params: CapacityLearning, early: int, late: int)
    requires e.hasEstimate && e.increaseStep >= 0 && early <= late
    ensures EffectiveMaxRequests(e, params, early) <= EffectiveMaxRequests(e, params, late)
  {
    if params.increaseInterval > 0 && late > e.lastDecreaseAt {
      var period := Seconds(params.increaseInterval);
      var a, b := Max(0, early - e.lastDecreaseAt), late - e.lastDecreaseAt;
      QuotientAtLeast(b, period, a / period);
      MultiplyOrdered(a / period, b / period, e.increaseStep);
      MultiplyOrdered(0, a / period, e.increaseStep);
    }
  }

  /** A background ticker: it holds the ceiling and the nanoseconds left to its next tick. */
  datatype Ticker = Ticker(ceiling: int, untilTick: nat)

  function StartTicker(e: Estimate, period: nat): Ticker {
    Ticker(e.maxRequests, period)
  }

  /** One nanosecond passes. */
  function Tick(t: Ticker, step: int, period: nat): Ticker {
    if t.untilTick <= 1 then Ticker(t.ceiling + step, period) else Ticker(t.ceiling, t.untilTick - 1)
  }

  function Elapse(t: Ticker, step: int, period: nat, d: nat): Ticker {
    if d == 0 then t else Tick(Elapse(t, step, period, d - 1), step, period)
  }

  /** The clock advances by each of the given amounts in turn. */
  function ElapseAll(t: Ticker, step: int, period: nat, advances: seq<nat>): Ticker {
    if advances == [] then t
    else Elapse(ElapseAll(t, step, period, advances[..|advances| - 1]), step, period, advances[|advances| - 1])
  }

  function Total(advances: seq<nat>): nat {
    if advances == [] then 0 else Total(advances[..|advances| - 1]) + advances[|advances| - 1]
  }

  lemma {:induction false} TickerClosedForm(e: Estimate, period: nat, d: nat)
    requires period > 0
    ensures Elapse(StartTicker(e, period), e.increaseStep, period, d)
         == Ticker(e.maxRequests + d / period * e.increaseStep, period - d % period)
  {
    if d > 0 {
      TickerClosedForm(e, period, d - 1);
      NextQuotient(d - 1, period);
      var q := (d - 1) / period;
      assert (q + 1) * e.increaseStep == q * e.increaseStep + e.increaseStep;
    }
  }

  lemma NextQuotient(n: nat, d: nat)
    requires d > 0
    ensures if n % d == d - 1 then (n + 1) / d == n / d + 1 && (n + 1) % d == 0
            else (n + 1) / d == n / d && (n + 1) % d == n % d + 1
  {
    var q, r := n / d, n % d;
    assert n == q * d + r;
    if r == d - 1 {
      assert n + 1 == (q + 1) * d;
      DivisionIsUnique(n + 1, d, q + 1, 0);
    } else {
      DivisionIsUnique(n + 1, d, q, r + 1);
    }
  }

  lemma DivisionIsUnique(n: nat, d: nat, q: int, r: int)
    requires d > 0 && n == q * d + r && 0 <= r < d
    ensures n / d == q && n % d == r
  {
    var p, s := n / d, n % d;
    assert n == p * d + s;
    if q < p {
      MultiplyOrdered(q + 1, p, d);
      assert false;
    } else if p < q {
      MultiplyOrdered(p + 1, q, d);
      assert false;
    }
  }

  lemma {:induction false} ElapseAddsUp(t: Ticker, step: int, period: nat, c: nat, d: nat)
    ensures Elapse(Elapse(t, step, period, c), step, period, d) == Elapse(t, step, period, c + d)
  {
    if d > 0 {
      ElapseAddsUp(t, step, period, c, d - 1);
    }
  }

  lemma {:induction false} ElapseAllIsElapse(t: Ticker, step: int, period: nat, advances: seq<nat>)
    ensures ElapseAll(t, step, period, advances) == Elapse(t, step, period, Total(advances))
  {
    if advances != [] {
      var earlier, last := advances[..|advances| - 1], advances[|advances| - 1];
      ElapseAllIsElapse(t, step, period, earlier);
      ElapseAddsUp(t, step, period, Total(earlier), last);
    }
  }

  /** Lazy growth equals eager growth: however the clock advances between reads, the value
      computed from the persisted estimate is the one a running ticker would hold. */
  lemma LazyGrowthEqualsTicker(e: Estimate, params: CapacityLearning, advances: seq<nat>)
    requires e.hasEstimate && params.increaseInterval > 0
    ensures
      var period := Seconds(params.increaseInterval);
      EffectiveMaxRequests(e, params, e.lastDecreaseAt + Total(advances))
        == ElapseAll(StartTicker(e, period), e.increaseStep, period, advances).ceiling
  {
    var period: nat := Seconds(params.increaseInterval);
    ElapseAllIsElapse(StartTicker(e, period), e.increaseStep, period, advances);
    TickerClosedForm(e, period, Total(advances));
  }
}
