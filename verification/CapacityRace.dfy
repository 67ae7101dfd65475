/** The learned decrease taken apart (internal/store/capacity_estimate.go): any number of
    replicas of the load balancer and the health checker share one configuration and one
    stored estimate, and their clock read, estimate read, count read and write interleave
    freely. A store error or a crash abandons an attempt at any point. */
module CapacityRace {
  import opened Prelude
  import opened Config
  import opened CapacityEstimate

  /** How far one replica has got with one decrease. */
  datatype Phase =
    | Idle
    | Clocked(now: nat)
    | Loaded(now: nat, prior: Estimate)
    | Observed(now: nat, prior: Estimate, count: nat)

  datatype World = World(clock: nat, stored: Estimate, replicas: map<nat, Phase>)

  datatype Step =
    | Advance(d: nat)
    | ReadClock(replica: nat)
    | ReadEstimate(replica: nat)
    | ReadCount(replica: nat, count: nat)
    | Write(replica: nat)
    | Abandon(replica: nat)

  function PhaseOf(w: World, r: nat): Phase {
    if r in w.replicas then w.replicas[r] else Idle
  }

  function WithPhase(w: World, r: nat, p: Phase): World {
    w.(replicas := w.replicas[r := p])
  }

  function WindowFor(prior: Estimate, params: CapacityLearning): int {
    if prior.hasEstimate then prior.windowSeconds else params.windowSeconds
  }

  /** The estimate a decrease writes for what it read. */
  function Computed(p: Phase, params: CapacityLearning): Estimate
    requires p.Observed?
  {
    ApplyCapacityDecrease(p.prior, EffectiveMaxRequests(p.prior, params, p.now), p.count, WindowFor(p.prior, params),
                          params, p.now)
  }

  /** One step of one replica; a step its replica is not ready for changes nothing. */
  function Next(w: World, s: Step, params: CapacityLearning): World {
    match s
    case Advance(d) => w.(clock := w.clock + d)
    case ReadClock(r) => if PhaseOf(w, r).Idle? then WithPhase(w, r, Clocked(w.clock)) else w
    case ReadEstimate(r) =>
      if !PhaseOf(w, r).Clocked? then w
      else
        var now := PhaseOf(w, r).now;
        if ShouldApplyCapacityDecrease(w.stored, WindowFor(w.stored, params), now)
        then WithPhase(w, r, Loaded(now, w.stored)) else WithPhase(w, r, Idle)
    case ReadCount(r, count) =>
      if !PhaseOf(w, r).Loaded? then w
      else WithPhase(w, r, Observed(PhaseOf(w, r).now, PhaseOf(w, r).prior, count))
    case Write(r) =>
      if !PhaseOf(w, r).Observed? then w
      else WithPhase(w.(stored := Computed(PhaseOf(w, r), params)), r, Idle)
    case Abandon(r) => WithPhase(w, r, Idle)
  }

  function Run(w: World, steps: seq<Step>, params: CapacityLearning): World {
    if steps == [] then w else Next(Run(w, steps[..|steps| - 1], params), steps[|steps| - 1], params)
  }

  /** A persisted estimate is sound, carries the one shared window, and is not from the future. */
  predicate Persistable(e: Estimate, params: CapacityLearning, clock: nat) {
    e.hasEstimate ==> Sound(e, params) && e.windowSeconds == params.windowSeconds && e.lastDecreaseAt <= clock
  }

  ghost predicate Safe(w: World, params: CapacityLearning) {
    && Persistable(w.stored, params, w.clock)
    && forall r | r in w.replicas ::
         && (!w.replicas[r].Idle? ==> w.replicas[r].now <= w.clock)
         && (w.replicas[r].Loaded? || w.replicas[r].Observed? ==>
              && Persistable(w.replicas[r].prior, params, w.clock)
              && ShouldApplyCapacityDecrease(w.replicas[r].prior, params.windowSeconds, w.replicas[r].now))
  }

  lemma StepKeepsSafe(w: World, s: Step, params: CapacityLearning)
    requires InRange(params) && Safe(w, params)
    ensures Safe(Next(w, s, params), params)
  {
    if s.Write? && PhaseOf(w, s.replica).Observed? {
      var p := PhaseOf(w, s.replica);
      DecreaseIsSafe(p.prior, p.count, WindowFor(p.prior, params), params, p.now);
    }
  }

  /** Whatever the interleaving, from an empty store or any safe one, every estimate that is
      ever stored keeps the floor, the step and the seeded window. */
  lemma {:induction false} RunStaysSafe(w: World, steps: seq<Step>, params: CapacityLearning)
    requires InRange(params) && Safe(w, params)
    ensures Safe(Run(w, steps, params), params)
  {
    if steps != [] {
      RunStaysSafe(w, steps[..|steps| - 1], params);
      StepKeepsSafe(Run(w, steps[..|steps| - 1], params), steps[|steps| - 1], params);
    }
  }

  /** No write in any run raises a ceiling above the effective ceiling its writer read, and
      it goes strictly below when that ceiling was above the floor. */
  lemma EveryWriteLowersWhatItRead(w: World, steps: seq<Step>, r: nat, params: CapacityLearning)
    requires InRange(params) && Safe(w, params)
    requires PhaseOf(Run(w, steps, params), r).Observed?
    ensures
      var p := PhaseOf(Run(w, steps, params), r);
      var effective := EffectiveMaxRequests(p.prior, params, p.now);
      var written := Next(Run(w, steps, params), Write(r), params).stored;
      && written.hasEstimate && written.maxRequests >= params.minEstimate
      && written.maxRequests <= Max(params.minEstimate, p.count)
      && (p.prior.hasEstimate ==> written.maxRequests <= effective)
      && (p.prior.hasEstimate && effective > params.minEstimate ==> written.maxRequests < effective)
      && (p.prior.hasEstimate ==> p.now - p.prior.lastDecreaseAt >= Seconds(params.windowSeconds))
  {
    RunStaysSafe(w, steps, params);
    var p := PhaseOf(Run(w, steps, params), r);
    DecreaseIsSafe(p.prior, p.count, WindowFor(p.prior, params), params, p.now);
  }

  /** What a decrease scales down: the smaller of the ceiling and the count it read. */
  function Base(p: Phase, params: CapacityLearning): int
    requires p.Observed?
  {
    DecreaseBase(p.prior, EffectiveMaxRequests(p.prior, params, p.now), p.count)
  }

  lemma BaseIsNatural(p: Phase, params: CapacityLearning)
    requires InRange(params) && p.Observed? && Sound(p.prior, params)
    ensures Base(p, params) >= 0
  {
    if p.prior.hasEstimate {
      GrowthIsMonotone(p.prior, params, Min(p.prior.lastDecreaseAt, p.now), p.now);
    }
  }

  /** Scaled down by the factor, the base still comes to the given ceiling plus one. */
  predicate Exceeds(base: int, factor: real, ceiling: int) {
    base as real * factor >= ceiling as real + 1.0
  }

  lemma ScaledExceeds(base: int, factor: real, ceiling: int)
    requires base >= 0 && 0.0 < factor < 1.0
    ensures Scaled(base, factor) > ceiling <==> Exceeds(base, factor, ceiling)
  {
    var y := ProductBounds(base as real, factor);
    TruncatesAbove(y, ceiling);
  }

  lemma ComputedIsScaled(p: Phase, params: CapacityLearning)
    requires p.Observed?
    ensures Computed(p, params).maxRequests == Max(params.minEstimate, Scaled(Base(p, params), params.decreaseFactor))
  {
  }

  /** In every run a write raises the stored ceiling if and only if what its writer scales
      down, times the configured factor, comes to the stored ceiling plus one. */
  lemma WriteRaisesIff(w: World, steps: seq<Step>, r: nat, params: CapacityLearning)
    requires InRange(params) && Safe(w, params)
    requires Run(w, steps, params).stored.hasEstimate && PhaseOf(Run(w, steps, params), r).Observed?
    ensures
      var now := Run(w, steps, params);
      var raised := Next(now, Write(r), params).stored.maxRequests > now.stored.maxRequests;
      raised <==> Exceeds(Base(PhaseOf(now, r), params), params.decreaseFactor, now.stored.maxRequests)
  {
    RunStaysSafe(w, steps, params);
    var now := Run(w, steps, params);
    var p := PhaseOf(now, r);
    BaseIsNatural(p, params);
    ComputedIsScaled(p, params);
    ScaledExceeds(Base(p, params), params.decreaseFactor, now.stored.maxRequests);
    assert Next(now, Write(r), params).stored == Computed(p, params);
  }

  lemma TruncatesAbove(x: real, n: int)
    requires x >= 0.0
    ensures Truncate(x) > n <==> x >= n as real + 1.0
  {
    var t := Truncate(x);
    assert t as real <= x < t as real + 1.0;
    if t > n {
      assert t as real >= (n + 1) as real;
    } else {
      assert t as real <= n as real;
    }
  }

  /** With the factor f, q's write leaves no larger a ceiling than p's. */
  predicate ErrsLow(p: Phase, q: Phase, params: CapacityLearning, f: real)
    requires p.Observed? && q.Observed?
  {
    Computed(q, params.(decreaseFactor := f)).maxRequests <= Computed(p, params.(decreaseFactor := f)).maxRequests
  }

  /** The parameter-free form: when q overwrites p's result, the ceiling does not rise under any
      factor exactly if q started from no more than p did or from the floor plus one at most. */
  lemma OverwritingErrsLowIff(p: Phase, q: Phase, params: CapacityLearning)
    requires InRange(params) && p.Observed? && q.Observed? && Sound(p.prior, params) && Sound(q.prior, params)
    ensures (forall f | 0.0 < f < 1.0 :: ErrsLow(p, q, params, f))
       <==> Base(q, params) <= Base(p, params) || Base(q, params) <= params.minEstimate + 1
  {
    BaseIsNatural(p, params);
    BaseIsNatural(q, params);
    var a, b := Base(q, params), Base(p, params);
    if a <= b || a <= params.minEstimate + 1 {
      forall f | 0.0 < f < 1.0 ensures ErrsLow(p, q, params, f) {
        ScaledBounds(a, f);
        if a <= b {
          ScalingIsMonotone(a, b, f);
        }
      }
    } else {
      var f := NearOne(a);
      ScaledBounds(b, f);
      assert !ErrsLow(p, q, params, f);
    }
  }

  /** A factor that takes exactly one off a. */
  lemma NearOne(a: int) returns (f: real)
    requires a >= 2
    ensures 0.0 < f < 1.0 && Scaled(a, f) == a - 1
  {
    var x := a as real;
    f := (x - 1.0) / x;
    assert x * f == x - 1.0;
    assert Truncate(x - 1.0) == a - 1;
  }

  lemma ScalingIsMonotone(a: int, b: int, factor: real)
    requires 0 <= a <= b && 0.0 < factor < 1.0
    ensures Scaled(a, factor) <= Scaled(b, factor)
  {
    var x := ProductBounds(a as real, factor);
    var y := ProductBounds(b as real, factor);
    NonNegativeProduct(b as real - a as real, factor);
    assert x <= y;
    assert x.Floor <= y.Floor;
  }

  /** Overlapping decreases do not always err towards the smaller ceiling: a replica that
      read the count later overwrites the first result with a larger one. */
  lemma LaterWriterMayRaiseTheCeiling()
    ensures
      var start := World(0, NO_ESTIMATE, map[]);
      var both := [ReadClock(0), ReadEstimate(0), ReadCount(0, 4), ReadClock(1), ReadEstimate(1), ReadCount(1, 100),
                   Write(0)];
      && Safe(start, DEFAULT_LEARNING)
      && Run(start, both, DEFAULT_LEARNING).stored.maxRequests == 2
      && Run(start, both + [Write(1)], DEFAULT_LEARNING).stored.maxRequests == 50
  {
    var start := World(0, NO_ESTIMATE, map[]);
    var p := DEFAULT_LEARNING;
    var s := [ReadClock(0), ReadEstimate(0), ReadCount(0, 4), ReadClock(1), ReadEstimate(1), ReadCount(1, 100),
              Write(0)];
    var w0 := RunSnoc(start, [], s[0], s[..1], p);
    var w1 := RunSnoc(start, s[..1], s[1], s[..2], p);
    var w2 := RunSnoc(start, s[..2], s[2], s[..3], p);
    var w3 := RunSnoc(start, s[..3], s[3], s[..4], p);
    var w4 := RunSnoc(start, s[..4], s[4], s[..5], p);
    var w5 := RunSnoc(start, s[..5], s[5], s[..6], p);
    assert PhaseOf(w5, 0) == Observed(0, NO_ESTIMATE, 4) && PhaseOf(w5, 1) == Observed(0, NO_ESTIMATE, 100);
    var w6 := RunSnoc(start, s[..6], s[6], s, p);
    var w7 := RunSnoc(start, s, Write(1), s + [Write(1)], p);
    assert Scaled(4, 0.5) == 2 && Scaled(100, 0.5) == 50;
  }

  /** Undisturbed, the four steps of one replica are a whole decrease: exactly when the stored
      estimate is cooled down, it is replaced by the decrease taken from it at one instant. */
  lemma UndisturbedStepsDecrease(w: World, r: nat, count: nat, params: CapacityLearning)
    requires PhaseOf(w, r).Idle?
    ensures
      var window := if w.stored.hasEstimate then w.stored.windowSeconds else params.windowSeconds;
      var after := Run(w, [ReadClock(r), ReadEstimate(r), ReadCount(r, count), Write(r)], params).stored;
      after ==
        if w.stored.hasEstimate && w.clock - w.stored.lastDecreaseAt < window * 1_000_000_000 then w.stored
        else ApplyCapacityDecrease(w.stored, EffectiveMaxRequests(w.stored, params, w.clock), count, window, params,
                                   w.clock)
  {
    var steps := [ReadClock(r), ReadEstimate(r), ReadCount(r, count), Write(r)];
    var w1 := RunSnoc(w, [], steps[0], steps[..1], params);
    var w2 := RunSnoc(w, steps[..1], steps[1], steps[..2], params);
    var w3 := RunSnoc(w, steps[..2], steps[2], steps[..3], params);
    var w4 := RunSnoc(w, steps[..3], steps[3], steps, params);
  }

  lemma RunSnoc(w: World, steps: seq<Step>, s: Step, all: seq<Step>, params: CapacityLearning) returns (after: World)
    requires all == steps + [s]
    ensures after == Run(w, all, params) == Next(Run(w, steps, params), s, params)
  {
    assert all[..|all| - 1] == steps;
    after := Run(w, all, params);
  }
}
