/** One endpoint's capacity records in the store and the operations that read and write
    them: the usage counter (internal/server/server.go and internal/store/valkey.go), the
    gate, and the learned decrease (internal/store/capacity_estimate.go). Each operation is
    atomic here; module CapacityRace takes the decrease apart. */
module CapacityControl {
  import opened Prelude
  import opened Config
  import opened CapacityEstimate

  /** The fixed window an instant falls into: Unix seconds divided by the window width. */
  function Bucket(at: nat, windowSeconds: int): int
    requires windowSeconds >= 1
  {
    at / SECOND / windowSeconds
  }

  /** How many of the logged instants fall into a window. */
  function Attempts(log: seq<nat>, windowSeconds: int, bucket: int): nat
    requires windowSeconds >= 1
  {
    if log == [] then 0
    else Attempts(log[..|log| - 1], windowSeconds, bucket)
         + if Bucket(log[|log| - 1], windowSeconds) == bucket then 1 else 0
  }

  lemma AttemptsAppend(log: seq<nat>, at: nat, windowSeconds: int, bucket: int)
    requires windowSeconds >= 1
    ensures Attempts(log + [at], windowSeconds, bucket)
         == Attempts(log, windowSeconds, bucket) + if Bucket(at, windowSeconds) == bucket then 1 else 0
  {
    assert (log + [at])[..|log|] == log;
  }

  lemma BucketSpan(at: nat, windowSeconds: int)
    requires windowSeconds >= 1
    ensures
      var b := Bucket(at, windowSeconds);
      b >= 0 && b * Seconds(windowSeconds) <= at < (b + 1) * Seconds(windowSeconds)
  {
    var q := at / SECOND;
    var b, r := q / windowSeconds, q % windowSeconds;
    assert q == b * windowSeconds + r;
    assert (b + 1) * windowSeconds == b * windowSeconds + windowSeconds;
    assert b * Seconds(windowSeconds) == Seconds(b * windowSeconds);
    assert (b + 1) * Seconds(windowSeconds) == Seconds((b + 1) * windowSeconds);
  }

  /** Consecutive instants are at least `gap` apart. */
  predicate Spaced(instants: seq<int>, gap: int) {
    forall i :: 0 < i < |instants| ==> instants[i] - instants[i - 1] >= gap
  }

  lemma {:induction false} SpacedSpread(instants: seq<int>, gap: int, i: nat, j: nat)
    requires Spaced(instants, gap) && i <= j < |instants|
    ensures instants[j] - instants[i] >= (j - i) * gap
    decreases j
  {
    if i < j {
      SpacedSpread(instants, gap, i, j - 1);
      assert (j - i) * gap == (j - 1 - i) * gap + gap;
    }
  }

  /** At most span/gap + 1 instants spaced by `gap` fit into any stretch of length `span`. */
  lemma SpacedDensity(instants: seq<int>, gap: int, span: nat, i: nat, j: nat)
    requires gap >= 1 && Spaced(instants, gap) && i <= j < |instants|
    requires instants[j] - instants[i] <= span
    ensures j - i + 1 <= span / gap + 1
  {
    SpacedSpread(instants, gap, i, j);
    QuotientAtLeast(span, gap, j - i);
  }

  /** A counter key in the store, with the expiry its last increment set. */
  datatype Counter = Counter(count: nat, expiresAt: int)

  datatype Ceiling = Ceiling(maxRequests: int, windowSeconds: int)

  /** The current window's counter, or 0 when its key is absent or has expired. */
  function Live(counters: map<int, Counter>, windowSeconds: int, now: nat): nat
    requires windowSeconds >= 1
  {
    var b := Bucket(now, windowSeconds);
    if b in counters && now < counters[b].expiresAt then counters[b].count else 0
  }

  // ---- Counting since the window in force was set ---------------------------------------

  /** The instant of the first attempt in a bucket, `now` if there is none. */
  function FirstIn(log: seq<nat>, windowSeconds: int, bucket: int, now: nat): nat
    requires windowSeconds >= 1
  {
    if log == [] then now
    else
      var last := log[|log| - 1];
      FirstIn(log[..|log| - 1], windowSeconds, bucket, if Bucket(last, windowSeconds) == bucket then last else now)
  }

  /** What a counter written under an earlier window still adds to a bucket: it has the same
      key, and had not expired when the bucket was first written under the window in force (or
      by now, if it has not been). */
  function Carried(inherited: map<int, Counter>, recent: seq<nat>, windowSeconds: int, bucket: int, now: nat): nat
    requires windowSeconds >= 1
  {
    if bucket in inherited && FirstIn(recent, windowSeconds, bucket, now) < inherited[bucket].expiresAt
    then inherited[bucket].count else 0
  }

  /** How the counters came about from the inherited ones by the attempts since. */
  ghost predicate Tracks(counters: map<int, Counter>, inherited: map<int, Counter>, recent: seq<nat>,
                         windowSeconds: int)
    requires windowSeconds >= 1
  {
    forall b :: TracksAt(counters, inherited, recent, windowSeconds, b)
  }

  ghost predicate TracksAt(counters: map<int, Counter>, inherited: map<int, Counter>, recent: seq<nat>,
                           windowSeconds: int, b: int)
    requires windowSeconds >= 1
  {
    if Attempts(recent, windowSeconds, b) == 0 then
      (b in counters <==> b in inherited) && (b in counters ==> counters[b] == inherited[b])
    else
      && b in counters
      && counters[b].count == Attempts(recent, windowSeconds, b) + Carried(inherited, recent, windowSeconds, b, 0)
      && counters[b].expiresAt >= (b + 1) * Seconds(windowSeconds)
  }

  lemma {:induction false} FirstInIsFixed(log: seq<nat>, windowSeconds: int, bucket: int, now: nat, later: nat)
    requires windowSeconds >= 1
    ensures Attempts(log, windowSeconds, bucket) > 0 ==>
      FirstIn(log, windowSeconds, bucket, now) == FirstIn(log, windowSeconds, bucket, later)
    ensures Attempts(log, windowSeconds, bucket) == 0 ==> FirstIn(log, windowSeconds, bucket, now) == now
    ensures FirstIn(log, windowSeconds, bucket, now) == now
         || Bucket(FirstIn(log, windowSeconds, bucket, now), windowSeconds) == bucket
  {
    if log != [] {
      var last := log[|log| - 1];
      var isIn := Bucket(last, windowSeconds) == bucket;
      FirstInIsFixed(log[..|log| - 1], windowSeconds, bucket, if isIn then last else now, if isIn then last else later);
    }
  }

  lemma FirstInAppend(log: seq<nat>, at: nat, windowSeconds: int, bucket: int, now: nat)
    requires windowSeconds >= 1
    ensures FirstIn(log + [at], windowSeconds, bucket, now)
         == FirstIn(log, windowSeconds, bucket, if Bucket(at, windowSeconds) == bucket then at else now)
  {
    assert (log + [at])[..|log|] == log;
  }

  /** A read returns the attempts counted under the window in force that fall into the current
      window, and what is carried over. */
  lemma LiveCountsRecent(counters: map<int, Counter>, inherited: map<int, Counter>, recent: seq<nat>,
                         windowSeconds: int, now: nat)
    requires windowSeconds >= 1 && Tracks(counters, inherited, recent, windowSeconds)
    ensures
      var b := Bucket(now, windowSeconds);
      Live(counters, windowSeconds, now)
        == Attempts(recent, windowSeconds, b) + Carried(inherited, recent, windowSeconds, b, now)
  {
    var b := Bucket(now, windowSeconds);
    BucketSpan(now, windowSeconds);
    FirstInIsFixed(recent, windowSeconds, b, now, 0);
    assert TracksAt(counters, inherited, recent, windowSeconds, b);
  }

  /** Counting one attempt. */
  function CountedAt(counters: map<int, Counter>, windowSeconds: int, now: nat): map<int, Counter>
    requires windowSeconds >= 1
  {
    counters[Bucket(now, windowSeconds) :=
      Counter(Live(counters, windowSeconds, now) + 1, now + 2 * Seconds(windowSeconds))]
  }

  lemma AttemptKeepsTracking(counters: map<int, Counter>, inherited: map<int, Counter>, recent: seq<nat>,
                             windowSeconds: int, now: nat)
    requires windowSeconds >= 1 && Tracks(counters, inherited, recent, windowSeconds)
    ensures Tracks(CountedAt(counters, windowSeconds, now), inherited, recent + [now], windowSeconds)
    ensures forall b :: Carried(inherited, recent + [now], windowSeconds, b, now)
                     == Carried(inherited, recent, windowSeconds, b, now)
  {
    var here := Bucket(now, windowSeconds);
    LiveCountsRecent(counters, inherited, recent, windowSeconds, now);
    BucketSpan(now, windowSeconds);
    NextBucket(here, Seconds(windowSeconds));
    forall b
      ensures TracksAt(CountedAt(counters, windowSeconds, now), inherited, recent + [now], windowSeconds, b)
      ensures Carried(inherited, recent + [now], windowSeconds, b, now) ==
        Carried(inherited, recent, windowSeconds, b, now)
    {
      assert TracksAt(counters, inherited, recent, windowSeconds, b);
      AttemptsAppend(recent, now, windowSeconds, b);
      FirstInAppend(recent, now, windowSeconds, b, 0);
      FirstInAppend(recent, now, windowSeconds, b, now);
      FirstInIsFixed(recent, windowSeconds, b, 0, now);
    }
  }

  /** The time since the window in force was set: how many attempts had been made and which
      counters were in the store by then, at which instant, and the widest window before. */
  datatype Era = Era(from: nat, inherited: map<int, Counter>, changedAt: nat, widest: nat)

  ghost predicate Tracking(counters: map<int, Counter>, attempts: seq<nat>, era: Era, windowSeconds: int, now: nat)
    requires windowSeconds >= 1 && era.from <= |attempts|
  {
    && Tracks(counters, era.inherited, attempts[era.from..], windowSeconds)
    && (era.from == 0 ==> era.inherited == map[])
    && (forall b | b in counters :: counters[b].expiresAt <= now + 2 * Seconds(Max(era.widest, windowSeconds)))
    && (forall b | b in era.inherited :: era.inherited[b].expiresAt <= era.changedAt + 2 * Seconds(era.widest))
  }

  /** The count of the current window minus the attempts in it: what old counters carry over,
      less the attempts that were counted under other windows. */
  function Discrepancy(attempts: seq<nat>, era: Era, windowSeconds: int, now: nat): int
    requires windowSeconds >= 1 && era.from <= |attempts|
  {
    var b := Bucket(now, windowSeconds);
    Carried(era.inherited, attempts[era.from..], windowSeconds, b, now)
      - Attempts(attempts[..era.from], windowSeconds, b)
  }

  lemma LiveIsOffByDiscrepancy(counters: map<int, Counter>, attempts: seq<nat>, era: Era, windowSeconds: int, now: nat)
    requires windowSeconds >= 1 && era.from <= |attempts| && Tracking(counters, attempts, era, windowSeconds, now)
    ensures Live(counters, windowSeconds, now)
         == Attempts(attempts, windowSeconds, Bucket(now, windowSeconds))
            + Discrepancy(attempts, era, windowSeconds, now)
  {
    LiveCountsRecent(counters, era.inherited, attempts[era.from..], windowSeconds, now);
    AttemptsSplit(attempts, era.from, windowSeconds, Bucket(now, windowSeconds));
  }

  function NextEra(counters: map<int, Counter>, attempts: seq<nat>, era: Era, was: nat, now: nat): Era {
    Era(|attempts|, counters, now, Max(era.widest, was))
  }

  lemma WindowChanges(counters: map<int, Counter>, attempts: seq<nat>, era: Era, was: int, windowSeconds: int, now: nat)
    requires was >= 1 && windowSeconds >= 1 && era.from <= |attempts| && Tracking(counters, attempts, era, was, now)
    ensures Tracking(counters, attempts, NextEra(counters, attempts, era, was, now), windowSeconds, now)
  {
    assert attempts[|attempts|..] == [];
    if attempts == [] {
      forall b ensures b !in counters {
        assert TracksAt(counters, era.inherited, attempts[era.from..], was, b);
      }
    }
  }

  lemma AttemptIsTracked(counters: map<int, Counter>, attempts: seq<nat>, era: Era, windowSeconds: int, now: nat)
    requires windowSeconds >= 1 && era.from <= |attempts| && Tracking(counters, attempts, era, windowSeconds, now)
    ensures Tracking(CountedAt(counters, windowSeconds, now), attempts + [now], era, windowSeconds, now)
    ensures Discrepancy(attempts + [now], era, windowSeconds, now) == Discrepancy(attempts, era, windowSeconds, now)
  {
    AttemptKeepsTracking(counters, era.inherited, attempts[era.from..], windowSeconds, now);
    assert (attempts + [now])[era.from..] == attempts[era.from..] + [now];
    assert (attempts + [now])[..era.from] == attempts[..era.from];
  }

  /** Nothing is off in a window that starts after the earlier counters have expired. */
  lemma DiscrepancyEnds(attempts: seq<nat>, era: Era, windowSeconds: int, now: nat)
    requires windowSeconds >= 1 && era.from <= |attempts|
    requires forall i :: 0 <= i < era.from ==> attempts[i] <= era.changedAt
    requires forall b | b in era.inherited :: era.inherited[b].expiresAt <= era.changedAt + 2 * Seconds(era.widest)
    requires Bucket(era.changedAt + 2 * Seconds(era.widest), windowSeconds) < Bucket(now, windowSeconds)
    ensures Discrepancy(attempts, era, windowSeconds, now) == 0
  {
    var b, over := Bucket(now, windowSeconds), era.changedAt + 2 * Seconds(era.widest);
    BucketsAscend(era.changedAt, over, windowSeconds);
    NoAttemptsLater(attempts[..era.from], windowSeconds, era.changedAt, b);
    var touched := FirstIn(attempts[era.from..], windowSeconds, b, now);
    FirstInIsFixed(attempts[era.from..], windowSeconds, b, now, now);
    if touched < over {
      BucketsAscend(touched, over, windowSeconds);
      assert false;
    }
  }

  lemma {:induction false} AttemptsSplit(log: seq<nat>, n: nat, windowSeconds: int, bucket: int)
    requires windowSeconds >= 1 && n <= |log|
    ensures Attempts(log, windowSeconds, bucket)
         == Attempts(log[..n], windowSeconds, bucket) + Attempts(log[n..], windowSeconds, bucket)
    decreases |log|
  {
    if n == |log| {
      assert log[..n] == log;
    } else {
      var init := log[..|log| - 1];
      AttemptsSplit(init, n, windowSeconds, bucket);
      assert init[..n] == log[..n] && init[n..] == log[n..][..|log| - n - 1];
    }
  }

  lemma {:induction false} NoAttemptsLater(log: seq<nat>, windowSeconds: int, at: nat, bucket: int)
    requires windowSeconds >= 1 && Bucket(at, windowSeconds) < bucket
    requires forall i :: 0 <= i < |log| ==> log[i] <= at
    ensures Attempts(log, windowSeconds, bucket) == 0
  {
    if log != [] {
      NoAttemptsLater(log[..|log| - 1], windowSeconds, at, bucket);
      BucketsAscend(log[|log| - 1], at, windowSeconds);
    }
  }

  lemma BucketsAscend(early: nat, late: nat, windowSeconds: int)
    requires windowSeconds >= 1 && early <= late
    ensures Bucket(early, windowSeconds) <= Bucket(late, windowSeconds)
  {
    BucketSpan(early, windowSeconds);
    BucketSpan(late, windowSeconds);
    var b, c := Bucket(early, windowSeconds), Bucket(late, windowSeconds);
    if c < b {
      MultiplyOrdered(c + 1, b, Seconds(windowSeconds));
      assert false;
    }
  }

  lemma NextBucket(b: int, width: int)
    ensures (b + 1) * width == b * width + width
  {
  }

  class CapacityController {
    const throttling: bool
    const learning: bool
    const capacity: Option<CapacityLimit>
    var params: CapacityLearning
    var clock: nat
    var counters: map<int, Counter>
    var estimate: Estimate

    /** Every dispatch attempt and every persisted decrease. */
    ghost var attempts: seq<nat>
    ghost var decreaseLog: seq<int>

    /** Since when the window in force applies. */
    ghost var era: Era

    /** The window in force: the static one, the frozen one, or the configured one. */
    function CapacityWindowSeconds(): int
      reads this
    {
      if capacity.Some? then capacity.value.windowSeconds
      else if learning && estimate.hasEstimate then estimate.windowSeconds
      else params.windowSeconds
    }

    predicate Counting()
      reads this
    {
      throttling && (capacity.Some? || learning) && CapacityWindowSeconds() >= 1
    }

    ghost function CurrentAttempts(): nat
      reads this
      requires CapacityWindowSeconds() >= 1
    {
      Attempts(attempts, CapacityWindowSeconds(), Bucket(clock, CapacityWindowSeconds()))
    }

    ghost predicate Timely()
      reads this
    {
      && era.changedAt <= clock && era.from <= |attempts|
      && (forall i :: 0 <= i < |attempts| ==> attempts[i] <= clock)
      && (forall i :: 0 <= i < era.from ==> attempts[i] <= era.changedAt)
    }

    ghost function CurrentDiscrepancy(): int
      reads this
      requires CapacityWindowSeconds() >= 1 && era.from <= |attempts|
    {
      Discrepancy(attempts, era, CapacityWindowSeconds(), clock)
    }

    ghost predicate Valid()
      reads this
    {
      && InRange(params)
      && Sound(estimate, params.(minEstimate := 1))
      && Timely()
      && (Counting() ==> Tracking(counters, attempts, era, CapacityWindowSeconds(), clock))
      && (decreaseLog == [] <==> !estimate.hasEstimate)
      && (estimate.hasEstimate ==> decreaseLog[|decreaseLog| - 1] == estimate.lastDecreaseAt <= clock)
      && Spaced(decreaseLog, Seconds(estimate.windowSeconds))
    }

    constructor (throttling: bool, learning: bool, capacity: Option<CapacityLimit>, params: CapacityLearning)
      requires InRange(params)
      ensures Valid() && era.from == 0 && attempts == [] && !estimate.hasEstimate
      ensures this.throttling == throttling && this.learning == learning
      ensures this.capacity == capacity && this.params == params
    {
      this.throttling := throttling;
      this.learning := learning;
      this.capacity := capacity;
      this.params := params;
      clock := 0;
      counters := map[];
      estimate := NO_ESTIMATE;
      attempts := [];
      decreaseLog := [];
      era := Era(0, map[], 0, 0);
    }

    method Advance(d: nat)
      requires Valid()
      modifies this`clock
      ensures Valid() && clock == old(clock) + d
    {
      clock := clock + d;
    }

    /** The operator changes the learning parameters. Once an estimate exists its frozen
        window stays in force; until then another window starts counting afresh, beside what
        the store holds. */
    method Reconfigure(newParams: CapacityLearning)
      requires Valid() && InRange(newParams)
      modifies this`params, this`era
      ensures Valid() && params == newParams
      ensures learning && estimate.hasEstimate ==> CapacityWindowSeconds() == old(CapacityWindowSeconds())
      ensures era == if CapacityWindowSeconds() == old(CapacityWindowSeconds()) then old(era)
                     else NextEra(counters, attempts, old(era), Max(0, old(CapacityWindowSeconds())), clock)
    {
      ghost var was := CapacityWindowSeconds();
      ghost var counting := Counting();
      params := newParams;
      if CapacityWindowSeconds() != was {
        if counting {
          WindowChanges(counters, attempts, era, was, CapacityWindowSeconds(), clock);
        }
        era := NextEra(counters, attempts, era, Max(0, was), clock);
      }
    }

    /** The cooldown bounds the rate of decreases over the whole run: in any span T at most
        T/W + 1 are persisted. */
    lemma DecreasesAreSparse(i: nat, j: nat, span: nat)
      requires Valid() && i <= j < |decreaseLog| && decreaseLog[j] - decreaseLog[i] <= span
      ensures estimate.windowSeconds >= 1 && j - i + 1 <= span / Seconds(estimate.windowSeconds) + 1
    {
      SpacedDensity(decreaseLog, Seconds(estimate.windowSeconds), span, i, j);
    }

    method IncrementCapacityCount(windowSeconds: int) returns (count: Option<nat>)
      modifies this`counters
      ensures count.None? <==> windowSeconds <= 0
      ensures windowSeconds <= 0 ==> counters == old(counters)
      ensures windowSeconds > 0 ==>
        && count == Some(old(LiveCount(windowSeconds)) + 1)
        && counters == old(counters)[clock / 1_000_000_000 / windowSeconds :=
             Counter(count.value, clock + 2 * windowSeconds * 1_000_000_000)]
      ensures windowSeconds > 0 ==> counters == CountedAt(old(counters), windowSeconds, clock)
    {
      if windowSeconds <= 0 {
        return None;
      }
      var b := Bucket(clock, windowSeconds);
      var n := LiveCount(windowSeconds) + 1;
      counters := counters[b := Counter(n, clock + 2 * Seconds(windowSeconds))];
      return Some(n);
    }

    function LiveCount(windowSeconds: int): nat
      requires windowSeconds >= 1
      reads this
    {
      Live(counters, windowSeconds, clock)
    }

    function GetCapacityCount(windowSeconds: int): Option<nat>
      reads this
    {
      if windowSeconds <= 0 then None else Some(LiveCount(windowSeconds))
    }

    /** What the gate and a decrease read is right if and only if the attempts of the current
        window that were counted under another one are as many as an unexpired counter carries
        over under the same key; otherwise it is off by the difference. */
    lemma CountIsAttempts()
      requires Valid() && Counting()
      ensures LiveCount(CapacityWindowSeconds()) == CurrentAttempts() + CurrentDiscrepancy()
      ensures
        var w, b := CapacityWindowSeconds(), Bucket(clock, CapacityWindowSeconds());
        GetCapacityCount(w) == Some(CurrentAttempts()) <==>
          Attempts(attempts[..era.from], w, b) == Carried(era.inherited, attempts[era.from..], w, b, clock)
    {
      LiveIsOffByDiscrepancy(counters, attempts, era, CapacityWindowSeconds(), clock);
    }

    /** The count is right if the window in force was never changed after an attempt. And a
        change heals itself: in every window that starts once the counters of the earlier
        windows have expired, twice their width after the change, the count is right again. */
    lemma CountIsRightAgain()
      requires Valid() && Counting()
      requires
        var over := era.changedAt + 2 * Seconds(era.widest);
        era.from == 0 || Bucket(over, CapacityWindowSeconds()) < Bucket(clock, CapacityWindowSeconds())
      ensures GetCapacityCount(CapacityWindowSeconds()) == Some(CurrentAttempts())
    {
      CountIsAttempts();
      if era.from == 0 {
        assert attempts[..era.from] == [];
      } else {
        DiscrepancyEnds(attempts, era, CapacityWindowSeconds(), clock);
      }
    }

    /** Every dispatch attempt is counted once, in the window in force. */
    method RecordCapacityUsage()
      requires Valid()
      modifies this`counters, this`attempts
      ensures Valid() && attempts == old(attempts) + [clock]
      ensures Counting() ==> CurrentAttempts() == old(CurrentAttempts()) + 1
      ensures Counting() ==> CurrentDiscrepancy() == old(CurrentDiscrepancy())
      ensures counters ==
        if throttling && (capacity.Some? || learning) && CapacityWindowSeconds() >= 1
        then CountedAt(old(counters), CapacityWindowSeconds(), clock) else old(counters)
    {
      if Counting() {
        AttemptIsTracked(counters, attempts, era, CapacityWindowSeconds(), clock);
        AttemptsAppend(attempts, clock, CapacityWindowSeconds(), Bucket(clock, CapacityWindowSeconds()));
      }
      attempts := attempts + [clock];
      if !throttling {
        return;
      }
      if capacity.None? && !learning {
        return;
      }
      var _ := IncrementCapacityCount(CapacityWindowSeconds());
    }

    /** The ceiling to gate and weight the endpoint against, if it has one. */
    function EffectiveCapacityCeiling(): Option<Ceiling>
      reads this
    {
      if capacity.Some? then
        if capacity.value.maxRequests <= 0 || capacity.value.windowSeconds <= 0 then None
        else Some(Ceiling(capacity.value.maxRequests, capacity.value.windowSeconds))
      else if !learning || !estimate.hasEstimate then None
      else
        var m := EffectiveMaxRequests(estimate, params, clock);
        if m <= 0 || estimate.windowSeconds <= 0 then None else Some(Ceiling(m, estimate.windowSeconds))
    }

    /** The ceiling a running ticker would hold by now, starting at the last decrease. */
    ghost function TickerCeiling(): int
      reads this
      requires params.increaseInterval >= 1 && estimate.lastDecreaseAt <= clock
    {
      var period := params.increaseInterval * 1_000_000_000;
      Elapse(StartTicker(estimate, period), estimate.increaseStep, period, clock - estimate.lastDecreaseAt).ceiling
    }

    /** Which ceiling an endpoint has: with a static capacity exactly its two positive numbers,
        with learning and an estimate the ticker's ceiling over the frozen window, and no other. */
    lemma CeilingIsStaticOrTicker()
      requires Valid()
      ensures EffectiveCapacityCeiling() ==
        if capacity.Some? then
          if capacity.value.maxRequests > 0 && capacity.value.windowSeconds > 0
          then Some(Ceiling(capacity.value.maxRequests, capacity.value.windowSeconds)) else None
        else if learning && estimate.hasEstimate then Some(Ceiling(TickerCeiling(), estimate.windowSeconds))
        else None
    {
      if estimate.hasEstimate {
        TickerIsEffective();
        GrowthIsMonotone(estimate, params, estimate.lastDecreaseAt, clock);
      }
    }

    lemma TickerIsEffective()
      requires Valid() && estimate.hasEstimate
      ensures TickerCeiling() == EffectiveMaxRequests(estimate, params, clock)
    {
      var period: nat := params.increaseInterval * 1_000_000_000;
      TickerClosedForm(estimate, period, clock - estimate.lastDecreaseAt);
    }

    /** A ceiling always speaks about the window the usage is counted in. */
    lemma CeilingUsesTheCountedWindow()
      requires Valid() && EffectiveCapacityCeiling().Some?
      ensures EffectiveCapacityCeiling().value.windowSeconds == CapacityWindowSeconds() >= 1
      ensures EffectiveCapacityCeiling().value.maxRequests >= 1
      ensures learning && estimate.hasEstimate && capacity.None? ==>
        EffectiveCapacityCeiling().value.maxRequests >= estimate.maxRequests
    {
      if capacity.None? {
        GrowthIsMonotone(estimate, params, estimate.lastDecreaseAt, clock);
      }
    }

    /** The gate: an endpoint is skipped exactly when throttling is on and the attempts of the
        current window, with the discrepancy, have reached the static ceiling, or without one
        the learned ceiling with its growth since the last decrease. */
    method AtCeiling() returns (skip: bool)
      requires Valid()
      ensures capacity.Some? ==>
        (skip <==>
          && throttling && capacity.value.maxRequests > 0 && capacity.value.windowSeconds > 0
          && CurrentAttempts() + CurrentDiscrepancy() >= capacity.value.maxRequests)
      ensures capacity.None? ==>
        (skip <==>
          && throttling && learning && estimate.hasEstimate
          && CurrentAttempts() + CurrentDiscrepancy() >= TickerCeiling())
    {
      if !throttling {
        return false;
      }
      CeilingIsStaticOrTicker();
      var ceiling := EffectiveCapacityCeiling();
      if ceiling.None? {
        return false;
      }
      CeilingUsesTheCountedWindow();
      CountIsAttempts();
      var count := GetCapacityCount(ceiling.value.windowSeconds);
      return count.Some? && count.value >= ceiling.value.maxRequests;
    }

    /** A hit lowers the estimate exactly when learning is in charge, the hit is not a daily
        quota, and the last persisted decrease, if there is one, is a whole window ago. */
    lemma EligibleIffCooledDown(isDailyQuota: bool)
      requires Valid()
      ensures DecreaseEligible(isDailyQuota) <==>
        && throttling && learning && capacity.None? && !isDailyQuota
        && (decreaseLog == [] ||
            clock - decreaseLog[|decreaseLog| - 1] >= estimate.windowSeconds * 1_000_000_000)
    {
    }

    predicate DecreaseEligible(isDailyQuota: bool)
      reads this
    {
      && throttling && learning && capacity.None? && !isDailyQuota
      && ShouldApplyCapacityDecrease(estimate, CapacityWindowSeconds(), clock)
    }

    /** A confirmed hit lowers the estimate on the count of the current window, at most once
        per window width, and never touches the frozen window. */
    method ApplyLearnedCapacityDecreaseIfEligible(isDailyQuota: bool)
      requires Valid()
      modifies this`estimate, this`decreaseLog
      ensures Valid() && CapacityWindowSeconds() == old(CapacityWindowSeconds())
      ensures !old(DecreaseEligible(isDailyQuota)) ==> estimate == old(estimate) && decreaseLog == old(decreaseLog)
      ensures old(DecreaseEligible(isDailyQuota)) ==>
        && decreaseLog == old(decreaseLog) + [clock]
        && CapacityWindowSeconds() >= 1
        && estimate == ApplyCapacityDecrease(old(estimate), EffectiveMaxRequests(old(estimate), params, clock),
                                             CurrentAttempts() + CurrentDiscrepancy(), CapacityWindowSeconds(),
                                             params, clock)
    {
      if !throttling || !learning || capacity.Some? || isDailyQuota {
        return;
      }
      var now := clock;
      var prior := estimate;
      var windowSeconds := params.windowSeconds;
      if prior.hasEstimate {
        windowSeconds := prior.windowSeconds;
      }
      if !ShouldApplyCapacityDecrease(prior, windowSeconds, now) {
        return;
      }
      CountIsAttempts();
      var observed := GetCapacityCount(windowSeconds);
      if observed.None? {
        return;
      }
      var effectiveNow := EffectiveMaxRequests(prior, params, now);
      estimate := ApplyCapacityDecrease(prior, effectiveNow, observed.value, windowSeconds, params, now);
      decreaseLog := decreaseLog + [now];
    }
  }

  /** The count can be wrong: an attempt counted under 60 seconds sits in another key than the
      one a 10-second window reads, so a decrease at the same instant misses it. */
  lemma ChangedWindowMissesAttempts()
    ensures
      var at := 60 * SECOND;
      var counters := CountedAt(map[], 60, at);
      && Tracks(counters, map[], [at], 60) && Tracks(counters, counters, [], 10)
      && Live(counters, 10, at) == 0 == Carried(counters, [], 10, Bucket(at, 10), at)
      && Attempts([at], 10, Bucket(at, 10)) == 1
  {
    var at := 60 * SECOND;
    assert [at][..0] == [];
    AttemptsAppend([], at, 10, Bucket(at, 10));
    AttemptKeepsTracking(map[], map[], [], 60, at);
    assert [] + [at] == [at];
  }
}
