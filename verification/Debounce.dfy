/** Debounced passive health tracking (internal/server/server.go): the outcome of every
    proxied request is an observation, and an endpoint's stored flag follows only runs of
    observations that reach their threshold. */
module Debounce {
  import opened Prelude

  /** One observation, and whether the store can be read and written when it is made. */
  datatype Observation = Observation(success: bool, storeWorks: bool)

  datatype Thresholds = Thresholds(failure: int, success: int)

  function ThresholdOf(t: Thresholds, success: bool): int {
    if success then t.success else t.failure
  }

  /** The length of the run of equal outcomes the observations end with. */
  function RunLength(obs: seq<Observation>): nat {
    var n := |obs|;
    if n == 0 then 0
    else if n >= 2 && obs[n - 2].success == obs[n - 1].success then 1 + RunLength(obs[..n - 1])
    else 1
  }

  /** Observation i ends a run that has reached its threshold while the store works. */
  predicate Decides(obs: seq<Observation>, t: Thresholds, i: int) {
    0 <= i < |obs| && obs[i].storeWorks && RunLength(obs[..i + 1]) >= ThresholdOf(t, obs[i].success)
  }

  /** The flag the observations lead to. */
  function FlagAfter(obs: seq<Observation>, t: Thresholds, initial: bool): bool {
    if obs == [] then initial
    else
      var last := obs[|obs| - 1];
      if last.storeWorks && RunLength(obs) >= ThresholdOf(t, last.success) then last.success
      else FlagAfter(obs[..|obs| - 1], t, initial)
  }

  /** i is the latest deciding observation. */
  ghost predicate LatestDecision(obs: seq<Observation>, t: Thresholds, i: int) {
    Decides(obs, t, i) && forall k :: i < k < |obs| ==> !Decides(obs, t, k)
  }

  ghost predicate Undecided(obs: seq<Observation>, t: Thresholds) {
    forall i :: 0 <= i < |obs| ==> !Decides(obs, t, i)
  }

  lemma PrefixDecides(obs: seq<Observation>, t: Thresholds, i: int, n: nat)
    requires i < n <= |obs|
    ensures Decides(obs[..n], t, i) <==> Decides(obs, t, i)
  {
    if 0 <= i {
      assert obs[..n][..i + 1] == obs[..i + 1];
    }
  }

  /** The flag is the outcome of the latest run that reached its threshold, and the initial
      value while none has. */
  lemma {:induction false} FlagIsLatestDecision(obs: seq<Observation>, t: Thresholds, initial: bool)
    ensures Undecided(obs, t) ==> FlagAfter(obs, t, initial) == initial
    ensures forall i :: LatestDecision(obs, t, i) ==> FlagAfter(obs, t, initial) == obs[i].success
    ensures Undecided(obs, t) || exists i :: LatestDecision(obs, t, i)
  {
    if obs != [] {
      var n := |obs| - 1;
      var init := obs[..n];
      FlagIsLatestDecision(init, t, initial);
      assert obs[..n + 1] == obs;
      forall i | i < n ensures Decides(init, t, i) <==> Decides(obs, t, i) {
        PrefixDecides(obs, t, i, n);
      }
      if Decides(obs, t, n) {
        assert LatestDecision(obs, t, n);
      } else if !Undecided(obs, t) {
        var i :| LatestDecision(init, t, i);
        assert LatestDecision(obs, t, i);
      }
      forall i | LatestDecision(obs, t, i) ensures FlagAfter(obs, t, initial) == obs[i].success {
        if i < n {
          assert LatestDecision(init, t, i);
        }
      }
    }
  }

  /** The last n outcomes up to observation i are all of its kind. */
  predicate RunReaches(obs: seq<Observation>, i: int, n: int) {
    0 <= i < |obs| && n <= i + 1 && forall k :: i + 1 - n <= k <= i ==> obs[k].success == obs[i].success
  }

  lemma {:induction false} RunLengthMeans(obs: seq<Observation>, n: int)
    requires obs != []
    ensures RunLength(obs) >= n <==> RunReaches(obs, |obs| - 1, n)
  {
    var init := obs[..|obs| - 1];
    if n >= 2 && init != [] {
      RunLengthMeans(init, n - 1);
    }
    if n >= 2 {
      assert RunReaches(obs, |obs| - 1, n) <==>
        init != [] && init[|init| - 1].success == obs[|obs| - 1].success && RunReaches(init, |init| - 1, n - 1);
    }
  }

  /** A failure decides when it ends failureThreshold failures in a row, a success when it ends
      successThreshold successes in a row, and the store can be read and written. */
  lemma DecidesByName(obs: seq<Observation>, t: Thresholds, i: int)
    requires 0 <= i < |obs|
    ensures Decides(obs, t, i) <==>
      obs[i].storeWorks && if obs[i].success then RunReaches(obs, i, t.success) else RunReaches(obs, i, t.failure)
  {
    var part := obs[..i + 1];
    RunLengthMeans(part, t.success);
    RunLengthMeans(part, t.failure);
    RunOfPrefix(obs, i, t.success);
    RunOfPrefix(obs, i, t.failure);
  }

  lemma RunOfPrefix(obs: seq<Observation>, i: int, n: int)
    requires 0 <= i < |obs|
    ensures RunReaches(obs[..i + 1], i, n) <==> RunReaches(obs, i, n)
  {
    assert forall k :: 0 <= k <= i ==> obs[..i + 1][k] == obs[k];
  }

  /** How often the flag has changed. */
  function Flips(obs: seq<Observation>, t: Thresholds, initial: bool): nat {
    if obs == [] then 0
    else
      var init := obs[..|obs| - 1];
      Flips(init, t, initial) + if FlagAfter(obs, t, initial) != FlagAfter(init, t, initial) then 1 else 0
  }

  /** The part of the current run that could still count towards a flip. */
  function Pending(obs: seq<Observation>, t: Thresholds, initial: bool): nat {
    if obs != [] && obs[|obs| - 1].success != FlagAfter(obs, t, initial) then RunLength(obs) else 0
  }

  /** Every flip uses up a whole run of its own: flips * min(thresholds) never exceeds the
      number of observations. */
  lemma {:induction false} FlipsAreRare(obs: seq<Observation>, t: Thresholds, initial: bool)
    requires t.failure >= 1 && t.success >= 1
    ensures Flips(obs, t, initial) * Min(t.failure, t.success) + Pending(obs, t, initial) <= |obs|
  {
    if obs != [] {
      var init := obs[..|obs| - 1];
      FlipsAreRare(init, t, initial);
      FlipCosts(Flips(init, t, initial), Min(t.failure, t.success));
      assert init != [] ==> init[|init| - 1] == obs[|obs| - 2];
    }
  }

  lemma FlipCosts(flips: nat, m: int)
    ensures (flips + 1) * m == flips * m + m
  {
  }

  // ---- The tracker ----------------------------------------------------------------------

  datatype Key = Key(endpoint: string, protocol: string)

  datatype Counters = Counters(failures: int, successes: int)

  datatype Flags = Flags(healthyHTTP: bool, healthyWS: bool)

  const UNKNOWN := Flags(false, false)

  /** The counters a history of observations leads to. */
  function CountersFor(obs: seq<Observation>): Counters {
    if obs == [] then Counters(0, 0)
    else if obs[|obs| - 1].success then Counters(0, RunLength(obs))
    else Counters(RunLength(obs), 0)
  }

  function Counted(c: Counters, success: bool): Counters {
    if success then Counters(0, c.successes + 1) else Counters(c.failures + 1, 0)
  }

  function Current(c: Counters, success: bool): int {
    if success then c.successes else c.failures
  }

  /** The counters hold the length of the current run. */
  lemma RunGrows(obs: seq<Observation>, o: Observation)
    ensures CountersFor(obs + [o]) == Counted(CountersFor(obs), o.success)
    ensures RunLength(obs + [o]) == Current(CountersFor(obs + [o]), o.success)
  {
    assert (obs + [o])[..|obs|] == obs;
  }

  type Observations = map<Key, seq<Observation>>

  function ObservedAt(observed: Observations, key: Key): seq<Observation> {
    if key in observed then observed[key] else []
  }

  function FlagsAt(statuses: map<string, Flags>, endpoint: string): Flags {
    if endpoint in statuses then statuses[endpoint] else UNKNOWN
  }

  function CountersAt(states: map<Key, Counters>, key: Key): Counters {
    if key in states then states[key] else Counters(0, 0)
  }

  /** The flags the observations of both protocols lead to. */
  function ExpectedFlags(observed: Observations, t: Thresholds, initial: map<string, Flags>, endpoint: string): Flags {
    Flags(FlagAfter(ObservedAt(observed, Key(endpoint, "http")), t, FlagsAt(initial, endpoint).healthyHTTP),
          FlagAfter(ObservedAt(observed, Key(endpoint, "ws")), t, FlagsAt(initial, endpoint).healthyWS))
  }

  function Observe(observed: Observations, key: Key, o: Observation): Observations {
    observed[key := ObservedAt(observed, key) + [o]]
  }

  lemma ProtocolFlagGrows(observed: Observations, key: Key, o: Observation, t: Thresholds, k: Key, initial: bool)
    ensures
      var reached := o.storeWorks && RunLength(ObservedAt(observed, key) + [o]) >= ThresholdOf(t, o.success);
      FlagAfter(ObservedAt(Observe(observed, key, o), k), t, initial) ==
        if k == key && reached then o.success else FlagAfter(ObservedAt(observed, k), t, initial)
  {
    FlagGrows(ObservedAt(observed, key), o, t, initial);
  }

  /** One observation changes at most its own endpoint's flag of its own protocol, to its own
      outcome, and only if it ends a run at its threshold. */
  lemma ObservationMarksOneFlag(observed: Observations, key: Key, o: Observation, t: Thresholds,
                                initial: map<string, Flags>, endpoint: string)
    ensures
      var before := ExpectedFlags(observed, t, initial, endpoint);
      var reached := o.storeWorks && RunLength(ObservedAt(observed, key) + [o]) >= ThresholdOf(t, o.success);
      ExpectedFlags(Observe(observed, key, o), t, initial, endpoint) ==
        if endpoint == key.endpoint && reached then Marked(before, key.protocol, o.success) else before
  {
    ProtocolFlagGrows(observed, key, o, t, Key(endpoint, "http"), FlagsAt(initial, endpoint).healthyHTTP);
    ProtocolFlagGrows(observed, key, o, t, Key(endpoint, "ws"), FlagsAt(initial, endpoint).healthyWS);
  }

  ghost predicate CountersTrack(states: map<Key, Counters>, observed: Observations) {
    forall key :: CountersAt(states, key) == CountersFor(ObservedAt(observed, key))
  }

  ghost predicate FlagsTrack(statuses: map<string, Flags>, observed: Observations, t: Thresholds,
                             initial: map<string, Flags>) {
    forall endpoint :: FlagsAt(statuses, endpoint) == ExpectedFlags(observed, t, initial, endpoint)
  }

  lemma CountersKeepTrack(states: map<Key, Counters>, observed: Observations, key: Key, o: Observation)
    requires CountersTrack(states, observed)
    ensures CountersTrack(states[key := CountersFor(ObservedAt(observed, key) + [o])], Observe(observed, key, o))
  {
    var after := states[key := CountersFor(ObservedAt(observed, key) + [o])];
    forall k ensures CountersAt(after, k) == CountersFor(ObservedAt(Observe(observed, key, o), k)) {
      assert CountersAt(states, k) == CountersFor(ObservedAt(observed, k));
    }
  }

  lemma CountersReachThreshold(states: map<Key, Counters>, observed: Observations, key: Key, o: Observation)
    requires CountersTrack(states, observed)
    ensures Counted(CountersAt(states, key), o.success) == CountersFor(ObservedAt(observed, key) + [o])
    ensures Current(CountersFor(ObservedAt(observed, key) + [o]), o.success) ==
      RunLength(ObservedAt(observed, key) + [o])
  {
    RunGrows(ObservedAt(observed, key), o);
  }

  lemma FlagsKeepTrack(statuses: map<string, Flags>, observed: Observations, t: Thresholds, initial: map<string, Flags>,
                       key: Key, o: Observation, after: map<string, Flags>)
    requires FlagsTrack(statuses, observed, t, initial)
    requires
      var reached := o.storeWorks && RunLength(ObservedAt(observed, key) + [o]) >= ThresholdOf(t, o.success);
      var marked := Marked(FlagsAt(statuses, key.endpoint), key.protocol, o.success);
      after ==
        if reached && marked != FlagsAt(statuses, key.endpoint) then statuses[key.endpoint := marked] else statuses
    ensures FlagsTrack(after, Observe(observed, key, o), t, initial)
  {
    forall endpoint ensures FlagsAt(after, endpoint) == ExpectedFlags(Observe(observed, key, o), t, initial, endpoint) {
      ObservationMarksOneFlag(observed, key, o, t, initial, endpoint);
      assert FlagsAt(statuses, endpoint) == ExpectedFlags(observed, t, initial, endpoint);
    }
  }

  /** One replica's tracker, its status records and its cache of them. */
  class HealthTracker {
    const enabled: bool
    const thresholds: Thresholds
    var failureStates: map<Key, Counters>
    var statuses: map<string, Flags>
    var cached: map<string, Flags>

    ghost const initial: map<string, Flags>
    ghost var observed: Observations

    /** The records follow the observations, and the cache never lags behind the records. */
    ghost predicate Valid()
      reads this
    {
      && CountersTrack(failureStates, observed)
      && FlagsTrack(statuses, observed, thresholds, initial)
      && (forall endpoint :: endpoint in cached ==> cached[endpoint] == FlagsAt(statuses, endpoint))
    }

    constructor (enabled: bool, thresholds: Thresholds, statuses: map<string, Flags>)
      ensures Valid() && observed == map[] && this.statuses == this.initial == statuses
      ensures this.enabled == enabled && this.thresholds == thresholds
    {
      this.enabled, this.thresholds, this.statuses := enabled, thresholds, statuses;
      this.initial := statuses;
      failureStates, cached, observed := map[], map[], map[];
    }

    /** Each stored flag follows the latest decision of its own endpoint's and protocol's
        observations, and the value it started with while there is none. */
    lemma StoredFlagsFollowDecisions(endpoint: string, i: int)
      requires Valid()
      ensures
        var http, ws := ObservedAt(observed, Key(endpoint, "http")), ObservedAt(observed, Key(endpoint, "ws"));
        var now, before := FlagsAt(statuses, endpoint), FlagsAt(initial, endpoint);
        && (Undecided(http, thresholds) ==> now.healthyHTTP == before.healthyHTTP)
        && (LatestDecision(http, thresholds, i) ==> now.healthyHTTP == http[i].success)
        && (Undecided(ws, thresholds) ==> now.healthyWS == before.healthyWS)
        && (LatestDecision(ws, thresholds, i) ==> now.healthyWS == ws[i].success)
    {
      var before := FlagsAt(initial, endpoint);
      FlagIsLatestDecision(ObservedAt(observed, Key(endpoint, "http")), thresholds, before.healthyHTTP);
      FlagIsLatestDecision(ObservedAt(observed, Key(endpoint, "ws")), thresholds, before.healthyWS);
      assert FlagsAt(statuses, endpoint) == ExpectedFlags(observed, thresholds, initial, endpoint);
    }

    /** The cached status, or the stored one, which is then cached. */
    method ReadStatus(endpoint: string) returns (flags: Flags)
      requires Valid()
      modifies this`cached
      ensures Valid() && flags == FlagsAt(statuses, endpoint)
      ensures flags == ExpectedFlags(observed, thresholds, initial, endpoint)
    {
      flags := FlagsAt(statuses, endpoint);
      if endpoint in cached {
        return cached[endpoint];
      }
      cached := cached[endpoint := flags];
    }

    /** One observation: count it, and once its run reaches the threshold bring the flag of
        its protocol in line, dropping the cached copy. */
    method UpdateEndpointHealthState(endpoint: string, protocol: string, isSuccess: bool, storeWorks: bool)
      requires Valid()
      modifies this`failureStates, this`statuses, this`cached, this`observed
      ensures Valid()
      ensures
        var key, o := Key(endpoint, protocol), Observation(isSuccess, storeWorks);
        observed ==
          if enabled then old(observed)[key := (if key in old(observed) then old(observed)[key] else []) + [o]]
          else old(observed)
      ensures !enabled ==> statuses == old(statuses)
    {
      if !enabled {
        return;
      }
      var key := Key(endpoint, protocol);
      ghost var o := Observation(isSuccess, storeWorks);
      var counters, thresholdReached := Count(CountersAt(failureStates, key), isSuccess);
      CountersReachThreshold(failureStates, observed, key, o);
      ghost var states, was := failureStates, statuses;
      failureStates := failureStates[key := counters];
      if thresholdReached && storeWorks {
        WriteFlag(endpoint, protocol, isSuccess);
      }
      CountersKeepTrack(states, observed, key, o);
      FlagsKeepTrack(was, observed, thresholds, initial, key, o, statuses);
      observed := Observe(observed, key, o);
    }

    /** Add one outcome to an endpoint's counters. */
    method Count(before: Counters, isSuccess: bool) returns (counters: Counters, thresholdReached: bool)
      ensures counters == Counted(before, isSuccess)
      ensures thresholdReached == (Current(counters, isSuccess) >= ThresholdOf(thresholds, isSuccess))
    {
      counters := before;
      if isSuccess {
        counters := Counters(0, counters.successes + 1);
        thresholdReached := counters.successes >= thresholds.success;
      } else {
        counters := Counters(counters.failures + 1, 0);
        thresholdReached := counters.failures >= thresholds.failure;
      }
    }

    /** Set a protocol's flag unless it is already there. */
    method WriteFlag(endpoint: string, protocol: string, healthy: bool)
      requires forall e :: e in cached ==> cached[e] == FlagsAt(statuses, e)
      modifies this`statuses, this`cached
      ensures forall e :: e in cached ==> cached[e] == FlagsAt(statuses, e)
      ensures
        var was := FlagsAt(old(statuses), endpoint);
        var marked := Marked(was, protocol, healthy);
        statuses == if marked == was then old(statuses) else old(statuses)[endpoint := marked]
    {
      var status := FlagsAt(statuses, endpoint);
      var alreadyInTargetState: bool;
      if protocol == "http" {
        alreadyInTargetState := status.healthyHTTP == healthy;
        status := status.(healthyHTTP := healthy);
      } else if protocol == "ws" {
        alreadyInTargetState := status.healthyWS == healthy;
        status := status.(healthyWS := healthy);
      } else {
        return;
      }
      if alreadyInTargetState {
        return;
      }
      statuses := statuses[endpoint := status];
      cached := cached - {endpoint};
    }
  }

  /** The flags with one protocol's set; a protocol of another name has none. */
  function Marked(f: Flags, protocol: string, healthy: bool): Flags {
    if protocol == "http" then f.(healthyHTTP := healthy)
    else if protocol == "ws" then f.(healthyWS := healthy)
    else f
  }

  lemma FlagGrows(obs: seq<Observation>, o: Observation, t: Thresholds, initial: bool)
    ensures FlagAfter(obs + [o], t, initial) ==
      if o.storeWorks && RunLength(obs + [o]) >= ThresholdOf(t, o.success) then o.success
      else FlagAfter(obs, t, initial)
  {
    assert (obs + [o])[..|obs|] == obs;
  }
}
