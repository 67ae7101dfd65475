/** internal/server/rate_limit_scheduler.go: recovery of a rate-limited endpoint. A signal
    opens an episode; a monitor probes the endpoint after growing waits until enough probes
    in a row succeed, the retries run out, or the reset clock starts the cycle afresh. Signals
    and recovery checks are atomic; the stored record expires 24 hours after its last write. */
module Recovery {
  import opened Prelude

  datatype RecoveryConfig = RecoveryConfig(
    backoffMultiplier: real, initialBackoff: int, maxBackoff: int,
    maxRetries: int, requiredSuccesses: int, resetAfter: int)

  const DEFAULT_RECOVERY := RecoveryConfig(2.0, 300, 7200, 10, 2, 86400)

  /** The record's expiry in the store. */
  const RECORD_TTL := 24 * 3600

  /** An override replaces the fields it sets to something other than zero. */
  function ResolveRecovery(override: Option<RecoveryConfig>): RecoveryConfig {
    match override
    case None => DEFAULT_RECOVERY
    case Some(o) => RecoveryConfig(
      if o.backoffMultiplier != 0.0 then o.backoffMultiplier else DEFAULT_RECOVERY.backoffMultiplier,
      if o.initialBackoff != 0 then o.initialBackoff else DEFAULT_RECOVERY.initialBackoff,
      if o.maxBackoff != 0 then o.maxBackoff else DEFAULT_RECOVERY.maxBackoff,
      if o.maxRetries != 0 then o.maxRetries else DEFAULT_RECOVERY.maxRetries,
      if o.requiredSuccesses != 0 then o.requiredSuccesses else DEFAULT_RECOVERY.requiredSuccesses,
      if o.resetAfter != 0 then o.resetAfter else DEFAULT_RECOVERY.resetAfter)
  }

  /** Nothing validates these settings at load time; this is what they must amount to. */
  predicate Sensible(c: RecoveryConfig) {
    && c.backoffMultiplier >= 1.0 && c.initialBackoff >= 1 && c.maxBackoff >= 1
    && c.maxRetries >= 1 && c.requiredSuccesses >= 1 && c.resetAfter >= 1
  }

  /** An unset field never hurts: an override amounts to sensible settings if and only if every
      field it sets is sensible. */
  lemma ResolvesSensibleIff(o: RecoveryConfig)
    ensures Sensible(ResolveRecovery(Some(o))) <==>
      && (o.backoffMultiplier == 0.0 || o.backoffMultiplier >= 1.0)
      && o.initialBackoff >= 0 && o.maxBackoff >= 0
      && o.maxRetries >= 0 && o.requiredSuccesses >= 0 && o.resetAfter >= 0
    ensures
      var c := ResolveRecovery(Some(o));
      && c.backoffMultiplier == (if o.backoffMultiplier == 0.0 then 2.0 else o.backoffMultiplier)
      && c.initialBackoff == (if o.initialBackoff == 0 then 300 else o.initialBackoff)
      && c.maxBackoff == (if o.maxBackoff == 0 then 7200 else o.maxBackoff)
      && c.maxRetries == (if o.maxRetries == 0 then 10 else o.maxRetries)
      && c.requiredSuccesses == (if o.requiredSuccesses == 0 then 2 else o.requiredSuccesses)
      && c.resetAfter == (if o.resetAfter == 0 then 86400 else o.resetAfter)
  {
  }

  datatype RateLimitState = RateLimitState(
    rateLimited: bool, recoveryAttempts: int, consecutiveSuccess: int, currentBackoff: int,
    firstRateLimited: Option<nat>, lastRecoveryCheck: Option<nat>)

  const CLEAR := RateLimitState(false, 0, 0, 0, None, None)

  /** A rate-limit signal with its backoff seed, met by the load balancer, which starts the
      counts afresh, or by the standalone health checker, which keeps them. */
  datatype Notice = ByBalancer(seed: nat) | ByHealthChecker(seed: nat)

  function Signalled(s: RateLimitState, now: nat, n: Notice): RateLimitState {
    var marked := s.(rateLimited := true, currentBackoff := n.seed, lastRecoveryCheck := Some(now),
                     firstRateLimited := if s.firstRateLimited.None? then Some(now) else s.firstRateLimited);
    if n.ByBalancer? then marked.(recoveryAttempts := 0, consecutiveSuccess := 0) else marked
  }

  predicate ShouldResetBackoff(s: RateLimitState, c: RecoveryConfig, now: nat) {
    s.firstRateLimited.Some? && now - s.firstRateLimited.value >= Seconds(c.resetAfter)
  }

  function ResetCycle(s: RateLimitState, now: nat): RateLimitState {
    s.(recoveryAttempts := 0, currentBackoff := 0, consecutiveSuccess := 0, firstRateLimited := Some(now))
  }

  function CalculateNextBackoff(s: RateLimitState, c: RecoveryConfig): int {
    if s.currentBackoff == 0 then c.initialBackoff else s.currentBackoff
  }

  /** One multiplication of the backoff, up to the cap. */
  function Grown(backoff: int, c: RecoveryConfig): int {
    Min(Truncate(backoff as real * c.backoffMultiplier), c.maxBackoff)
  }

  /** The backoff an attempt leaves for the next wait: the first one keeps the seed, later
      ones multiply it up to the cap. */
  function NextBackoffAfter(s: RateLimitState, c: RecoveryConfig): int {
    var current := if s.currentBackoff == 0 then c.initialBackoff else s.currentBackoff;
    if s.recoveryAttempts + 1 == 1 then current else Grown(current, c)
  }

  /** Whether a check probes at all; otherwise it stops the monitor and changes nothing. */
  predicate Probes(s: RateLimitState, c: RecoveryConfig) {
    s.rateLimited && s.recoveryAttempts < c.maxRetries
  }

  predicate Recovers(s: RateLimitState, c: RecoveryConfig, success: bool) {
    Probes(s, c) && success && s.consecutiveSuccess + 1 >= c.requiredSuccesses
  }

  function Checked(s: RateLimitState, c: RecoveryConfig, now: nat, success: bool): RateLimitState {
    if !Probes(s, c) then s
    else
      var next := s.(recoveryAttempts := s.recoveryAttempts + 1, lastRecoveryCheck := Some(now),
                     currentBackoff := NextBackoffAfter(s, c));
      if !success then next.(consecutiveSuccess := 0)
      else if Recovers(s, c, success) then CLEAR.(lastRecoveryCheck := Some(now))
      else next.(consecutiveSuccess := s.consecutiveSuccess + 1,
                 currentBackoff := if s.consecutiveSuccess + 1 == 1 then c.initialBackoff else next.currentBackoff)
  }

  // ---- Whole runs -----------------------------------------------------------------------

  /** `Signal` is the load balancer's, `Marked` the health checker's. */
  datatype Entry =
    | Signal(at: nat)
    | Marked(at: nat)
    | Probe(at: nat, ok: bool)
    | Reset(at: nat)
    | Recovered(at: nat)
    | Expired(at: nat)

  datatype Event = Advance(d: nat) | SignalArrives(notice: Notice) | ResetIfDue | Check(success: bool)

  function EntryOf(n: Notice, at: nat): Entry {
    if n.ByBalancer? then Signal(at) else Marked(at)
  }

  /** The stored record, when it was last written, and everything that happened to it. */
  datatype World = World(clock: nat, savedAt: nat, state: RateLimitState, log: seq<Entry>)

  const START := World(0, 0, CLEAR, [])

  predicate ExpiresBy(w: World, at: nat) {
    w.state != CLEAR && at >= w.savedAt + Seconds(RECORD_TTL)
  }

  function Save(w: World, s: RateLimitState, entries: seq<Entry>): World {
    World(w.clock, w.clock, s, w.log + entries)
  }

  function Next(w: World, e: Event, c: RecoveryConfig): World {
    match e
    case Advance(d) =>
      if ExpiresBy(w, w.clock + d) then World(w.clock + d, w.savedAt, CLEAR, w.log + [Expired(w.clock + d)])
      else w.(clock := w.clock + d)
    case SignalArrives(n) => Save(w, Signalled(w.state, w.clock, n), [EntryOf(n, w.clock)])
    case ResetIfDue =>
      if ShouldResetBackoff(w.state, c, w.clock) then Save(w, ResetCycle(w.state, w.clock), [Reset(w.clock)]) else w
    case Check(success) =>
      if !Probes(w.state, c) then w
      else Save(w, Checked(w.state, c, w.clock, success),
                [Probe(w.clock, success)] + if Recovers(w.state, c, success) then [Recovered(w.clock)] else [])
  }

  function Run(w: World, events: seq<Event>, c: RecoveryConfig): World {
    if events == [] then w else Next(Run(w, events[..|events| - 1], c), events[|events| - 1], c)
  }

  /** How many probes at the end of the log all succeeded, marks between them left out. */
  function TrailingPasses(log: seq<Entry>): nat {
    if log == [] then 0
    else
      var init, last := log[..|log| - 1], log[|log| - 1];
      if last.Marked? then TrailingPasses(init) else if last.Probe? && last.ok then 1 + TrailingPasses(init) else 0
  }

  /** How many probes have been made since anything else but marks happened. */
  function TrailingProbes(log: seq<Entry>): nat {
    if log == [] then 0
    else
      var init, last := log[..|log| - 1], log[|log| - 1];
      if last.Marked? then TrailingProbes(init) else if last.Probe? then 1 + TrailingProbes(init) else 0
  }

  ghost predicate ResetsApart(log: seq<Entry>, gap: int) {
    forall i, j :: 0 <= i < j < |log| && log[i].Reset? && log[j].Reset? ==> log[j].at - log[i].at >= gap
  }

  ghost predicate ProbeRunsBounded(log: seq<Entry>, bound: int) {
    forall n :: 0 <= n <= |log| ==> TrailingProbes(log[..n]) <= bound
  }

  /** The record's counters are what the log says. */
  ghost predicate CountersAgree(w: World, c: RecoveryConfig) {
    && w.state.consecutiveSuccess == TrailingPasses(w.log)
    && 0 <= w.state.consecutiveSuccess < c.requiredSuccesses
    && w.state.recoveryAttempts == TrailingProbes(w.log)
    && ProbeRunsBounded(w.log, c.maxRetries)
  }

  /** From the second attempt on a probe leaves a backoff within the settings, whatever seeds
      came before it. */
  ghost predicate BackoffBounded(w: World, c: RecoveryConfig) {
    && w.state.currentBackoff >= 0
    && (w.log != [] && w.log[|w.log| - 1].Probe? && w.state.recoveryAttempts >= 2 ==>
        w.state.currentBackoff <= Max(c.initialBackoff, c.maxBackoff))
  }

  /** The episode clock runs exactly while the endpoint is limited, and every reset restarts it. */
  ghost predicate ClocksAgree(w: World, c: RecoveryConfig) {
    && w.savedAt <= w.clock
    && (w.state.rateLimited <==> w.state.firstRateLimited.Some?)
    && (w.state.rateLimited ==> w.state.firstRateLimited.value <= w.clock)
    && (forall i :: 0 <= i < |w.log| ==> w.log[i].at <= w.clock)
    && (forall i :: 0 <= i < |w.log| && w.log[i].Reset? && w.state.rateLimited ==>
        w.log[i].at <= w.state.firstRateLimited.value)
    && ResetsApart(w.log, Seconds(c.resetAfter))
  }

  /** When the current episode, or its latest cycle, began. */
  function EpisodeStart(log: seq<Entry>): Option<nat> {
    if log == [] then None
    else
      var before := EpisodeStart(log[..|log| - 1]);
      match log[|log| - 1]
      case Signal(at) => if before.Some? then before else Some(at)
      case Marked(at) => if before.Some? then before else Some(at)
      case Probe(_, _) => before
      case Reset(at) => Some(at)
      case Recovered(_) => None
      case Expired(_) => None
  }

  /** The last time the endpoint was signalled or probed. */
  function LastTouched(log: seq<Entry>): Option<nat> {
    if log == [] then None
    else
      var last := log[|log| - 1];
      if last.Expired? then None
      else if last.Reset? then LastTouched(log[..|log| - 1])
      else Some(last.at)
  }

  /** The record's stamps are what the log says, and it was saved with the last entry. */
  ghost predicate StampsAgree(w: World) {
    && w.state.firstRateLimited == EpisodeStart(w.log)
    && w.state.lastRecoveryCheck == LastTouched(w.log)
    && (w.state != CLEAR ==> w.log != [] && w.savedAt == w.log[|w.log| - 1].at)
  }

  ghost predicate Consistent(w: World, c: RecoveryConfig) {
    CountersAgree(w, c) && BackoffBounded(w, c) && ClocksAgree(w, c) && StampsAgree(w)
  }

  lemma StampsGrow(log: seq<Entry>, e: Entry)
    ensures EpisodeStart(log + [e]) ==
      match e
      case Signal(at) => if EpisodeStart(log).Some? then EpisodeStart(log) else Some(at)
      case Marked(at) => if EpisodeStart(log).Some? then EpisodeStart(log) else Some(at)
      case Probe(_, _) => EpisodeStart(log)
      case Reset(at) => Some(at)
      case _ => None
    ensures LastTouched(log + [e]) == if e.Expired? then None else if e.Reset? then LastTouched(log) else Some(e.at)
  {
    assert (log + [e])[..|log|] == log;
  }

  lemma StampsStayAgreed(w: World, e: Event, c: RecoveryConfig)
    requires Sensible(c) && StampsAgree(w)
    ensures StampsAgree(Next(w, e, c))
  {
    match e
    case Advance(d) => StampsGrow(w.log, Expired(w.clock + d));
    case SignalArrives(n) => StampsGrow(w.log, EntryOf(n, w.clock));
    case ResetIfDue => StampsGrow(w.log, Reset(w.clock));
    case Check(success) =>
      var probe := Probe(w.clock, success);
      StampsGrow(w.log, probe);
      StampsGrow(w.log + [probe], Recovered(w.clock));
      if Recovers(w.state, c, success) {
        assert w.log + [probe, Recovered(w.clock)] == w.log + [probe] + [Recovered(w.clock)];
        assert [probe] + [Recovered(w.clock)] == [probe, Recovered(w.clock)];
      }
  }

  lemma LogGrows(log: seq<Entry>, e: Entry, bound: int)
    ensures TrailingPasses(log + [e]) ==
      if e.Marked? then TrailingPasses(log) else if e.Probe? && e.ok then 1 + TrailingPasses(log) else 0
    ensures TrailingProbes(log + [e]) ==
      if e.Marked? then TrailingProbes(log) else if e.Probe? then 1 + TrailingProbes(log) else 0
    ensures ProbeRunsBounded(log, bound) && TrailingProbes(log + [e]) <= bound ==> ProbeRunsBounded(log + [e], bound)
  {
    assert (log + [e])[..|log|] == log;
    if ProbeRunsBounded(log, bound) && TrailingProbes(log + [e]) <= bound {
      forall n | 0 <= n <= |log + [e]| ensures TrailingProbes((log + [e])[..n]) <= bound {
        if n <= |log| {
          assert (log + [e])[..n] == log[..n];
        } else {
          assert (log + [e])[..n] == log + [e];
        }
      }
    }
  }

  lemma BackoffIsCapped(current: int, c: RecoveryConfig)
    requires Sensible(c) && current >= 0
    ensures 0 <= Grown(current, c) <= c.maxBackoff
    ensures Min(current, c.maxBackoff) <= Grown(current, c)
  {
    MultiplyAtLeast(current as real, c.backoffMultiplier);
    TruncateAtLeast(current as real * c.backoffMultiplier, current);
  }

  lemma MultiplyAtLeast(x: real, m: real)
    requires x >= 0.0 && m >= 1.0
    ensures x * m >= x
  {
    ProductNonNegative(x, m - 1.0);
    assert x * (m - 1.0) == x * m - x;
  }

  lemma ProductNonNegative(x: real, y: real)
    requires x >= 0.0 && y >= 0.0
    ensures x * y >= 0.0
  {
  }

  lemma TruncateAtLeast(y: real, n: int)
    requires n >= 0 && y >= n as real
    ensures Truncate(y) >= n
  {
  }

  /** One entry at a time: a probe adds to both counts, a mark keeps them, all else clears them. */
  lemma CountersAfterEntry(w: World, after: World, entry: Entry, c: RecoveryConfig)
    requires Sensible(c) && CountersAgree(w, c) && after.log == w.log + [entry]
    requires after.state.consecutiveSuccess ==
      if entry.Marked? then w.state.consecutiveSuccess
      else if entry.Probe? && entry.ok then w.state.consecutiveSuccess + 1 else 0
    requires entry.Probe? ==> w.state.recoveryAttempts < c.maxRetries
    requires after.state.recoveryAttempts ==
      if entry.Marked? then w.state.recoveryAttempts else if entry.Probe? then w.state.recoveryAttempts + 1 else 0
    ensures after.state.consecutiveSuccess < c.requiredSuccesses ==> CountersAgree(after, c)
    ensures ProbeRunsBounded(after.log, c.maxRetries)
  {
    assert w.log[..|w.log|] == w.log;
    LogGrows(w.log, entry, c.maxRetries);
  }

  lemma CountersAfterCheck(w: World, success: bool, c: RecoveryConfig)
    requires Sensible(c) && CountersAgree(w, c) && Probes(w.state, c)
    ensures CountersAgree(Next(w, Check(success), c), c)
  {
    var after := Next(w, Check(success), c);
    var probe := Probe(w.clock, success);
    if Recovers(w.state, c, success) {
      LogGrows(w.log, probe, c.maxRetries);
      LogGrows(w.log + [probe], Recovered(w.clock), c.maxRetries);
      assert after.log == w.log + [probe] + [Recovered(w.clock)];
    } else {
      assert after.log == w.log + [probe];
      CountersAfterEntry(w, after, probe, c);
    }
  }

  lemma CountersStayAgreed(w: World, e: Event, c: RecoveryConfig)
    requires Sensible(c) && CountersAgree(w, c)
    ensures CountersAgree(Next(w, e, c), c)
  {
    var after := Next(w, e, c);
    match e
    case Advance(d) =>
      if ExpiresBy(w, w.clock + d) {
        CountersAfterEntry(w, after, Expired(w.clock + d), c);
      }
    case SignalArrives(n) => CountersAfterEntry(w, after, EntryOf(n, w.clock), c);
    case ResetIfDue =>
      if ShouldResetBackoff(w.state, c, w.clock) {
        CountersAfterEntry(w, after, Reset(w.clock), c);
      }
    case Check(success) =>
      if Probes(w.state, c) {
        CountersAfterCheck(w, success, c);
      }
  }

  lemma BackoffStaysBounded(w: World, e: Event, c: RecoveryConfig)
    requires Sensible(c) && BackoffBounded(w, c)
    ensures BackoffBounded(Next(w, e, c), c)
  {
    BackoffIsCapped(if w.state.currentBackoff == 0 then c.initialBackoff else w.state.currentBackoff, c);
  }

  lemma ClocksStayAgreed(w: World, e: Event, c: RecoveryConfig)
    requires Sensible(c) && ClocksAgree(w, c)
    ensures ClocksAgree(Next(w, e, c), c)
  {
  }

  lemma StepStaysConsistent(w: World, e: Event, c: RecoveryConfig)
    requires Sensible(c) && Consistent(w, c)
    ensures Consistent(Next(w, e, c), c)
  {
    CountersStayAgreed(w, e, c);
    BackoffStaysBounded(w, e, c);
    ClocksStayAgreed(w, e, c);
    StampsStayAgreed(w, e, c);
  }

  lemma {:induction false} RunStaysConsistent(events: seq<Event>, c: RecoveryConfig)
    requires Sensible(c)
    ensures Consistent(Run(START, events, c), c)
  {
    if events != [] {
      RunStaysConsistent(events[..|events| - 1], c);
      StepStaysConsistent(Run(START, events[..|events| - 1], c), events[|events| - 1], c);
    } else {
      assert TrailingProbes([][..0]) == 0;
    }
  }

  function ProbeCount(log: seq<Entry>): nat {
    if log == [] then 0
    else ProbeCount(log[..|log| - 1]) + if log[|log| - 1].Probe? then 1 else 0
  }

  /** From entry i on the log has passing probes and marks only. */
  ghost predicate OnlyPasses(log: seq<Entry>, i: nat) {
    i <= |log| && forall k :: i <= k < |log| ==> log[k].Marked? || (log[k].Probe? && log[k].ok)
  }

  /** The log ends with n passing probes or more and nothing but marks between them. */
  ghost predicate EndsWithPasses(log: seq<Entry>, n: int) {
    exists i :: 0 <= i && OnlyPasses(log, i) && ProbeCount(log[i..]) >= n
  }

  lemma {:induction false} TrailingPassesAreThere(log: seq<Entry>, n: int)
    ensures EndsWithPasses(log, n) <==> n <= TrailingPasses(log)
  {
    if log == [] {
      assert OnlyPasses(log, 0) && ProbeCount(log[0..]) == 0;
    } else {
      var init, last := log[..|log| - 1], log[|log| - 1];
      var before := if last.Probe? then n - 1 else n;
      TrailingPassesAreThere(init, before);
      if i :| 0 <= i && OnlyPasses(log, i) && ProbeCount(log[i..]) >= n {
        LastIsPassOrMark(log, n, i);
      }
      if n <= 0 {
        assert OnlyPasses(log, |log|) && ProbeCount(log[|log|..]) == 0;
      } else if n <= TrailingPasses(log) {
        var i :| 0 <= i && OnlyPasses(init, i) && ProbeCount(init[i..]) >= before;
        assert log[i..][..|log| - i - 1] == init[i..];
        assert OnlyPasses(log, i) && ProbeCount(log[i..]) >= n;
      }
    }
  }

  lemma LastIsPassOrMark(log: seq<Entry>, n: int, i: nat)
    requires log != [] && OnlyPasses(log, i) && ProbeCount(log[i..]) >= n
    ensures n <= 0 || log[|log| - 1].Marked? || (log[|log| - 1].Probe? && log[|log| - 1].ok)
    ensures n <= 0 || EndsWithPasses(log[..|log| - 1], if log[|log| - 1].Probe? then n - 1 else n)
  {
    if i < |log| {
      var init := log[..|log| - 1];
      assert log[i..][..|log| - i - 1] == init[i..];
      assert OnlyPasses(init, i);
    }
  }

  /** Recovery is sound and exact: in any run a check clears the limit if and only if it is
      the last of RequiredSuccesses probes that all succeeded with nothing between them but
      marks of the health checker, and no other event short of the record's expiry clears it. */
  lemma RecoveryIsExact(events: seq<Event>, e: Event, c: RecoveryConfig)
    requires Sensible(c)
    requires Run(START, events, c).state.rateLimited
    ensures Run(START, events, c).log != []
    ensures
      var w := Run(START, events, c);
      var after := Next(w, e, c);
      match e
      case Check(success) =>
        !after.state.rateLimited <==>
          success && w.state.recoveryAttempts < c.maxRetries && EndsWithPasses(w.log, c.requiredSuccesses - 1)
      case Advance(d) => !after.state.rateLimited <==> w.clock + d >= w.log[|w.log| - 1].at + 86_400 * 1_000_000_000
      case _ => after.state.rateLimited
  {
    RunStaysConsistent(events, c);
    TrailingPassesAreThere(Run(START, events, c).log, c.requiredSuccesses - 1);
  }

  /** In any run the monitor makes at most MaxRetries probes without a signal of the load
      balancer, a reset, a recovery or an expiry between them, and resets are at least
      ResetAfter apart. */
  lemma ProbesAreBounded(events: seq<Event>, c: RecoveryConfig, from: nat, upTo: nat)
    requires Sensible(c)
    requires from <= upTo <= |Run(START, events, c).log|
    requires forall k :: from <= k < upTo ==> var entry := Run(START, events, c).log[k]; entry.Probe? || entry.Marked?
    ensures ProbeCount(Run(START, events, c).log[from..upTo]) <= c.maxRetries
    ensures ResetsApart(Run(START, events, c).log, Seconds(c.resetAfter))
  {
    RunStaysConsistent(events, c);
    var log := Run(START, events, c).log;
    assert log[..upTo][from..] == log[from..upTo];
    ProbeStretch(log[..upTo], from);
  }

  lemma {:induction false} ProbeStretch(log: seq<Entry>, from: nat)
    requires from <= |log|
    requires forall k :: from <= k < |log| ==> log[k].Probe? || log[k].Marked?
    ensures ProbeCount(log[from..]) <= TrailingProbes(log)
    decreases |log|
  {
    if from < |log| {
      ProbeStretch(log[..|log| - 1], from);
      assert log[from..][..|log| - from - 1] == log[..|log| - 1][from..];
    }
  }

  // ---- One check ------------------------------------------------------------------------

  /** n is the wait times the multiplier, rounded down, or the cap if that is smaller. */
  predicate IsCappedProduct(n: int, wait: int, multiplier: real, cap: int) {
    if wait as real * multiplier >= cap as real then n == cap
    else n as real <= wait as real * multiplier < n as real + 1.0
  }

  lemma GrownIsCappedProduct(wait: int, c: RecoveryConfig)
    requires Sensible(c) && wait >= 1
    ensures IsCappedProduct(Grown(wait, c), wait, c.backoffMultiplier, c.maxBackoff) && Grown(wait, c) >= 1
  {
    BackoffIsCapped(wait, c);
    MultiplyAtLeast(wait as real, c.backoffMultiplier);
    TruncatedAgainst(wait as real * c.backoffMultiplier, c.maxBackoff);
  }

  lemma TruncatedAgainst(x: real, cap: int)
    requires x >= 0.0
    ensures x >= cap as real ==> Truncate(x) >= cap
    ensures x < cap as real ==> Truncate(x) < cap
    ensures Truncate(x) as real <= x < Truncate(x) as real + 1.0
  {
    var t := Truncate(x);
    assert t as real <= x < t as real + 1.0;
    if t < cap {
      assert (t + 1) as real <= cap as real;
    }
  }

  /** What a check of a limited record with retries left does, in numbers: the last success
      needed clears the record. Otherwise the attempt and the successes in a row are counted,
      and the next wait is InitialBackoff after a first success, the same wait after the
      first attempt, and else the wait times the multiplier, rounded down and capped. */
  lemma CheckInNumbers(s: RateLimitState, c: RecoveryConfig, now: nat, success: bool)
    requires Sensible(c) && s.rateLimited && s.recoveryAttempts < c.maxRetries && s.currentBackoff >= 0
    ensures
      var after := Checked(s, c, now, success);
      if success && s.consecutiveSuccess + 1 >= c.requiredSuccesses then
        after == RateLimitState(false, 0, 0, 0, None, Some(now))
      else
        var wait := if s.currentBackoff == 0 then c.initialBackoff else s.currentBackoff;
        && after.rateLimited && after.recoveryAttempts == s.recoveryAttempts + 1
        && after.consecutiveSuccess == (if success then s.consecutiveSuccess + 1 else 0)
        && after.firstRateLimited == s.firstRateLimited && after.lastRecoveryCheck == Some(now)
        && after.currentBackoff >= 1 && CalculateNextBackoff(after, c) == after.currentBackoff
        && (if success && s.consecutiveSuccess == 0 then after.currentBackoff == c.initialBackoff
            else if s.recoveryAttempts == 0 then after.currentBackoff == wait
            else IsCappedProduct(after.currentBackoff, wait, c.backoffMultiplier, c.maxBackoff))
  {
    GrownIsCappedProduct(if s.currentBackoff == 0 then c.initialBackoff else s.currentBackoff, c);
  }

  // ---- Backoff --------------------------------------------------------------------------

  /** The record after k failing checks in a row. */
  function AfterFailures(s: RateLimitState, c: RecoveryConfig, now: nat, k: nat): RateLimitState {
    if k == 0 then s else Checked(AfterFailures(s, c, now, k - 1), c, now, false)
  }

  /** The k-th wait of an episode in which every check so far has failed. */
  function Wait(s: RateLimitState, c: RecoveryConfig, now: nat, k: nat): int
    requires k >= 1
  {
    CalculateNextBackoff(AfterFailures(s, c, now, k - 1), c)
  }

  predicate Opening(s: RateLimitState) {
    s.rateLimited && s.recoveryAttempts == 0 && s.currentBackoff >= 0
  }

  lemma {:induction false} FailuresCount(s: RateLimitState, c: RecoveryConfig, now: nat, k: nat)
    requires Sensible(c) && Opening(s) && k <= c.maxRetries
    ensures
      var after := AfterFailures(s, c, now, k);
      && after.rateLimited && after.recoveryAttempts == k && after.currentBackoff >= 0
      && (k >= 1 ==> after.currentBackoff >= 1)
  {
    if k > 0 {
      FailuresCount(s, c, now, k - 1);
      var before := AfterFailures(s, c, now, k - 1);
      BackoffIsCapped(if before.currentBackoff == 0 then c.initialBackoff else before.currentBackoff, c);
    }
  }

  lemma WholeMultiple(current: int, c: RecoveryConfig, m: nat)
    requires current >= 0 && c.backoffMultiplier == m as real
    ensures Grown(current, c) == Min(current * m, c.maxBackoff)
  {
    assert current as real * m as real == (current * m) as real;
  }

  lemma CapAbsorbs(x: int, m: int, cap: int)
    requires m >= 1 && cap >= 1
    ensures Min(Min(x, cap) * m, cap) == Min(x * m, cap)
  {
    if x > cap {
      CapGrows(cap, m, x);
    }
  }

  lemma CapGrows(cap: int, m: int, x: int)
    requires m >= 1 && cap >= 1 && x > cap
    ensures cap * m >= cap && x * m >= cap
  {
  }

  /** Each wait from the one before it: the second repeats the first, later ones multiply. */
  lemma WaitStep(s: RateLimitState, c: RecoveryConfig, now: nat, k: nat)
    requires Sensible(c) && Opening(s) && 2 <= k <= c.maxRetries + 1
    ensures Wait(s, c, now, k - 1) >= 1
    ensures Wait(s, c, now, k) ==
      if k == 2 then Wait(s, c, now, 1)
      else Grown(Wait(s, c, now, k - 1), c)
  {
    FailuresCount(s, c, now, k - 2);
    FailuresCount(s, c, now, k - 1);
    var before, after := AfterFailures(s, c, now, k - 2), AfterFailures(s, c, now, k - 1);
    assert after == Checked(before, c, now, false);
    assert after.currentBackoff == NextBackoffAfter(before, c);
  }

  /** The closed form for a whole multiplier and any seed s (the initial backoff if none): the
      first two waits are s, the k-th is min(s * m^(k-2), MaxBackoff). */
  lemma {:induction false} BackoffClosedForm(s: RateLimitState, c: RecoveryConfig, now: nat, m: nat, k: nat)
    requires Sensible(c) && Opening(s) && c.backoffMultiplier == m as real
    requires 1 <= k <= c.maxRetries + 1
    ensures
      var first := CalculateNextBackoff(s, c);
      Wait(s, c, now, k) == if k <= 2 then first else Min(first * Power(m, k - 2), c.maxBackoff)
  {
    if k > 1 {
      BackoffClosedForm(s, c, now, m, k - 1);
      WaitStep(s, c, now, k);
      WholeMultiple(Wait(s, c, now, k - 1), c, m);
      NextPower(CalculateNextBackoff(s, c), m, k, c.maxBackoff);
    }
  }

  lemma NextPower(first: int, m: nat, k: nat, cap: int)
    requires m >= 1 && cap >= 1
    ensures k == 3 ==> first * m == first * Power(m, 1)
    ensures k > 3 ==> Min(Min(first * Power(m, k - 3), cap) * m, cap) == Min(first * Power(m, k - 2), cap)
  {
    if k == 3 {
      assert Power(m, 0) == 1;
    }
    if k > 3 {
      CapAbsorbs(first * Power(m, k - 3), m, cap);
      Reassociate(first, Power(m, k - 3), m);
    }
  }

  lemma Reassociate(a: int, b: int, m: int)
    ensures a * b * m == a * (m * b)
  {
  }

  lemma WaitsAfterTheSecond(s: RateLimitState, c: RecoveryConfig, now: nat, k: nat)
    requires Sensible(c) && Opening(s) && 2 <= k <= c.maxRetries
    ensures Wait(s, c, now, k + 1) <= c.maxBackoff
    ensures Wait(s, c, now, k) <= c.maxBackoff ==> Wait(s, c, now, k) <= Wait(s, c, now, k + 1)
  {
    WaitStep(s, c, now, k + 1);
    BackoffIsCapped(Wait(s, c, now, k), c);
  }

  ghost predicate NeverShrinks(s: RateLimitState, c: RecoveryConfig, now: nat) {
    forall k :: 1 <= k <= c.maxRetries ==> Wait(s, c, now, k) <= Wait(s, c, now, k + 1)
  }

  /** For any multiplier of at least one the waits never shrink exactly when the first is
      within the cap, and from the third on they never exceed it. */
  lemma WaitsGrowIffSeedWithinCap(s: RateLimitState, c: RecoveryConfig, now: nat)
    requires Sensible(c) && Opening(s) && c.maxRetries >= 2
    ensures NeverShrinks(s, c, now) <==> CalculateNextBackoff(s, c) <= c.maxBackoff
    ensures forall k :: 3 <= k <= c.maxRetries + 1 ==> Wait(s, c, now, k) <= c.maxBackoff
  {
    WaitStep(s, c, now, 2);
    forall k | 3 <= k <= c.maxRetries + 1 ensures Wait(s, c, now, k) <= c.maxBackoff {
      WaitsAfterTheSecond(s, c, now, k - 1);
    }
    if CalculateNextBackoff(s, c) <= c.maxBackoff {
      forall k | 1 <= k <= c.maxRetries ensures Wait(s, c, now, k) <= Wait(s, c, now, k + 1) {
        if k >= 2 {
          WaitsAfterTheSecond(s, c, now, k);
        }
      }
    } else {
      assert Wait(s, c, now, 2) > Wait(s, c, now, 2 + 1);
    }
  }

  // ---- The monitor ----------------------------------------------------------------------

  /** One round of the monitor's environment: how late its timer fires, the signals
      that arrive during the wait, and whether the endpoint answers the probe well. */
  datatype Round = Round(late: nat, signals: seq<Notice>, answersWell: bool)

  /** The record when the round's check begins. */
  function BeforeCheck(w: World, r: Round, c: RecoveryConfig): World {
    var due := Next(w, ResetIfDue, c);
    var woken := Next(due, Advance(Delay(due.state, c) + r.late), c);
    AfterSignals(woken, r.signals, c)
  }

  /** The timer's duration; a negative one fires at once. */
  function Delay(s: RateLimitState, c: RecoveryConfig): nat {
    Max(0, Seconds(CalculateNextBackoff(s, c)))
  }

  function AfterSignals(w: World, signals: seq<Notice>, c: RecoveryConfig): World {
    if signals == [] then w
    else Next(AfterSignals(w, signals[..|signals| - 1], c), SignalArrives(signals[|signals| - 1]), c)
  }

  /** A round's probe comes exactly its wait and the timer's lateness after the round begins: the
      wait is CurrentBackoff seconds, or InitialBackoff if that is 0 or a reset is due. */
  lemma RoundTakesItsWait(w: World, r: Round, c: RecoveryConfig, success: bool)
    ensures
      var due := w.state.firstRateLimited.Some? &&
                 w.clock - w.state.firstRateLimited.value >= c.resetAfter * 1_000_000_000;
      var wait := if due || w.state.currentBackoff == 0 then c.initialBackoff else w.state.currentBackoff;
      var ready := BeforeCheck(w, r, c);
      var after := Next(ready, Check(success), c);
      && ready.clock == w.clock + (if wait > 0 then wait * 1_000_000_000 else 0) + r.late
      && (ready.state.rateLimited && ready.state.recoveryAttempts < c.maxRetries ==>
          |after.log| > |ready.log| && after.log[|ready.log|] == Probe(ready.clock, success))
  {
    var due := Next(w, ResetIfDue, c);
    var woken := Next(due, Advance(Delay(due.state, c) + r.late), c);
    SignalsTakeNoTime(woken, r.signals, c);
  }

  lemma {:induction false} SignalsTakeNoTime(w: World, signals: seq<Notice>, c: RecoveryConfig)
    ensures AfterSignals(w, signals, c).clock == w.clock
  {
    if signals != [] {
      SignalsTakeNoTime(w, signals[..|signals| - 1], c);
    }
  }

  /** The record and whether the monitor stopped by itself, after the given rounds. */
  function Monitored(w: World, rounds: seq<Round>, c: RecoveryConfig, hasHTTP: bool): (World, bool)
    decreases rounds
  {
    if rounds == [] then (w, false)
    else
      var ready := BeforeCheck(w, rounds[0], c);
      var success := hasHTTP && rounds[0].answersWell;
      var after := Next(ready, Check(success), c);
      if Continues(ready.state, c, success) then Monitored(after, rounds[1..], c, hasHTTP) else (after, true)
  }

  predicate Continues(s: RateLimitState, c: RecoveryConfig, success: bool) {
    Probes(s, c) && !Recovers(s, c, success)
  }

  /** A round in which no signal arrives and the reset is not due. */
  predicate Quiet(w: World, r: Round, c: RecoveryConfig) {
    r.signals == [] && !ShouldResetBackoff(w.state, c, w.clock)
  }

  /** No signal arrives and no reset fires in the rounds the monitor makes. */
  predicate AllQuiet(w: World, rounds: seq<Round>, c: RecoveryConfig, hasHTTP: bool)
    decreases rounds
  {
    rounds == [] ||
    (Quiet(w, rounds[0], c) &&
     var ready := BeforeCheck(w, rounds[0], c);
     var success := hasHTTP && rounds[0].answersWell;
     Continues(ready.state, c, success) ==> AllQuiet(Next(ready, Check(success), c), rounds[1..], c, hasHTTP))
  }

  /** Termination: left in quiet, a monitor stops within MaxRetries - RecoveryAttempts + 1
      rounds, every round it survives using up one retry; and it stops only on an endpoint
      that is no longer limited or has no retries left. */
  lemma {:induction false} MonitorStops(w: World, rounds: seq<Round>, c: RecoveryConfig, hasHTTP: bool)
    requires AllQuiet(w, rounds, c, hasHTTP)
    ensures
      var (after, stopped) := Monitored(w, rounds, c, hasHTTP);
      && (stopped ==> !after.state.rateLimited || after.state.recoveryAttempts >= c.maxRetries)
      && (!stopped && rounds != [] ==>
          after.state.recoveryAttempts == w.state.recoveryAttempts + |rounds| <= c.maxRetries)
    decreases rounds
  {
    if rounds != [] {
      var ready := BeforeCheck(w, rounds[0], c);
      var success := hasHTTP && rounds[0].answersWell;
      if Continues(ready.state, c, success) {
        assert ready.state == w.state;
        MonitorStops(Next(ready, Check(success), c), rounds[1..], c, hasHTTP);
      }
    }
  }

  // ---- When a monitor recovers its endpoint ---------------------------------------------

  predicate OnlyMarks(signals: seq<Notice>) {
    forall k :: 0 <= k < |signals| ==> signals[k].ByHealthChecker?
  }

  /** A round in which the load balancer gets no signal, the reset is not due, and the record
      outlives the wait. */
  predicate Calm(w: World, r: Round, c: RecoveryConfig) {
    && OnlyMarks(r.signals) && !ShouldResetBackoff(w.state, c, w.clock)
    && !ExpiresBy(w, w.clock + Delay(w.state, c) + r.late)
  }

  /** Every round the monitor makes is calm. */
  predicate AllCalm(w: World, rounds: seq<Round>, c: RecoveryConfig, hasHTTP: bool)
    decreases rounds
  {
    rounds == [] ||
    (Calm(w, rounds[0], c) &&
     var ready := BeforeCheck(w, rounds[0], c);
     var success := hasHTTP && rounds[0].answersWell;
     Continues(ready.state, c, success) ==> AllCalm(Next(ready, Check(success), c), rounds[1..], c, hasHTTP))
  }

  /** The n-th round completes `need` good answers in a row, counting `have` from before. */
  predicate CompletesAt(rounds: seq<Round>, have: int, need: int, n: int) {
    1 <= n <= |rounds| && n + have >= need && forall k :: Max(0, n - need) <= k < n ==> rounds[k].answersWell
  }

  /** Some round within the budget does. */
  ghost predicate CompletesWithin(rounds: seq<Round>, have: int, need: int, budget: int) {
    exists n :: n <= budget && CompletesAt(rounds, have, need, n)
  }

  lemma CompletionAfterFirst(rounds: seq<Round>, have: int, need: int, n: int)
    requires rounds != [] && 0 <= have < need && n >= 1
    requires rounds[0].answersWell ==> have + 1 < need
    ensures CompletesAt(rounds, have, need, n + 1)
      <==> CompletesAt(rounds[1..], if rounds[0].answersWell then have + 1 else 0, need, n)
  {
    if CompletesAt(rounds, have, need, n + 1) {
      assert !rounds[0].answersWell ==> n >= need;
      forall k | Max(0, n - need) <= k < n ensures rounds[1..][k].answersWell {
        assert rounds[1..][k] == rounds[k + 1];
      }
    }
    if CompletesAt(rounds[1..], if rounds[0].answersWell then have + 1 else 0, need, n) {
      forall k | Max(0, n + 1 - need) <= k < n + 1 ensures rounds[k].answersWell {
        assert k == 0 || rounds[1..][k - 1] == rounds[k];
      }
    }
  }

  lemma CompletionStep(rounds: seq<Round>, have: int, need: int, budget: int)
    requires rounds != [] && 0 <= have < need
    ensures CompletesWithin(rounds, have, need, budget) <==>
      budget >= 1 &&
      if rounds[0].answersWell && have + 1 >= need then true
      else CompletesWithin(rounds[1..], if rounds[0].answersWell then have + 1 else 0, need, budget - 1)
  {
    var next := if rounds[0].answersWell then have + 1 else 0;
    if rounds[0].answersWell && have + 1 >= need {
      assert CompletesAt(rounds, have, need, 1);
    } else {
      assert !CompletesAt(rounds, have, need, 1);
      if n :| n <= budget && CompletesAt(rounds, have, need, n) {
        CompletionAfterFirst(rounds, have, need, n - 1);
      }
      if n :| n <= budget - 1 && CompletesAt(rounds[1..], next, need, n) {
        CompletionAfterFirst(rounds, have, need, n);
        assert CompletesAt(rounds, have, need, n + 1);
      }
    }
  }

  lemma CalmRound(w: World, r: Round, c: RecoveryConfig)
    requires Calm(w, r, c)
    ensures
      var ready := BeforeCheck(w, r, c);
      && ready.state == w.state.(rateLimited := w.state.rateLimited || r.signals != [],
                                 currentBackoff := SeedAfter(w.state.currentBackoff, r.signals),
                                 lastRecoveryCheck := ready.state.lastRecoveryCheck,
                                 firstRateLimited := ready.state.firstRateLimited)
      && (w.state.firstRateLimited.Some? ==> ready.state.firstRateLimited == w.state.firstRateLimited)
      && ready.clock == w.clock + Delay(w.state, c) + r.late
      && ready.savedAt == if r.signals == [] then w.savedAt else ready.clock
  {
    var woken := w.(clock := w.clock + Delay(w.state, c) + r.late);
    MarksKeepCounts(woken, r.signals, c);
  }

  /** The seed of the last signal, if there is one. */
  function SeedAfter(backoff: int, signals: seq<Notice>): int {
    if signals == [] then backoff else signals[|signals| - 1].seed
  }

  lemma {:induction false} MarksKeepCounts(w: World, signals: seq<Notice>, c: RecoveryConfig)
    requires OnlyMarks(signals)
    ensures
      var after := AfterSignals(w, signals, c);
      && after.state == w.state.(rateLimited := w.state.rateLimited || signals != [],
                                 currentBackoff := SeedAfter(w.state.currentBackoff, signals),
                                 lastRecoveryCheck := after.state.lastRecoveryCheck,
                                 firstRateLimited := after.state.firstRateLimited)
      && (w.state.firstRateLimited.Some? ==> after.state.firstRateLimited == w.state.firstRateLimited)
      && after.clock == w.clock && after.savedAt == if signals == [] then w.savedAt else w.clock
  {
    if signals != [] {
      MarksKeepCounts(w, signals[..|signals| - 1], c);
    }
  }

  /** Left calm, a monitor recovers its endpoint if and only if the endpoint has an HTTP address
      and answers well RequiredSuccesses times in a row before the retries run out. */
  lemma {:induction false} MonitorRecoversIff(w: World, rounds: seq<Round>, c: RecoveryConfig, hasHTTP: bool)
    requires AllCalm(w, rounds, c, hasHTTP)
    requires w.state.rateLimited && 0 <= w.state.consecutiveSuccess < c.requiredSuccesses
    ensures
      var budget := c.maxRetries - w.state.recoveryAttempts;
      !Monitored(w, rounds, c, hasHTTP).0.state.rateLimited
      <==> hasHTTP && CompletesWithin(rounds, w.state.consecutiveSuccess, c.requiredSuccesses, budget)
    decreases rounds
  {
    if rounds != [] {
      CalmRound(w, rounds[0], c);
      CompletionStep(rounds, w.state.consecutiveSuccess, c.requiredSuccesses, c.maxRetries - w.state.recoveryAttempts);
      var ready := BeforeCheck(w, rounds[0], c);
      var success := hasHTTP && rounds[0].answersWell;
      if Continues(ready.state, c, success) {
        MonitorRecoversIff(Next(ready, Check(success), c), rounds[1..], c, hasHTTP);
      }
    }
  }

  /** An endpoint that answers every probe well is recovered if and only if it has an HTTP
      address and the retries left cover the successes it still needs; fewer retries than
      required successes make recovery impossible. */
  lemma GoodAnswersRecoverIff(w: World, rounds: seq<Round>, c: RecoveryConfig, hasHTTP: bool)
    requires AllCalm(w, rounds, c, hasHTTP) && forall k :: 0 <= k < |rounds| ==> rounds[k].answersWell
    requires w.state.rateLimited && 0 <= w.state.consecutiveSuccess < c.requiredSuccesses
    requires |rounds| >= c.requiredSuccesses - w.state.consecutiveSuccess
    ensures
      !Monitored(w, rounds, c, hasHTTP).0.state.rateLimited
      <==> hasHTTP && c.requiredSuccesses - w.state.consecutiveSuccess <= c.maxRetries - w.state.recoveryAttempts
  {
    MonitorRecoversIff(w, rounds, c, hasHTTP);
    assert CompletesAt(rounds, w.state.consecutiveSuccess, c.requiredSuccesses,
                       c.requiredSuccesses - w.state.consecutiveSuccess);
  }

  /** A signal of the health checker with a seed of at most the given seconds. */
  predicate MildMarks(signals: seq<Notice>, longest: nat) {
    OnlyMarks(signals) && forall k :: 0 <= k < |signals| ==> signals[k].seed <= longest
  }

  /** Rounds are sure to be calm when no signal reaches the load balancer and, with every wait
      at most `longest` seconds and every timer at most `late` too late, they fit before the
      next reset and each wait before the record's expiry. */
  lemma {:induction false} ShortRoundsAreCalm(w: World, rounds: seq<Round>, c: RecoveryConfig, hasHTTP: bool,
                                              longest: nat, late: nat)
    requires Sensible(c) && w.state.rateLimited && w.state.firstRateLimited.Some? && w.state.currentBackoff >= 0
    requires CalculateNextBackoff(w.state, c) <= longest && c.initialBackoff <= longest && c.maxBackoff <= longest
    requires forall k :: 0 <= k < |rounds| ==> MildMarks(rounds[k].signals, longest) && rounds[k].late <= late
    requires w.clock + |rounds| * (Seconds(longest) + late) < w.state.firstRateLimited.value + Seconds(c.resetAfter)
    requires w.savedAt <= w.clock && w.clock + Seconds(longest) + late < w.savedAt + Seconds(RECORD_TTL)
    ensures AllCalm(w, rounds, c, hasHTTP)
    decreases rounds
  {
    if rounds != [] {
      var round := Seconds(longest) + late;
      assert |rounds| * round == (|rounds| - 1) * round + round;
      SpanIsNatural(|rounds| - 1, round);
      CalmRound(w, rounds[0], c);
      var ready := BeforeCheck(w, rounds[0], c);
      var success := hasHTTP && rounds[0].answersWell;
      if Continues(ready.state, c, success) {
        var seed := ready.state.currentBackoff;
        BackoffIsCapped(if seed == 0 then c.initialBackoff else seed, c);
        ShortRoundsAreCalm(Next(ready, Check(success), c), rounds[1..], c, hasHTTP, longest, late);
      }
    }
  }

  lemma SpanIsNatural(n: nat, d: nat)
    ensures n * d >= 0
  {
  }

  // ---- When the probes of a failing run come --------------------------------------------

  /** Alike but for the time of the last check. */
  predicate Alike(a: RateLimitState, b: RateLimitState) {
    a.(lastRecoveryCheck := None) == b.(lastRecoveryCheck := None)
  }

  /** No signal arrives and every probe fails. */
  predicate AllFail(rounds: seq<Round>, hasHTTP: bool) {
    forall k :: 0 <= k < |rounds| ==> rounds[k].signals == [] && !(hasHTTP && rounds[k].answersWell)
  }

  /** Probe k after `start`, the (j + k + 1)-th of its episode, comes its wait after the one
      before, or after the instant given. */
  predicate ProbeInTime(log: seq<Entry>, start: nat, from: nat, rounds: seq<Round>, first: int, c: RecoveryConfig,
                        m: nat, j: nat, k: nat)
    requires start + k < |log| && k < |rounds|
  {
    var wait := if j + k < 2 then first else Min(first * Power(m, j + k - 1), c.maxBackoff);
    var before := if k == 0 then from else log[start + k - 1].at;
    && log[start + k].Probe? && !log[start + k].ok
    && log[start + k].at == before + wait * 1_000_000_000 + rounds[k].late
  }

  lemma ProbeInTimeShifted(log: seq<Entry>, start: nat, from: nat, next: nat, rounds: seq<Round>, first: int,
                           c: RecoveryConfig, m: nat, j: nat, k: nat)
    requires 1 <= k < |rounds| && start + k < |log| && log[start].at == next
    requires ProbeInTime(log, start + 1, next, rounds[1..], first, c, m, j + 1, k - 1)
    ensures ProbeInTime(log, start, from, rounds, first, c, m, j, k)
  {
    assert rounds[1..][k - 1] == rounds[k];
  }

  lemma {:induction false} FailingRounds(w: World, rounds: seq<Round>, c: RecoveryConfig, hasHTTP: bool,
                                         s: RateLimitState, m: nat, j: nat)
    requires Sensible(c) && Opening(s) && c.backoffMultiplier == m as real && j + |rounds| <= c.maxRetries
    requires Alike(w.state, AfterFailures(s, c, 0, j))
    requires AllCalm(w, rounds, c, hasHTTP) && AllFail(rounds, hasHTTP)
    ensures
      var (after, stopped) := Monitored(w, rounds, c, hasHTTP);
      && !stopped && |after.log| == |w.log| + |rounds| && after.log[..|w.log|] == w.log
      && forall k :: 0 <= k < |rounds| ==>
           ProbeInTime(after.log, |w.log|, w.clock, rounds, CalculateNextBackoff(s, c), c, m, j, k)
    decreases rounds
  {
    if rounds != [] {
      var next := FailingRound(w, rounds[0], c, hasHTTP, s, m, j);
      assert Monitored(w, rounds, c, hasHTTP) == Monitored(next, rounds[1..], c, hasHTTP);
      FailingRounds(next, rounds[1..], c, hasHTTP, s, m, j + 1);
      AllInTime(Monitored(w, rounds, c, hasHTTP).0.log, w, next, rounds, rounds[1..], CalculateNextBackoff(s, c), c,
                m, j, j + 1);
    }
  }

  lemma AllInTime(log: seq<Entry>, w: World, next: World, rounds: seq<Round>, rest: seq<Round>, first: int,
                  c: RecoveryConfig, m: nat, j: nat, later: nat)
    requires rounds != [] && rest == rounds[1..] && later == j + 1
    requires |log| == |next.log| + |rounds| - 1 && log[..|next.log|] == next.log
    requires next.log == w.log + [Probe(next.clock, false)]
    requires next.clock ==
      w.clock + (if j < 2 then first else Min(first * Power(m, j - 1), c.maxBackoff)) * 1_000_000_000 + rounds[0].late
    requires forall k :: 0 <= k < |rest| ==> ProbeInTime(log, |next.log|, next.clock, rest, first, c, m, later, k)
    ensures log[..|w.log|] == w.log
    ensures forall k :: 0 <= k < |rounds| ==> ProbeInTime(log, |w.log|, w.clock, rounds, first, c, m, j, k)
  {
    assert log[..|w.log|] == log[..|next.log|][..|w.log|];
    assert log[|w.log|] == log[..|next.log|][|w.log|];
    forall k | 0 <= k < |rounds| ensures ProbeInTime(log, |w.log|, w.clock, rounds, first, c, m, j, k) {
      if k > 0 {
        ProbeInTimeShifted(log, |w.log|, w.clock, next.clock, rounds, first, c, m, j, k);
      }
    }
  }

  lemma FailingRound(w: World, r: Round, c: RecoveryConfig, hasHTTP: bool, s: RateLimitState, m: nat, j: nat)
    returns (next: World)
    requires Sensible(c) && Opening(s) && c.backoffMultiplier == m as real && j < c.maxRetries
    requires Alike(w.state, AfterFailures(s, c, 0, j))
    requires Calm(w, r, c) && AllFail([r], hasHTTP)
    ensures next == Next(BeforeCheck(w, r, c), Check(false), c)
    ensures Continues(BeforeCheck(w, r, c).state, c, false) && !(hasHTTP && r.answersWell)
    ensures Alike(next.state, AfterFailures(s, c, 0, j + 1))
    ensures
      var first := CalculateNextBackoff(s, c);
      var wait := if j < 2 then first else Min(first * Power(m, j - 1), c.maxBackoff);
      && next.clock == w.clock + wait * 1_000_000_000 + r.late
      && next.log == w.log + [Probe(next.clock, false)]
  {
    assert [r][0] == r;
    var ready := BeforeCheck(w, r, c);
    next := Next(ready, Check(false), c);
    CalmRound(w, r, c);
    FailuresCount(s, c, 0, j);
    BackoffClosedForm(s, c, 0, m, j + 1);
    RoundTakesItsWait(w, r, c, false);
    assert ready == w.(clock := ready.clock);
    assert CalculateNextBackoff(w.state, c) == Wait(s, c, 0, j + 1);
    WaitIsPositive(s, c, 0, j + 1);
  }

  lemma WaitIsPositive(s: RateLimitState, c: RecoveryConfig, now: nat, k: nat)
    requires Sensible(c) && Opening(s) && 1 <= k <= c.maxRetries + 1
    ensures Wait(s, c, now, k) >= 1
  {
    FailuresCount(s, c, now, k - 1);
  }

  /** The probes of an episode in which all fail, on the clock: with a whole multiplier m and a
      first wait of s seconds the monitor makes one probe a round; the first two come s seconds
      after the start and after each other, and the one after k others min(s * m^(k-1),
      MaxBackoff) seconds after the one before; each by its timer's lateness later. */
  lemma FailingProbesOnTheClock(w: World, rounds: seq<Round>, c: RecoveryConfig, hasHTTP: bool, m: nat, k: nat)
    requires Sensible(c) && Opening(w.state) && c.backoffMultiplier == m as real && |rounds| <= c.maxRetries
    requires AllCalm(w, rounds, c, hasHTTP) && k < |rounds|
    requires forall n :: 0 <= n < |rounds| ==> rounds[n].signals == [] && !(hasHTTP && rounds[n].answersWell)
    ensures
      var log, n := Monitored(w, rounds, c, hasHTTP).0.log, |w.log|;
      var s := if w.state.currentBackoff == 0 then c.initialBackoff else w.state.currentBackoff;
      var wait := if k < 2 then s else Min(s * Power(m, k - 1), c.maxBackoff);
      && |log| == n + |rounds| && log[..n] == w.log
      && log[n + k].Probe? && !log[n + k].ok
      && log[n + k].at == (if k == 0 then w.clock else log[n + k - 1].at) + wait * 1_000_000_000 + rounds[k].late
  {
    FailingRounds(w, rounds, c, hasHTTP, w.state, m, 0);
    var log := Monitored(w, rounds, c, hasHTTP).0.log;
    assert ProbeInTime(log, |w.log|, w.clock, rounds, CalculateNextBackoff(w.state, c), c, m, 0, k);
  }

  lemma {:induction false} SignalsOnlyAdd(w: World, signals: seq<Notice>, c: RecoveryConfig)
    ensures
      var after := AfterSignals(w, signals, c).log;
      && |w.log| <= |after| && after[..|w.log|] == w.log
      && forall k :: |w.log| <= k < |after| ==> after[k].Signal? || after[k].Marked?
  {
    if signals != [] {
      SignalsOnlyAdd(w, signals[..|signals| - 1], c);
    }
  }

  ghost predicate NoRecoveryFrom(log: seq<Entry>, start: nat) {
    start <= |log| && forall k :: start <= k < |log| ==> !log[k].Recovered?
  }

  lemma RoundAddsNoRecovery(w: World, r: Round, c: RecoveryConfig, start: nat)
    requires NoRecoveryFrom(w.log, start)
    ensures NoRecoveryFrom(Next(BeforeCheck(w, r, c), Check(false), c).log, start)
  {
    var due := Next(w, ResetIfDue, c);
    var woken := Next(due, Advance(Delay(due.state, c) + r.late), c);
    assert NoRecoveryFrom(due.log, start) && NoRecoveryFrom(woken.log, start);
    SignalsOnlyAdd(woken, r.signals, c);
    var ready := AfterSignals(woken, r.signals, c).log;
    forall k | start <= k < |ready| ensures !ready[k].Recovered? {
      assert k < |woken.log| ==> ready[k] == woken.log[k];
    }
  }

  /** An endpoint without an HTTP address fails every probe, so no check ever clears its limit. */
  lemma {:induction false} WithoutHTTPNoRecovery(w: World, rounds: seq<Round>, c: RecoveryConfig, start: nat)
    requires NoRecoveryFrom(w.log, start)
    ensures NoRecoveryFrom(Monitored(w, rounds, c, false).0.log, start)
    decreases rounds
  {
    if rounds != [] {
      RoundAddsNoRecovery(w, rounds[0], c, start);
      WithoutHTTPNoRecovery(Next(BeforeCheck(w, rounds[0], c), Check(false), c), rounds[1..], c, start);
    }
  }

  /** One endpoint's record, with the operations of the server and of its monitor; each is
      one event of the machine above. */
  class EndpointRecovery {
    const config: RecoveryConfig
    const hasHTTP: bool
    const hasWS: bool
    var clock: nat
    var savedAt: nat
    var state: RateLimitState
    var healthyHTTP: bool
    var healthyWS: bool
    ghost var log: seq<Entry>

    ghost function Now(): World
      reads this
    {
      World(clock, savedAt, state, log)
    }

    constructor (override: Option<RecoveryConfig>, hasHTTP: bool, hasWS: bool)
      ensures Now() == START
      ensures config == ResolveRecovery(override) && this.hasHTTP == hasHTTP && this.hasWS == hasWS
    {
      this.config, this.hasHTTP, this.hasWS := ResolveRecovery(override), hasHTTP, hasWS;
      clock, savedAt, state, log := 0, 0, CLEAR, [];
      healthyHTTP, healthyWS := false, false;
    }

    /** Time passes; the store drops the record once its expiry is reached. */
    method Sleep(d: nat)
      modifies this`clock, this`state, this`log
      ensures Now() == Next(old(Now()), Advance(d), config)
    {
      clock := clock + d;
      if state != CLEAR && clock >= savedAt + Seconds(RECORD_TTL) {
        state := CLEAR;
        log := log + [Expired(clock)];
      }
    }

    method HandleRateLimit(seed: nat)
      modifies this`state, this`savedAt, this`log
      ensures Now() == Next(old(Now()), SignalArrives(ByBalancer(seed)), config)
      ensures state == RateLimitState(true, 0, 0, seed,
        if old(state).firstRateLimited.Some? then old(state).firstRateLimited else Some(clock), Some(clock))
      ensures savedAt == clock
    {
      var next := state;
      next := next.(rateLimited := true, recoveryAttempts := 0, lastRecoveryCheck := Some(clock),
                    consecutiveSuccess := 0, currentBackoff := seed);
      if next.firstRateLimited.None? {
        next := next.(firstRateLimited := Some(clock));
      }
      state, savedAt, log := next, clock, log + [Signal(clock)];
    }

    /** The standalone health checker's handler, which leaves the counts of a running recovery. */
    method MarkRateLimited(seed: nat)
      modifies this`state, this`savedAt, this`log
      ensures Now() == Next(old(Now()), SignalArrives(ByHealthChecker(seed)), config)
      ensures state == RateLimitState(true, old(state).recoveryAttempts, old(state).consecutiveSuccess, seed,
        if old(state).firstRateLimited.Some? then old(state).firstRateLimited else Some(clock), Some(clock))
      ensures savedAt == clock
    {
      var next := state.(rateLimited := true, lastRecoveryCheck := Some(clock), currentBackoff := seed);
      if next.firstRateLimited.None? {
        next := next.(firstRateLimited := Some(clock));
      }
      state, savedAt, log := next, clock, log + [Marked(clock)];
    }

    /** The record a probe leaves, computed field by field. */
    method UpdateRecord(success: bool) returns (next: RateLimitState, recovered: bool)
      requires Probes(state, config)
      ensures next == Checked(state, config, clock, success) && recovered == Recovers(state, config, success)
    {
      next := state.(recoveryAttempts := state.recoveryAttempts + 1, lastRecoveryCheck := Some(clock));
      if next.recoveryAttempts == 1 {
        if next.currentBackoff == 0 {
          next := next.(currentBackoff := config.initialBackoff);
        }
      } else {
        if next.currentBackoff == 0 {
          next := next.(currentBackoff := config.initialBackoff);
        }
        next := next.(currentBackoff := Grown(next.currentBackoff, config));
      }
      recovered := false;
      if success {
        next := next.(consecutiveSuccess := next.consecutiveSuccess + 1);
        if next.consecutiveSuccess == 1 {
          next := next.(currentBackoff := config.initialBackoff);
        }
        if next.consecutiveSuccess >= config.requiredSuccesses {
          next := next.(rateLimited := false, recoveryAttempts := 0, consecutiveSuccess := 0,
                        currentBackoff := 0, firstRateLimited := None);
          recovered := true;
        }
      } else {
        next := next.(consecutiveSuccess := 0);
      }
    }

    /** A check probes the HTTP address, and a recovery marks the endpoint's protocols healthy. */
    method PerformRecoveryCheck(answersWell: bool) returns (shouldContinue: bool)
      modifies this`state, this`savedAt, this`log, this`healthyHTTP, this`healthyWS
      ensures Now() == Next(old(Now()), Check(hasHTTP && answersWell), config)
      ensures shouldContinue == Continues(old(state), config, hasHTTP && answersWell)
      ensures shouldContinue <==>
        old(state).rateLimited && old(state).recoveryAttempts < config.maxRetries && state.rateLimited
      ensures
        var recovered := old(state).rateLimited && !state.rateLimited;
        && healthyHTTP == (old(healthyHTTP) || recovered)
        && healthyWS == (old(healthyWS) || (recovered && hasWS))
    {
      if !state.rateLimited {
        return false;
      }
      if state.recoveryAttempts >= config.maxRetries {
        return false;
      }
      var success := hasHTTP && answersWell;
      var next, recovered := UpdateRecord(success);
      if recovered {
        if hasHTTP {
          healthyHTTP := true;
        }
        if hasWS {
          healthyWS := true;
        }
      }
      state, savedAt := next, clock;
      log := log + ([Probe(clock, success)] + if recovered then [Recovered(clock)] else []);
      return !recovered;
    }

    method ResetBackoffIfDue()
      modifies this`state, this`savedAt, this`log
      ensures Now() == Next(old(Now()), ResetIfDue, config)
      ensures
        var due := old(state).firstRateLimited.Some? &&
                   clock - old(state).firstRateLimited.value >= config.resetAfter * 1_000_000_000;
        state ==
          if due then RateLimitState(old(state).rateLimited, 0, 0, 0, Some(clock), old(state).lastRecoveryCheck)
          else old(state)
    {
      if ShouldResetBackoff(state, config, clock) {
        state := state.(recoveryAttempts := 0, currentBackoff := 0, consecutiveSuccess := 0,
                        firstRateLimited := Some(clock));
        savedAt := clock;
        log := log + [Reset(clock)];
      }
    }

    method ReceiveSignals(signals: seq<Notice>)
      modifies this`state, this`savedAt, this`log
      ensures Now() == AfterSignals(old(Now()), signals, config)
    {
      var i := 0;
      while i < |signals|
        invariant 0 <= i <= |signals|
        invariant Now() == AfterSignals(old(Now()), signals[..i], config)
      {
        assert signals[..i + 1][..i] == signals[..i];
        match signals[i] {
          case ByBalancer(seed) => HandleRateLimit(seed);
          case ByHealthChecker(seed) => MarkRateLimited(seed);
        }
        i := i + 1;
      }
      assert signals[..i] == signals;
    }

    /** Reset the cycle if it is due, then wait; signals may arrive meanwhile. */
    method WaitForRound(r: Round)
      modifies this`clock, this`state, this`savedAt, this`log
      ensures Now() == BeforeCheck(old(Now()), r, config)
    {
      ResetBackoffIfDue();
      var nextBackoff := CalculateNextBackoff(state, config);
      Sleep(Max(0, Seconds(nextBackoff)) + r.late);
      ReceiveSignals(r.signals);
    }

    /** The monitor's loop, for as many rounds as it is given before it is cancelled. */
    method MonitorEndpoint(rounds: seq<Round>) returns (stopped: bool)
      modifies this
      ensures (Now(), stopped) == Monitored(old(Now()), rounds, config, hasHTTP)
    {
      var i := 0;
      while i < |rounds|
        invariant 0 <= i <= |rounds|
        invariant Monitored(Now(), rounds[i..], config, hasHTTP) == Monitored(old(Now()), rounds, config, hasHTTP)
      {
        assert rounds[i..][1..] == rounds[i + 1..];
        WaitForRound(rounds[i]);
        var shouldContinue := PerformRecoveryCheck(rounds[i].answersWell);
        if !shouldContinue {
          return true;
        }
        i := i + 1;
      }
      return false;
    }
  }
}
