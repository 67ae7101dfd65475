# Aetherlay control plane: a verified model

Aetherlay is a load balancer for blockchain RPC endpoints. This project models its control
plane, the part that decides which endpoint gets a request and when an endpoint is in or out:

- **Adaptive capacity** (`Config`, `CapacityEstimate`, `CapacityControl`, `CapacityRace`,
  `Overshoot`): the learned requests-per-window ceiling with multiplicative decrease and lazy
  additive increase, the window counters it reads, the gate in front of it, and both protocols
  with the steps of any number of replicas interleaved.
- **Selection and failover** (`Selection`, `Failover`, `Fairness`): which endpoints a request
  may use, which it tries next, the retry loop with its 400 handling, and how requests spread
  over the endpoints in the long run.
- **Rate-limit recovery** (`Recovery`, `Scheduler`): the backoff state machine, its monitor,
  and the guarantee of one monitor per endpoint.
- **Health state** (`Checker`, `Debounce`, `HealthCache`): probe results against confirmed
  recoveries, debounced passive tracking of real traffic, and the TTL cache of statuses.
- **Store keys** (`Keys`): key parsing and the cleanup of keys of endpoints that left the
  configuration.

Objects that the program updates in place are classes (`CapacityController`, `Handler`,
`EndpointRecovery`, `RateLimitScheduler`, `EndpointChecker`, `HealthTracker`, `KeyStore`,
`Cache`, `EndpointCapacity`). Each method is specified by a function of the old state, and the
lemmas are about those functions, over all runs. Where processes interleave, the steps form a
machine (`World`, `Next`, `Run`) and the lemmas are about every run of it. What comes from
outside (the network's answers, failed store reads, the time) is a parameter.

Durations and instants are whole nanoseconds. Factors and multipliers are reals and converting
them to whole numbers truncates, as Go does.

## Where the code and its comments differ

The model follows the code.

- `internal/store/capacity_estimate.go:125-126` says that overlapping decreases can only err
  towards a lower ceiling. `CapacityRace.LaterWriterMayRaiseTheCeiling` is a run in which the
  second write raises the ceiling from 2 to 50; `CapacityRace.WriteRaisesIff` says exactly when
  a write does.
- `internal/store/valkey.go:284` documents metrics keys with one segment fewer than
  `IncrementRequestCount` writes (`internal/store/valkey.go:203-211`). The keys actually
  written parse to another endpoint, and the cleanup deletes them for active endpoints too
  (`Keys.WrittenMetricsKeysParseWrong`, `Keys.WrittenMetricsAreDeleted`).
- The forwarder can fail after it has begun to write a response
  (`internal/server/server.go:1392-1408`); the retry loop does not notice and goes on.
  `Failover.ReachedIff` says exactly which endpoints a request can come to, and
  `Failover.OneWriteIffNoneBreaksOff` that the client is sure to get a single write exactly
  when none of them breaks off.
- A locked status update whose read fails starts from a blank status
  (`internal/health/checker.go:863-867`), which wipes the other protocol's flag and time of
  last check. `Checker.ChecksKeepTheOtherProtocol` is an if-and-only-if for this reason. Such a
  section also sees no earlier check, so a single passing probe raises an unhealthy protocol
  (`Checker.OnlyConfirmationsRaise`), which the ephemeral checks are meant to prevent.
- Not every endpoint that has come back is recovered by the scheduler: one with a WebSocket
  address only fails every probe, and one whose retries left do not cover the successes it
  still needs is given up while it answers well. `Recovery.MonitorRecoversIff` and
  `Recovery.GoodAnswersRecoverIff` give the exact conditions.
- A request count that cannot be read reaches the selection as 0, not as an error
  (`internal/store/valkey.go:241-251`, `259-274`); the skip at `internal/server/server.go:999-1002`
  only guards the interface.
- The standalone health checker's signal (`services/health-checker/main.go:69-94`) keeps
  RecoveryAttempts and ConsecutiveSuccess, unlike the load balancer's, so a recovery can be
  completed across it (`Recovery.RecoveryIsExact`).
- Waits of a recovery episode need not grow: a seed above MaxBackoff makes the third wait
  shorter than the second (`Recovery.WaitsGrowIffSeedWithinCap`).
- Before the first decrease nothing freezes the learning window, so reconfiguring it in that
  time makes a decrease read another counter than the one the traffic was counted in
  (`CapacityControl.ChangedWindowMissesAttempts`). `CapacityController.CountIsAttempts` gives
  the exact condition for a right count, and `CountIsRightAgain` the window from which on it
  is right again.

## Model

| member | source | states |
|---|---|---|
| `Config.ResolvesInRangeIffAcceptable` | internal/config/config.go:298-316 | an override resolves to parameters the control loop can rely on if and only if each of its fields is unset or in range |
| `Config.EndpointCapacity.ValidateCapacity` | internal/config/config.go:145-166 | a static limit survives exactly when both of its fields are positive, and then unchanged |
| `Config.EndpointCapacity.ValidateCapacityLearning` | internal/config/config.go:174-210 | after validation every override resolves into range; values set in range stay in force, all others give way to the defaults |
| `CapacityEstimate.DecreaseIsSafe` | internal/store/capacity_estimate.go:41-64 | a decrease keeps the floor and the step size, never exceeds the effective ceiling it was taken from, and is strictly below it when that ceiling is above the floor |
| `CapacityEstimate.DecreaseInNumbers` | internal/store/capacity_estimate.go:41-64 | the persisted ceiling is min(effective ceiling, observed), or the observed count without a prior, times the factor, rounded down, or the floor; the step is a tenth of it rounded down, and 1 below twenty |
| `CapacityEstimate.RecoversWithinTwentyIntervals` | internal/store/capacity_estimate.go:41-96 | with a factor of at least one half, 20 clean intervals bring the ceiling back to min(effective ceiling, observed), or to the observed count when seeding, for every such base and floor |
| `CapacityEstimate.TwentyIntervalsAreNeeded` | internal/store/capacity_estimate.go:41-96 | 20 is the least such number: one nanosecond earlier a halving from 39 has not recovered |
| `CapacityEstimate.HitContracts` | internal/store/capacity_estimate.go:41-96 | with a factor of at most one half, a hit less than two intervals after the last one lowers the ceiling or finds it at the floor, and takes it to 11/20 at most when it was 10 or more |
| `CapacityEstimate.SustainedHitsReachTheFloor` | internal/store/capacity_estimate.go:41-96 | any burst of such hits loses at least one per hit and reaches the floor after at most MaxRequests - MinEstimate of them, to stay there |
| `CapacityEstimate.SustainedHitsShrinkGeometrically` | internal/store/capacity_estimate.go:41-96 | above the floor and from 10 up, k hits leave at most (11/20)^k of the ceiling |
| `CapacityEstimate.GrowthIsMonotone` | internal/store/capacity_estimate.go:83-96 | the effective ceiling never falls as time passes |
| `CapacityEstimate.LazyGrowthEqualsTicker` | internal/store/capacity_estimate.go:83-96 | for every sequence of clock advances, the lazily computed ceiling equals the one a background ticker would hold |
| `CapacityEstimate.TickerClosedForm` | internal/store/capacity_estimate.go:83-96 | the ticker's ceiling and the time to its next tick, after any number of nanoseconds |
| `CapacityControl.SpacedDensity` | internal/store/capacity_estimate.go:71-76 | at most T/W + 1 instants that are W apart fall into a stretch of length T |
| `CapacityControl.CapacityController.DecreasesAreSparse` | internal/store/capacity_estimate.go:71-76 | over the whole run at most T/W + 1 decreases are persisted in any span T, W being the frozen window |
| `CapacityControl.CapacityController.Reconfigure` | internal/server/server.go:1467-1480 | once an estimate exists, reconfiguring the learning window leaves the window in force alone; before, a different window starts a new era of counting and the same one does not |
| `CapacityControl.CapacityController.IncrementCapacityCount` | internal/store/valkey.go:531-569 | an increment changes the current window's counter only, counting on from an unexpired value and setting an expiry of two windows from now, and refuses a window that is not positive |
| `CapacityControl.AttemptKeepsTracking` | internal/store/valkey.go:546-569 | an increment keeps every counter equal to the attempts of its window since the window in force was set, plus what an older counter under the same key carries over |
| `CapacityControl.WindowChanges` | internal/server/server.go:1467-1480 | so does a change of the window in force, from which counting starts afresh beside the counters in the store |
| `CapacityControl.LiveIsOffByDiscrepancy` | internal/store/valkey.go:573-587 | a counter read is the number of attempts in the current window, plus what is carried over, less the attempts counted under other windows; expiry included |
| `CapacityControl.DiscrepancyEnds` | internal/store/valkey.go:531-569 | both corrections are zero in every window that starts once the counters of the earlier windows have expired |
| `CapacityControl.CapacityController.CountIsAttempts` | internal/server/server.go:1467-1499 | the count that the gate and a decrease read is the number of dispatch attempts in the current window if and only if the attempts counted there under another window are as many as an unexpired counter carries over |
| `CapacityControl.CapacityController.CountIsRightAgain` | internal/server/server.go:1467-1499 | it always is when the window was never changed after an attempt, and again in every window that starts later than twice the widest earlier width after the change |
| `CapacityControl.CapacityController.RecordCapacityUsage` | internal/server/server.go:1487-1499 | every dispatch attempt is counted exactly once, in the window in force, exactly when throttling is on and the endpoint has a static capacity or learning; the discrepancy stays |
| `CapacityControl.CapacityController.CeilingUsesTheCountedWindow` | internal/server/server.go:1034-1056 | a ceiling always refers to the window the usage is counted in, is positive, and a learned one is at least the persisted estimate |
| `CapacityControl.CapacityController.CeilingIsStaticOrTicker` | internal/server/server.go:1034-1056 | which ceiling exists: with a static capacity exactly its two positive numbers, with learning and an estimate exactly what a ticker running since the last decrease holds, over the frozen window, and none otherwise |
| `CapacityControl.CapacityController.AtCeiling` | internal/server/server.go:899-917 | in every state the gate skips an endpoint exactly when throttling is on and the attempts of its current window, with the discrepancy, have reached its positive static capacity, or without one the learned ceiling with the growth since the last decrease |
| `CapacityControl.CapacityController.EligibleIffCooledDown` | internal/store/capacity_estimate.go:156-188 | a hit decreases exactly when learning is in charge, it is no daily quota, and the last persisted decrease, if any, is at least the frozen window ago, the very end of the cooldown included |
| `CapacityControl.CapacityController.ApplyLearnedCapacityDecreaseIfEligible` | internal/store/capacity_estimate.go:155-208 | an eligible hit decreases on the attempts of the current window with the discrepancy, at most once per window width, and no call changes the window in force |
| `CapacityControl.ChangedWindowMissesAttempts` | internal/store/capacity_estimate.go:176-193 | the condition can fail: a window changed between an attempt and the first decrease makes the decrease miss that attempt |
| `CapacityRace.StepKeepsSafe` | internal/store/capacity_estimate.go:155-208 | each single step of any replica keeps the stored estimate and every estimate held in flight sound |
| `CapacityRace.UndisturbedStepsDecrease` | internal/store/capacity_estimate.go:155-208 | the four steps of one replica, undisturbed, replace the estimate by the decrease taken from it, exactly if it is cooled down |
| `CapacityRace.RunStaysSafe` | internal/store/capacity_estimate.go:155-208 | in every interleaving of any number of replicas, crashes included, every stored estimate keeps the floor, the step size and the seeded window |
| `CapacityRace.EveryWriteLowersWhatItRead` | internal/store/capacity_estimate.go:155-208 | in every run each write stays at or below the effective ceiling its writer read, strictly when that was above the floor, and comes at least a window after the decrease it read |
| `CapacityRace.LaterWriterMayRaiseTheCeiling` | internal/store/capacity_estimate.go:125-137 | a run of two overlapping decreases in which the second write raises the stored ceiling |
| `CapacityRace.WriteRaisesIff` | internal/store/capacity_estimate.go:125-137 | in every run a write raises the stored ceiling if and only if what its writer started from, times the configured factor, reaches the stored ceiling plus one |
| `CapacityRace.OverwritingErrsLowIff` | internal/store/capacity_estimate.go:125-137 | one decrease overwriting another raises the ceiling under no factor at all if and only if its base is not larger or is at most the floor plus one |
| `Overshoot.WaitingAfter` | internal/server/server.go:899-917 | how each step changes the number of requests between check and dispatch |
| `Overshoot.CountAfter` | internal/server/server.go:899-917 | only a dispatch counts, in the current window of its endpoint, and only an admission without a ceiling or after a failed read is booked as unseen |
| `Overshoot.TopAfter` | internal/server/server.go:899-917 | a check at or above its ceiling lets nobody in, and only an admission below it can raise the largest ceiling of the window |
| `Overshoot.StepKeepsBound` | internal/server/server.go:899-917 | each step of any request keeps every window within the largest ceiling read in it + n - 1 + its unseen admissions, the waiting requests included, across rollovers |
| `Overshoot.OvershootIsBounded` | internal/server/server.go:899-917 | under every interleaving with at most n requests between check and dispatch, for static and learned ceilings alike, no window counts more than the largest ceiling read in that window + n - 1, plus one per admission of that window that had no ceiling or a failed read |
| `Overshoot.CeilingBoundsEveryWindow` | internal/server/server.go:899-917 | with a static ceiling, or learned ones of at most m, no window counts more than m + n - 1 and its unseen admissions |
| `Overshoot.OvershootIsAttained` | internal/server/server.go:485-491 | for every static ceiling, n and number of unseen admissions an interleaving within one window reaches that bound, so it is exact |
| `Selection.GetEndpointsByRole` | internal/server/server.go:869-933 | the listed endpoints are exactly the usable ones of the role, each once, whatever the order of the visit; which failed reads hide an endpoint and which do not |
| `Selection.CeilingHidesFromItsValueOn` | internal/server/server.go:899-917 | with throttling a count at the ceiling hides an endpoint, one below leaves it as good as one without a ceiling, and a failed read hides nothing |
| `Selection.WhatHidesAnEndpoint` | internal/server/server.go:871-929 | an unreadable or unhealthy status of the wanted protocol, a rate limit, or a missing archive each hide an endpoint; the other protocol and a failed read of the rate limit do not |
| `Selection.GetAvailableEndpoints` | internal/server/server.go:837-866 | the working list holds exactly the usable endpoints, each once, sorted by the priority of the configured mode |
| `Selection.SelectionIsFirstLeast` | internal/server/server.go:978-1023 | the choice within a role is the first candidate with the least score among those whose count could be read |
| `Selection.FirstLeastIsUnique` | internal/server/server.go:978-1023 | that description determines the choice |
| `Selection.CollectCandidates` | internal/server/server.go:979-995 | the first pass keeps every endpoint of the role in order, and weighs by ceilings only if all of them have one |
| `Selection.SelectBestEndpointByRole` | internal/server/server.go:978-1023 | the two-pass loop with its -1 marker makes that choice |
| `Selection.SelectBestEndpoint` | internal/server/server.go:936-967 | the loop over the roles takes the first one that offers a choice |
| `Selection.RolesByName` | internal/server/server.go:936-967 | the roles are asked in the order public, primary, fallback in public-first mode, otherwise primary, fallback, public, and the first one with a readable candidate provides the choice |
| `Selection.OtherRolesDoNotMatter` | internal/server/server.go:978-1023 | on a mixed list both the weighing and the choice within a role depend on that role's endpoints alone |
| `Selection.SelectionFollowsPriority` | internal/server/server.go:936-967 | with readable counts a choice exists for every non-empty list, has the best role on it and the least score in that role |
| `Selection.SomeIsSelected` | internal/server/server.go:936-967 | one readable candidate of a known role is enough for a choice to exist, whichever other reads fail |
| `Failover.RemoveEndpointByID` | internal/server/server.go:1059-1067 | the loop computes the list without the endpoint |
| `Failover.RemoveKeeps` | internal/server/server.go:1059-1067 | exactly the other endpoints remain |
| `Failover.RemoveShrinks` | internal/server/server.go:461-540 | every turn that goes on strictly shrinks the working list, so the loop ends |
| `Failover.DispatchesAreDistinct` | internal/server/server.go:457-541 | no endpoint is dispatched to twice, all come from the list, and there are at most min(maxRetries, available) dispatches |
| `Failover.TraceDecidesResponse` | internal/server/server.go:457-584 | the dispatches decide the answer: a success ends the run and is served, a second 400 is passed through, and each failing end is told apart by the retries spent |
| `Failover.BadRequestHandling` | internal/server/server.go:496-556 | a 400 reaches the client exactly when two distinct endpoints returned one; the first is charged a failure by the loop exactly when the request is served after it |
| `Failover.EffectsOfARequest` | internal/server/server.go:457-574 | for every run, in terms of its dispatches: one usage entry for each of them, failed or not, in order; one failure charged, to the endpoint of the 400, exactly if a later dispatch answered; one success and one request counted for the endpoint that answered and no other; the whole response as the last write |
| `Failover.ResponseOfARequest` | internal/server/server.go:440-584 | what the client is told: unavailable exactly for an empty list, served exactly if the last dispatch answered, passed through exactly on two 400s, retries used up exactly if neither and that many dispatches were made, otherwise time-out or all failed |
| `Failover.EndingHasItsReason` | internal/server/server.go:461-584 | a time-out has a passed deadline behind it and an endpoint left to try; with readable counts "all failed" leaves none that is not cut off by the public limit |
| `Failover.NoDispatchAfterDeadline` | internal/server/server.go:462-468 | once the deadline has passed nothing more is dispatched |
| `Failover.TurnsReadAnew` | internal/server/server.go:461-473 | every turn reads the deadline, counts and ceilings anew: what earlier turns read has no bearing on the rest of the run |
| `Failover.PublicDispatchesAreLimited` | internal/server/server.go:477-487 | in public-first mode at most PublicFirstAttempts public endpoints are dispatched to |
| `Failover.RolesNeverGoBackUp` | internal/server/server.go:457-541 | with readable counts, the only kind this store reports, the roles dispatched to never go back up the priority order |
| `Failover.FailoverIsComplete` | internal/server/server.go:457-574 | from any state of the loop: no deadline, at most one 400 and fewer failing endpoints than retries left mean that an answering endpoint in reach serves the request, in whatever order the counts make the loop try and whichever reads of other counts fail |
| `Failover.RequestIsServed` | internal/server/server.go:420-574 | the same for a whole request over at most maxRetries endpoints |
| `Failover.ReachedIff` | internal/server/server.go:457-574 | for given answers of the endpoints: some counts, ceilings and deadlines let a request dispatch to an endpoint if and only if failures of better-ranked endpoints clear its way, without ending the request on retries or a second 400, all other better-ranked ones being cut off by the public limit |
| `Failover.DispatchesAreCleared` | internal/server/server.go:457-574 | from any state of the loop, every endpoint a run dispatches to had its way cleared so |
| `Failover.OneWriteIffNoneBreaksOff` | internal/server/server.go:1392-1408 | for given answers of the endpoints: whatever the counts, ceilings and deadlines, the client gets exactly one write, if and only if no endpoint whose way can be cleared breaks off after it has begun to write |
| `Failover.Handler.ChooseMove` | internal/server/server.go:462-481 | deadline, selection and public limit are consulted in that order and settle the turn |
| `Failover.Handler.Dispatch` | internal/server/server.go:483-574 | one dispatch spends one usage unit, and writes, counts and reports exactly what the specification says for its reply |
| `Failover.Handler.TakeTurn` | internal/server/server.go:461-574 | one turn answers, gives up, or leaves the same effects ahead on a strictly shorter list |
| `Failover.Handler.HandleRequestHTTP` | internal/server/server.go:440-584 | the retry loop refines the recursive specification: same dispatches, writes, usage, charges and counts for every environment and list |
| `Fairness.RequestCountsOneServed` | internal/server/server.go:559-566 | a request of the retry loop whose first choice answers changes the request counts exactly as one step of these runs |
| `Fairness.ServedPicksLeast` | internal/server/server.go:978-1023 | a served request raises exactly one count, that of an endpoint with the least score in the pool |
| `Fairness.ChoiceInNumbers` | internal/server/server.go:978-1023 | on any list the choice within a role has the least count * window / requests if all of the role's endpoints have ceilings, otherwise the least count, and is the first among equals |
| `Fairness.WeightedFairness` | internal/server/server.go:978-1023 | after every request of every run no endpoint is more than one request ahead of another relative to their daily budgets |
| `Fairness.WeightedFairnessOnCeilings` | internal/server/server.go:978-1023 | the same on the configured numbers: (r_i - 1) * w_i * m_j <= r_j * w_j * m_i for all i, j |
| `Fairness.TotalIsRequests` | internal/server/server.go:559-566 | every served request is counted once, on one endpoint |
| `Fairness.ProportionalShare` | internal/server/server.go:978-1023 | after n requests over k endpoints each has at most one more than its budget's share of n and at least its share of n - k |
| `Fairness.RawCountsSpreadByOne` | internal/server/server.go:978-1023 | when some endpoint has no ceiling, counts never differ by more than one |
| `Recovery.StepStaysConsistent` | internal/server/rate_limit_scheduler.go:211-330 | every event keeps the record's counters, backoff and clocks in agreement with the log of what happened |
| `Recovery.RunStaysConsistent` | internal/server/rate_limit_scheduler.go:99-330 | the same over every run, signals of the load balancer and of the health checker included; in particular ConsecutiveSuccess is the number of passes the log ends with, the stamps are those of the episode's start and of the last signal or probe, and from the second attempt on a probe leaves a backoff within max(InitialBackoff, MaxBackoff) |
| `Recovery.RecoveryIsExact` | internal/server/rate_limit_scheduler.go:211-330 | in any run a check lifts the limit if and only if it is the last of RequiredSuccesses passing probes with nothing but signals of the health checker between them; otherwise only the record's expiry does |
| `Recovery.ProbesAreBounded` | internal/server/rate_limit_scheduler.go:99-235 | at most MaxRetries probes without a signal of the load balancer, a reset, a recovery or an expiry between them, and resets at least ResetAfter apart |
| `Recovery.BackoffClosedForm` | internal/server/rate_limit_scheduler.go:237-261 | for a whole multiplier m and first wait s the k-th wait is min(s * m^(k-2), MaxBackoff), the first two being s |
| `Recovery.WaitStep` | internal/server/rate_limit_scheduler.go:237-261 | the second wait repeats the first, each later one is the multiplied, truncated and capped previous one |
| `Recovery.CheckInNumbers` | internal/server/rate_limit_scheduler.go:237-330 | after a check: the last success needed clears the record; otherwise the next wait is InitialBackoff after a first success, the same after the first attempt, and else multiplied, rounded down and capped, for every multiplier of at least one |
| `Recovery.RoundTakesItsWait` | internal/server/rate_limit_scheduler.go:166-194 | a round's probe is logged exactly CurrentBackoff seconds and the timer's lateness after the round begins, InitialBackoff seconds if that is 0 or a reset is due |
| `Recovery.FailingProbesOnTheClock` | internal/server/rate_limit_scheduler.go:147-261 | in an episode in which all probes fail the monitor makes one probe a round, the first two s seconds apart, each later one min(s * m^(k-1), MaxBackoff) seconds after the one before, k probes in, plus the lateness |
| `Recovery.WaitsGrowIffSeedWithinCap` | internal/server/rate_limit_scheduler.go:237-261 | for any multiplier of at least one the waits never shrink if and only if the first is within MaxBackoff; from the third on none exceeds it |
| `Recovery.MonitorStops` | internal/server/rate_limit_scheduler.go:99-208 | without signals or resets every round a monitor survives uses up a retry, and it stops only on an endpoint that is not limited or has none left |
| `Recovery.MonitorRecoversIff` | internal/server/rate_limit_scheduler.go:99-330 | left without a signal of the load balancer, reset or expiry, a monitor recovers its endpoint if and only if the endpoint has an HTTP address and answers well RequiredSuccesses times in a row, earlier ones counted, within the retries left; for every sequence of answers and of signals of the health checker |
| `Recovery.GoodAnswersRecoverIff` | internal/server/rate_limit_scheduler.go:99-330 | an endpoint that answers every probe well is recovered if and only if it has an HTTP address and the retries left cover the successes still needed |
| `Recovery.ShortRoundsAreCalm` | internal/server/rate_limit_scheduler.go:166-192 | no reset and no expiry can come in between when the waits, each at most the largest of the seeds, InitialBackoff and MaxBackoff, fit before both |
| `Recovery.ResolvesSensibleIff` | internal/server/rate_limit_scheduler.go:126-148 | an override amounts to sensible settings if and only if each field it sets is sensible; set fields are in force, unset ones are 2.0, 300 s, 7200 s, 10, 2 and 86400 s |
| `Recovery.WithoutHTTPNoRecovery` | internal/server/rate_limit_scheduler.go:333-336 | whatever the rounds, with signals, resets and expiries, an endpoint without an HTTP address is never recovered by its monitor |
| `Recovery.EndpointRecovery.Sleep` | internal/store/valkey.go:420-441 | the record vanishes 24 hours after its last write |
| `Recovery.EndpointRecovery.HandleRateLimit` | internal/server/server.go:1880-1920 | a signal opens an episode with the provider's seed, or restarts its counters while keeping its first instant |
| `Recovery.EndpointRecovery.MarkRateLimited` | services/health-checker/main.go:69-94 | the health checker's signal limits the endpoint and sets the seed, and keeps attempts and successes |
| `Recovery.EndpointRecovery.PerformRecoveryCheck` | internal/server/rate_limit_scheduler.go:211-330 | a check is one event of the machine, says whether the monitor goes on, and on recovery marks the endpoint's own protocols healthy |
| `Recovery.EndpointRecovery.ResetBackoffIfDue` | internal/server/rate_limit_scheduler.go:166-177 | a cycle is started afresh exactly when ResetAfter has passed since its first signal or last reset, as one event of the machine |
| `Recovery.EndpointRecovery.MonitorEndpoint` | internal/server/rate_limit_scheduler.go:99-208 | the loop is the fold of reset, wait, signals and check over its rounds, and stops exactly where the fold does |
| `Scheduler.RateLimitScheduler.StartMonitoring` | internal/server/rate_limit_scheduler.go:72-96 | a monitor is spawned exactly when the endpoint has none running |
| `Scheduler.RateLimitScheduler.CleanUp` | internal/server/rate_limit_scheduler.go:99-106 | a leaving monitor removes itself and no other |
| `Scheduler.RateLimitScheduler.OneMonitorPerEndpoint` | internal/server/rate_limit_scheduler.go:72-106 | at any time at most one monitor serves an endpoint |
| `Checker.OnlyConfirmationsRaise` | internal/health/checker.go:840-882 | a section raises a protocol's flag if and only if it is that protocol's confirmation, or its own probe passed and it saw no earlier check because there was none or its read failed; and exactly which sections take the flag down |
| `Checker.ChecksKeepTheOtherProtocol` | internal/health/checker.go:858-882 | an HTTP or WebSocket check keeps the other protocol's flag and time if and only if its read succeeded or there was nothing to lose |
| `Checker.FirstCheckDecides` | internal/health/checker.go:436-496 | an endpoint's first sweep sets both flags to its probes' verdicts, in either order of the protocols |
| `Checker.FlagIsTheLastVerdict` | internal/health/checker.go:436-496 | in every interleaving, failed reads included, a protocol is healthy exactly when it was raised in one of these ways and not taken down since, or healthy from the start and never taken down |
| `Checker.LastReportDecides` | internal/health/checker.go:840-882 | with ephemeral checks off, over every history: a protocol is healthy if and only if the last section that reports on it found it up and no read has failed since |
| `Checker.SectionsRecordWhatTheySaw` | internal/health/checker.go:463-495 | each section writes the addresses and times of the protocols it looked at and no others |
| `Checker.BlockIsFromTheLastGoodCall` | internal/health/checker.go:951-955 | the block number is the one of the last check whose block call went through |
| `Checker.StepKeepsCounters` | internal/health/checker.go:328-388 | in every interleaving each runner's counter is the length of its own current run of passes |
| `Checker.RecoveryIsEarned` | internal/health/checker.go:328-388 | in every run, failed reads included, the step that makes a protocol healthy is a runner's confirmation after its own last `threshold` probes all passed, or a lucky pass; without failed reads a checked protocol gets no lucky pass |
| `Checker.TrailingPassesEndRun` | internal/health/checker.go:351-384 | the counter reaches n exactly when the last n probes passed |
| `Checker.EndpointChecker.CheckHTTPHealth` | internal/health/checker.go:885-962 | the step-by-step update is the HTTP section; without an address nothing is written |
| `Checker.EndpointChecker.CheckWSHealth` | internal/health/checker.go:965-1016 | the step-by-step update is the WebSocket section |
| `Checker.EndpointChecker.PersistSweep` | internal/health/checker.go:463-495 | the sweep decides both flags from the state it reads under the lock, not from an earlier one |
| `Checker.EndpointChecker.RunEphemeralCheckProtocol` | internal/health/checker.go:328-388 | a runner confirms at exactly the first probe that ends `threshold` passes in a row, whichever reads fail, and writes its own checks and that confirmation only |
| `Checker.RunnerKeepsToItsProtocol` | internal/health/checker.go:328-388 | a confirming runner leaves its protocol healthy, and without failed reads the other one as it was |
| `Debounce.FlagIsLatestDecision` | internal/server/server.go:1070-1186 | the flag is the outcome of the latest run that reached its threshold with the store working, and the initial value while none has |
| `Debounce.DecidesByName` | internal/server/server.go:1109-1146 | a failure decides exactly when it ends failureThreshold failures in a row, a success when it ends successThreshold successes in a row, with the store working |
| `Debounce.FlipsAreRare` | internal/server/server.go:1109-1146 | flips * min(failureThreshold, successThreshold) never exceeds the number of observations |
| `Debounce.RunGrows` | internal/server/server.go:1091-1104 | the two counters hold the length of the current run |
| `Debounce.ObservationMarksOneFlag` | internal/server/server.go:1150-1165 | an observation changes at most the flag of its own endpoint and protocol, to its own outcome, at its threshold |
| `Debounce.CountersKeepTrack` | internal/server/server.go:1075-1104 | counting one endpoint and protocol leaves all other counters in agreement with their histories |
| `Debounce.FlagsKeepTrack` | internal/server/server.go:1144-1170 | writing only on a change still leaves every stored flag equal to what its history says |
| `Debounce.HealthTracker.ReadStatus` | internal/server/server.go:875-885 | a status read through the cache is what the observations lead to |
| `Debounce.HealthTracker.UpdateEndpointHealthState` | internal/server/server.go:1070-1186 | one call appends one observation to one history and keeps counters, stored flags and cache in agreement with all of them |
| `Debounce.HealthTracker.StoredFlagsFollowDecisions` | internal/server/server.go:1150-1170 | each stored flag follows the latest decision of its own endpoint's and protocol's observations |
| `HealthCache.LatestIsStoredLast` | internal/cache/health_cache.go:31-80 | the entry a key should have is the one stored by the last operation that concerned the key |
| `HealthCache.ServedExactlyWhileFresh` | internal/cache/health_cache.go:31-52 | a status is served exactly while it was the last one stored and is at most the TTL old, and time alone never brings one back |
| `HealthCache.EndpointsDoNotCollide` | internal/cache/health_cache.go:31-73 | operations on one endpoint never change what another one's lookup answers |
| `HealthCache.Cache.Lookup` | internal/cache/health_cache.go:33-52 | a hit is always the view's answer, whatever sections ran in between |
| `HealthCache.Cache.Get` | internal/cache/health_cache.go:33-52 | an uninterrupted lookup answers as the view without evictions does |
| `HealthCache.Cache.Set` | internal/cache/health_cache.go:55-64 | a status is stored under its endpoint's key at the present instant, and no fresh entry gets lost |
| `HealthCache.Cache.Invalidate` | internal/cache/health_cache.go:67-73 | the endpoint's entry is dropped and no other fresh entry gets lost |
| `Keys.KeyRoundTrip` | internal/store/valkey.go:287-307 | for a colon-free chain and any endpoint ID, colons included, a built key parses back to the two |
| `Keys.MetricsRoundTrip` | internal/store/valkey.go:287-307 | the same for metrics keys in their documented format |
| `Keys.WrittenMetricsKeysParseWrong` | internal/store/valkey.go:202-211 | the metrics keys actually written never parse to their endpoint |
| `Keys.OwnerTextIsInjective` | internal/store/valkey.go:314-320 | distinct endpoints have distinct entries in the lookup set, given colon-free chains |
| `Keys.PrefixesAreDistinct` | internal/store/valkey.go:15-29 | no key is found under two of the scanned prefixes |
| `Keys.CleanupIsExact` | internal/store/valkey.go:312-384 | an endpoint's key is stale if and only if the endpoint is no longer configured |
| `Keys.CleanupByKind` | internal/store/valkey.go:321-361 | kind by kind: health, rate-limit, capacity-estimate, custom-probe and gate keys of an endpoint go exactly if it is no longer configured |
| `Keys.CleanupSparesOtherKeys` | internal/store/valkey.go:321-361 | usage counters, and keys of a scanned prefix that name no endpoint, are never deleted |
| `Keys.WrittenMetricsAreDeleted` | internal/store/valkey.go:312-384 | a written metrics key is stale if and only if no endpoint is called by its endpoint's ID with the request type appended, so an active endpoint's metrics go |
| `Keys.KeyStore.BuildActiveTexts` | internal/store/valkey.go:314-320 | the lookup set holds exactly the configured pairs, in whatever order the map is visited |
| `Keys.KeyStore.CollectStale` | internal/store/valkey.go:335-361 | page by page, exactly the stale keys of the scan are collected |
| `Keys.KeyStore.DoMulti` | internal/store/valkey.go:370-375 | one round trip removes exactly the batch's keys that do not fail, and its results add up to the number of keys removed |
| `Keys.SurvivingMeans` | internal/store/valkey.go:366-381 | after any list of deletes exactly the listed keys that did not fail are gone |
| `Keys.KeyStore.DeleteInBatches` | internal/store/valkey.go:363-381 | the slices are at most 500 long and make up the stale list, or its part up to the slice with the first failing DEL; exactly their keys that do not fail go, each counted once even if listed twice |
| `Keys.KeyStore.CleanupStaleEndpoints` | internal/store/valkey.go:312-384 | without a failure exactly the stale keys go and the result is their number; a failed scan deletes nothing, and a failed DEL never costs a key that is not stale |

## Left out

- Rounding of `float64`: factors, multipliers and scores are exact reals. The defaults 0.5 and 2.0 are exact in both.
- Overflow of `int64` in lazy growth and saturation of durations near 292 years: the code has no guard, the model uses unbounded integers.
- The WebSocket request loop: it has the shape of the HTTP loop. The copy loops, close codes and dialling are left out.
- HTTP forwarding, header copying, TLS, the store's client and the SCAN cursor: a reply per endpoint, and pages of keys that cover the stored ones, stand for them.
- Reading a rate limit out of a response, Retry-After, JSON-RPC parsing, chain types and custom probes: the seed of a signal and the verdict of a probe are parameters.
- The custom probe gate: its exclusivity is the store's SET NX EX.
- Failures the forwarder itself reports for debouncing (internal/server/server.go:1309-1348): the loop's own charge of the first 400 is modelled.
- Recovery.RunStaysConsistent: a signal and a recovery check of one endpoint do not overlap. In the code both read and later write the whole record, so the last write wins and a signal inside a check can be lost.
- Recovery.MonitorStops: the retry after a failed store read, which repeats the wait without a check, is left out; and a signal that arrives while a monitor is leaving may find no monitor, which the code does not prevent.
- Recovery.RecoveryIsExact: the settings are assumed sensible (multiplier at least 1, whole numbers at least 1), since nothing validates them.
- Checker.RecoveryIsEarned: the sections' writes succeed; a failed one leaves the status as if the section had not run. The request counts copied into the status are left out.
- Checker.EndpointChecker.RunEphemeralCheckProtocol: alone on its endpoint; Checker.RecoveryIsEarned has the interleaving.
- Debounce.HealthTracker.UpdateEndpointHealthState: calls are atomic and the tracker is the only writer of the flags, with no expiry of the cache. Two replicas that track the same endpoint overwrite each other's flags.
- HealthCache.Cache.Get: uninterrupted. A status stored between its read and its removal of an expired entry is dropped with it, a miss too many; Evict says exactly when.
- Overshoot.OvershootIsBounded: one shared clock, and an endpoint's window width stays the same; a lowered ceiling binds the checks that read it, not the count already reached.
- CapacityControl.CapacityController.AtCeiling: store reads and increments succeed. Overshoot counts the admissions whose read failed.
- CapacityRace.RunStaysSafe: all replicas share one configuration, since the window of a seeding write is the writer's own.
- Fairness.WeightedFairness: constant ceilings, every endpoint available, sequential requests that all succeed, and no other source of counts; no count expires meanwhile (each endpoint's 24-hour counter vanishes by itself after 24 hours without a request, internal/store/valkey.go:208-209).
- CORS, metrics, readiness output, flags, environment and file loading, logging, redaction and deployment files.
