/** internal/health/checker.go: how health probes change an endpoint's stored status. Every
    change is a read-modify-write section under the endpoint's lock; the sections of HTTP
    checks, WebSocket checks, sweeps and ephemeral runners interleave in any order. */
module Checker {
  import opened Prelude

  datatype Protocol = HTTP | WS

  datatype Status = Status(
    hasHTTP: bool, hasWS: bool, healthyHTTP: bool, healthyWS: bool,
    lastHTTPCheck: Option<nat>, lastWSCheck: Option<nat>, blockNumber: int)

  const NEW_STATUS := Status(false, false, false, false, None, None, 0)

  datatype Endpoint = Endpoint(hasHTTP: bool, hasWS: bool)

  /** A probe's verdict, and the block it read unless the block call failed. */
  datatype Verdict = Verdict(healthy: bool, block: Option<int>)

  /** The update a locked section applies. */
  datatype Section =
    | HTTPCheck(at: nat, verdict: Verdict)
    | WSCheck(at: nat, verdict: Verdict)
    | Sweep(at: nat, http: bool, ws: bool)
    | Confirm(protocol: Protocol)

  /** Failures count at once; with ephemeral checks on, a recovery is left to them unless the
      protocol has never been checked. */
  function ResolveHealthTransition(ephemeral: bool, hasPriorCheck: bool, currentlyHealthy: bool,
                                   probeHealthy: bool): bool {
    if !ephemeral || !hasPriorCheck then probeHealthy
    else if probeHealthy && !currentlyHealthy then false
    else probeHealthy
  }

  function Apply(s: Status, section: Section, ephemeral: bool, ep: Endpoint): Status {
    match section
    case HTTPCheck(at, v) =>
      s.(blockNumber := if v.block.Some? then v.block.value else s.blockNumber,
         hasHTTP := ep.hasHTTP,
         healthyHTTP := ResolveHealthTransition(ephemeral, s.lastHTTPCheck.Some?, s.healthyHTTP, v.healthy),
         lastHTTPCheck := Some(at))
    case WSCheck(at, v) =>
      s.(blockNumber := if v.block.Some? then v.block.value else s.blockNumber,
         hasWS := ep.hasWS,
         healthyWS := ResolveHealthTransition(ephemeral, s.lastWSCheck.Some?, s.healthyWS, v.healthy),
         lastWSCheck := Some(at))
    case Sweep(at, http, ws) =>
      Status(ep.hasHTTP, ep.hasWS,
             ResolveHealthTransition(ephemeral, s.lastHTTPCheck.Some?, s.healthyHTTP, http),
             ResolveHealthTransition(ephemeral, s.lastWSCheck.Some?, s.healthyWS, ws),
             if ep.hasHTTP then Some(at) else s.lastHTTPCheck,
             if ep.hasWS then Some(at) else s.lastWSCheck,
             s.blockNumber)
    case Confirm(protocol) =>
      if protocol == HTTP then s.(healthyHTTP := true) else s.(healthyWS := true)
  }

  /** A failed read makes the section start from a blank status. */
  function Locked(s: Status, section: Section, readSucceeds: bool, ephemeral: bool, ep: Endpoint): Status {
    Apply(if readSucceeds then s else NEW_STATUS, section, ephemeral, ep)
  }

  function Healthy(s: Status, p: Protocol): bool {
    if p == HTTP then s.healthyHTTP else s.healthyWS
  }

  function LastCheck(s: Status, p: Protocol): Option<nat> {
    if p == HTTP then s.lastHTTPCheck else s.lastWSCheck
  }

  // ---- One section ----------------------------------------------------------------------

  /** A section that found the protocol down. */
  predicate Lowers(section: Section, p: Protocol) {
    match section
    case HTTPCheck(_, v) => p == HTTP && !v.healthy
    case WSCheck(_, v) => p == WS && !v.healthy
    case Sweep(_, http, ws) => if p == HTTP then !http else !ws
    case Confirm(_) => false
  }

  /** A section whose probe of the protocol passed. */
  predicate FoundUp(section: Section, p: Protocol) {
    match section
    case HTTPCheck(_, v) => p == HTTP && v.healthy
    case WSCheck(_, v) => p == WS && v.healthy
    case Sweep(_, http, ws) => if p == HTTP then http else ws
    case Confirm(_) => false
  }

  /** A section that writes the protocol's time of last check. */
  predicate Records(section: Section, ep: Endpoint, p: Protocol) {
    match section
    case HTTPCheck(_, _) => p == HTTP
    case WSCheck(_, _) => p == WS
    case Sweep(_, _, _) => if p == HTTP then ep.hasHTTP else ep.hasWS
    case Confirm(_) => false
  }

  /** A single passing probe decides, because the section sees no earlier check: there was
      none, or the read failed. */
  predicate Lucky(s: Status, section: Section, readSucceeds: bool, p: Protocol) {
    FoundUp(section, p) && (!readSucceeds || LastCheck(s, p).None?)
  }

  /** With ephemeral checks on, a section makes a protocol healthy exactly when it is that
      protocol's confirmation or a lucky pass. It leaves a healthy one healthy exactly when it
      did not find it down, however stale its probe is; after a failed read, exactly when it
      says itself that the protocol is up. */
  lemma OnlyConfirmationsRaise(s: Status, section: Section, readSucceeds: bool, ep: Endpoint, p: Protocol)
    ensures
      var after := Locked(s, section, readSucceeds, true, ep);
      && (!Healthy(s, p) ==> (Healthy(after, p) <==> section == Confirm(p) || Lucky(s, section, readSucceeds, p)))
      && (Healthy(s, p) ==> (Healthy(after, p) <==> !Drops(Access(section, readSucceeds), p)))
      && (LastCheck(after, p).Some? <==> Records(section, ep, p) || (readSucceeds && LastCheck(s, p).Some?))
  {
  }

  /** One locked section and whether its read succeeds. */
  datatype Access = Access(section: Section, readSucceeds: bool)

  /** The access takes a healthy protocol down. */
  predicate Drops(a: Access, p: Protocol) {
    if a.readSucceeds then Lowers(a.section, p) else a.section != Confirm(p) && !FoundUp(a.section, p)
  }

  predicate SameHTTP(a: Status, b: Status) {
    a.hasHTTP == b.hasHTTP && a.healthyHTTP == b.healthyHTTP && a.lastHTTPCheck == b.lastHTTPCheck
  }

  predicate SameWS(a: Status, b: Status) {
    a.hasWS == b.hasWS && a.healthyWS == b.healthyWS && a.lastWSCheck == b.lastWSCheck
  }

  /** A check of one protocol keeps the other's flag and timestamp if and only if its read
      succeeded or there was nothing to lose. */
  lemma ChecksKeepTheOtherProtocol(s: Status, at: nat, v: Verdict, readSucceeds: bool, ephemeral: bool, ep: Endpoint)
    ensures
      var after := Locked(s, HTTPCheck(at, v), readSucceeds, ephemeral, ep);
      SameWS(after, s) <==> readSucceeds || SameWS(NEW_STATUS, s)
    ensures
      var after := Locked(s, WSCheck(at, v), readSucceeds, ephemeral, ep);
      SameHTTP(after, s) <==> readSucceeds || SameHTTP(NEW_STATUS, s)
  {
  }

  /** A protocol's very first check decides at once, and the sweep that ran it agrees, even
      with the other protocol's sections in between. */
  lemma FirstCheckDecides(s: Status, ep: Endpoint, ephemeral: bool, http: Verdict, ws: Verdict, t: nat, u: nat, v: nat)
    requires s.lastHTTPCheck.None? && s.lastWSCheck.None? && ep.hasHTTP && ep.hasWS
    ensures
      var a := Apply(Apply(s, HTTPCheck(t, http), ephemeral, ep), WSCheck(u, ws), ephemeral, ep);
      var b := Apply(Apply(s, WSCheck(u, ws), ephemeral, ep), HTTPCheck(t, http), ephemeral, ep);
      forall c :: c == a || c == b ==>
        var after := Apply(c, Sweep(v, http.healthy, ws.healthy), ephemeral, ep);
        after.healthyHTTP == http.healthy && after.healthyWS == ws.healthy
  {
  }

  // ---- Whole histories ------------------------------------------------------------------

  function History(s: Status, accesses: seq<Access>, ephemeral: bool, ep: Endpoint): Status {
    if accesses == [] then s
    else
      var last := accesses[|accesses| - 1];
      Locked(History(s, accesses[..|accesses| - 1], ephemeral, ep), last.section, last.readSucceeds, ephemeral, ep)
  }

  ghost predicate ReadsSucceed(accesses: seq<Access>, lo: nat, hi: nat)
    requires hi <= |accesses|
  {
    forall k :: lo <= k < hi ==> accesses[k].readSucceeds
  }

  /** Access i finds a time of last check: some access recorded one, or there was one from the
      start, and every read since succeeded. */
  ghost predicate CheckedBefore(known: bool, accesses: seq<Access>, i: nat, ep: Endpoint, p: Protocol)
    requires i <= |accesses|
  {
    || (known && ReadsSucceed(accesses, 0, i))
    || exists j :: 0 <= j < i && Records(accesses[j].section, ep, p) && ReadsSucceed(accesses, j + 1, i)
  }

  /** Access i makes the protocol healthy whatever it was: a confirmation, or a passing probe
      that finds no earlier check. */
  ghost predicate RaisedAt(known: bool, accesses: seq<Access>, i: nat, ep: Endpoint, p: Protocol)
    requires i < |accesses|
  {
    || accesses[i].section == Confirm(p)
    || (FoundUp(accesses[i].section, p)
        && (!accesses[i].readSucceeds || !CheckedBefore(known, accesses, i, ep, p)))
  }

  ghost predicate NeverDroppedFrom(accesses: seq<Access>, start: nat, p: Protocol) {
    forall k :: start <= k < |accesses| ==> !Drops(accesses[k], p)
  }

  ghost predicate RaisedLast(known: bool, accesses: seq<Access>, ep: Endpoint, p: Protocol) {
    exists i :: 0 <= i < |accesses| && RaisedAt(known, accesses, i, ep, p) && NeverDroppedFrom(accesses, i, p)
  }

  /** In every interleaving, failed reads included, a protocol is healthy exactly when it was
      confirmed, or passed a probe no earlier check was seen for, and was not taken down since,
      or was healthy from the start and never taken down. */
  lemma {:induction false} FlagIsTheLastVerdict(s: Status, accesses: seq<Access>, ep: Endpoint, p: Protocol)
    ensures
      var known := LastCheck(s, p).Some?;
      var after := History(s, accesses, true, ep);
      && (LastCheck(after, p).Some? <==> CheckedBefore(known, accesses, |accesses|, ep, p))
      && (Healthy(after, p) <==>
          RaisedLast(known, accesses, ep, p) || (Healthy(s, p) && NeverDroppedFrom(accesses, 0, p)))
  {
    if accesses != [] {
      var init, last := accesses[..|accesses| - 1], accesses[|accesses| - 1];
      var known := LastCheck(s, p).Some?;
      FlagIsTheLastVerdict(s, init, ep, p);
      OnlyConfirmationsRaise(History(s, init, true, ep), last.section, last.readSucceeds, ep, p);
      CheckedAppend(known, init, last, ep, p);
      VerdictAppend(known, init, last, ep, p);
      assert accesses == init + [last];
    }
  }

  lemma CheckedAppend(known: bool, init: seq<Access>, last: Access, ep: Endpoint, p: Protocol)
    ensures CheckedBefore(known, init + [last], |init| + 1, ep, p)
       <==> Records(last.section, ep, p) || (last.readSucceeds && CheckedBefore(known, init, |init|, ep, p))
  {
    var all, n := init + [last], |init|;
    if Records(last.section, ep, p) {
      assert Records(all[n].section, ep, p) && ReadsSucceed(all, n + 1, n + 1);
    } else if CheckedBefore(known, all, n + 1, ep, p) {
      CheckedUpToLast(known, init, last, ep, p);
    }
    if last.readSucceeds && CheckedBefore(known, init, n, ep, p) {
      CheckedPastLast(known, init, last, ep, p);
    }
  }

  lemma CheckedPastLast(known: bool, init: seq<Access>, last: Access, ep: Endpoint, p: Protocol)
    requires last.readSucceeds && CheckedBefore(known, init, |init|, ep, p)
    ensures CheckedBefore(known, init + [last], |init| + 1, ep, p)
  {
    var all, n := init + [last], |init|;
    if known && ReadsSucceed(init, 0, n) {
      assert ReadsSucceed(all, 0, n + 1);
    } else {
      var j :| 0 <= j < n && Records(init[j].section, ep, p) && ReadsSucceed(init, j + 1, n);
      assert Records(all[j].section, ep, p) && ReadsSucceed(all, j + 1, n + 1);
    }
  }

  lemma CheckedUpToLast(known: bool, init: seq<Access>, last: Access, ep: Endpoint, p: Protocol)
    requires CheckedBefore(known, init + [last], |init| + 1, ep, p) && !Records(last.section, ep, p)
    ensures last.readSucceeds && CheckedBefore(known, init, |init|, ep, p)
  {
    var all, n := init + [last], |init|;
    assert all[n] == last && forall k :: 0 <= k < n ==> all[k] == init[k];
    if known && ReadsSucceed(all, 0, n + 1) {
      assert ReadsSucceed(init, 0, n);
    } else {
      var j :| 0 <= j < n + 1 && Records(all[j].section, ep, p) && ReadsSucceed(all, j + 1, n + 1);
      assert Records(init[j].section, ep, p) && ReadsSucceed(init, j + 1, n);
    }
  }

  lemma PrefixChecked(known: bool, init: seq<Access>, last: Access, i: nat, ep: Endpoint, p: Protocol)
    requires i <= |init|
    ensures CheckedBefore(known, init + [last], i, ep, p) <==> CheckedBefore(known, init, i, ep, p)
  {
    var all := init + [last];
    forall j: nat ensures ReadsSucceed(all, j, i) <==> ReadsSucceed(init, j, i) {
      assert forall k :: 0 <= k < i ==> all[k] == init[k];
    }
    if j :| 0 <= j < i && Records(all[j].section, ep, p) && ReadsSucceed(all, j + 1, i) {
      assert Records(init[j].section, ep, p) && ReadsSucceed(init, j + 1, i);
    }
    if j :| 0 <= j < i && Records(init[j].section, ep, p) && ReadsSucceed(init, j + 1, i) {
      assert Records(all[j].section, ep, p) && ReadsSucceed(all, j + 1, i);
    }
  }

  lemma VerdictAppend(known: bool, init: seq<Access>, last: Access, ep: Endpoint, p: Protocol)
    ensures NeverDroppedFrom(init + [last], 0, p) <==> NeverDroppedFrom(init, 0, p) && !Drops(last, p)
    ensures RaisedLast(known, init + [last], ep, p) <==>
      RaisedAt(known, init + [last], |init|, ep, p) || (RaisedLast(known, init, ep, p) && !Drops(last, p))
  {
    var all, n := init + [last], |init|;
    assert all[n] == last;
    forall i: nat | i < n
      ensures RaisedAt(known, all, i, ep, p) <==> RaisedAt(known, init, i, ep, p)
      ensures NeverDroppedFrom(all, i, p) <==> NeverDroppedFrom(init, i, p) && !Drops(last, p)
    {
      PrefixChecked(known, init, last, i, ep, p);
      DroppedAppend(init, last, i, p);
    }
    DroppedAppend(init, last, 0, p);
    if RaisedAt(known, all, n, ep, p) {
      assert NeverDroppedFrom(all, n, p);
    }
    if i :| 0 <= i < n && RaisedAt(known, init, i, ep, p) && NeverDroppedFrom(init, i, p) {
      assert RaisedAt(known, all, i, ep, p);
    }
    if i :| 0 <= i < n + 1 && RaisedAt(known, all, i, ep, p) && NeverDroppedFrom(all, i, p) {
      assert i < n ==> RaisedAt(known, init, i, ep, p) && NeverDroppedFrom(init, i, p);
    }
  }

  lemma DroppedAppend(init: seq<Access>, last: Access, start: nat, p: Protocol)
    requires start <= |init|
    ensures NeverDroppedFrom(init + [last], start, p) <==> NeverDroppedFrom(init, start, p) && !Drops(last, p)
  {
    var all := init + [last];
    assert all[|init|] == last;
    assert forall k :: start <= k < |init| ==> all[k] == init[k];
  }

  // ---- Without ephemeral checks ---------------------------------------------------------

  /** A section that says whether the protocol is up, and one that says it is. */
  predicate ReportsOn(section: Section, p: Protocol) {
    match section
    case HTTPCheck(_, _) => p == HTTP
    case WSCheck(_, _) => p == WS
    case Sweep(_, _, _) => true
    case Confirm(q) => p == q
  }

  predicate ReportsUp(section: Section, p: Protocol) {
    match section
    case HTTPCheck(_, v) => p == HTTP && v.healthy
    case WSCheck(_, v) => p == WS && v.healthy
    case Sweep(_, http, ws) => (p == HTTP && http) || (p == WS && ws)
    case Confirm(q) => p == q
  }

  /** From access i on nothing is said about the protocol, and every read succeeds. */
  ghost predicate SilentFrom(accesses: seq<Access>, i: nat, p: Protocol) {
    forall k :: i <= k < |accesses| ==> !ReportsOn(accesses[k].section, p) && accesses[k].readSucceeds
  }

  ghost predicate LastReportIsUp(accesses: seq<Access>, p: Protocol) {
    exists i :: 0 <= i < |accesses| && ReportsUp(accesses[i].section, p) && SilentFrom(accesses, i + 1, p)
  }

  /** With ephemeral checks off, over every history: a protocol is healthy if and only if the
      last section that reports on it found it up, and no read has failed since; the initial
      flag counts while nothing has been reported. */
  lemma {:induction false} LastReportDecides(s: Status, accesses: seq<Access>, ep: Endpoint, p: Protocol)
    ensures Healthy(History(s, accesses, false, ep), p)
       <==> LastReportIsUp(accesses, p) || (Healthy(s, p) && SilentFrom(accesses, 0, p))
  {
    if accesses != [] {
      var init, last := accesses[..|accesses| - 1], accesses[|accesses| - 1];
      LastReportDecides(s, init, ep, p);
      ReportAppend(init, last, p);
      ReportIsBelieved(History(s, init, false, ep), last, ep, p);
      assert accesses == init + [last];
    }
  }

  lemma ReportIsBelieved(s: Status, a: Access, ep: Endpoint, p: Protocol)
    ensures Healthy(Locked(s, a.section, a.readSucceeds, false, ep), p) <==>
      if ReportsOn(a.section, p) then ReportsUp(a.section, p) else a.readSucceeds && Healthy(s, p)
  {
  }

  lemma ReportAppend(init: seq<Access>, last: Access, p: Protocol)
    ensures SilentFrom(init + [last], 0, p) <==>
      SilentFrom(init, 0, p) && !ReportsOn(last.section, p) && last.readSucceeds
    ensures LastReportIsUp(init + [last], p) <==>
      ReportsUp(last.section, p) || (LastReportIsUp(init, p) && !ReportsOn(last.section, p) && last.readSucceeds)
  {
    var all, n := init + [last], |init|;
    SilentAppend(init, last, 0, p);
    if ReportsUp(last.section, p) {
      assert ReportsUp(all[n].section, p) && SilentFrom(all, n + 1, p);
    } else if i :| 0 <= i < n + 1 && ReportsUp(all[i].section, p) && SilentFrom(all, i + 1, p) {
      SilentAppend(init, last, i + 1, p);
      assert ReportsUp(init[i].section, p) && SilentFrom(init, i + 1, p);
    }
    if i :| 0 <= i < n && ReportsUp(init[i].section, p) && SilentFrom(init, i + 1, p) {
      SilentAppend(init, last, i + 1, p);
      assert ReportsUp(all[i].section, p);
    }
  }

  lemma SilentAppend(init: seq<Access>, last: Access, i: nat, p: Protocol)
    requires i <= |init|
    ensures SilentFrom(init + [last], i, p) <==>
      SilentFrom(init, i, p) && !ReportsOn(last.section, p) && last.readSucceeds
  {
    var all := init + [last];
    assert all[|init|] == last;
    assert forall k :: i <= k < |init| ==> all[k] == init[k];
  }

  // ---- What is recorded besides ---------------------------------------------------------

  /** Every section records what it looked at and nothing else: a check its own protocol's
      address and time, a sweep both addresses and the times of those that exist, a
      confirmation neither. */
  lemma SectionsRecordWhatTheySaw(s: Status, ephemeral: bool, ep: Endpoint, at: nat, v: Verdict, http: bool, ws: bool,
                                  p: Protocol)
    ensures
      var checked := Apply(s, HTTPCheck(at, v), ephemeral, ep);
      && checked.hasHTTP == ep.hasHTTP && checked.lastHTTPCheck == Some(at)
      && checked.hasWS == s.hasWS && checked.lastWSCheck == s.lastWSCheck
    ensures
      var checked := Apply(s, WSCheck(at, v), ephemeral, ep);
      && checked.hasWS == ep.hasWS && checked.lastWSCheck == Some(at)
      && checked.hasHTTP == s.hasHTTP && checked.lastHTTPCheck == s.lastHTTPCheck
    ensures
      var swept := Apply(s, Sweep(at, http, ws), ephemeral, ep);
      && swept.hasHTTP == ep.hasHTTP && swept.hasWS == ep.hasWS
      && swept.lastHTTPCheck == (if ep.hasHTTP then Some(at) else s.lastHTTPCheck)
      && swept.lastWSCheck == (if ep.hasWS then Some(at) else s.lastWSCheck)
    ensures
      var confirmed := Apply(s, Confirm(p), ephemeral, ep);
      && confirmed.hasHTTP == s.hasHTTP && confirmed.hasWS == s.hasWS
      && confirmed.lastHTTPCheck == s.lastHTTPCheck && confirmed.lastWSCheck == s.lastWSCheck
  {
  }

  /** Only a check whose block call went through sets the block. */
  lemma BlockIsFromTheLastGoodCall(s: Status, section: Section, ephemeral: bool, ep: Endpoint)
    ensures
      Apply(s, section, ephemeral, ep).blockNumber ==
        match section
        case HTTPCheck(_, w) => if w.block.Some? then w.block.value else s.blockNumber
        case WSCheck(_, w) => if w.block.Some? then w.block.value else s.blockNumber
        case _ => s.blockNumber
  {
  }

  // ---- Ephemeral runners ----------------------------------------------------------------

  /** How many probes at the end of the list all passed. */
  function TrailingPasses(probes: seq<bool>): nat {
    if probes != [] && probes[|probes| - 1] then 1 + TrailingPasses(probes[..|probes| - 1]) else 0
  }

  /** Probe i is the last of n that passed in a row. */
  predicate EndsRun(probes: seq<bool>, i: int, n: int) {
    0 <= i < |probes| && i + 1 >= n && forall k :: i + 1 - n <= k <= i ==> probes[k]
  }

  lemma {:induction false} TrailingPassesEndRun(probes: seq<bool>, n: int)
    requires probes != [] && n >= 1
    ensures EndsRun(probes, |probes| - 1, n) <==> TrailingPasses(probes) >= n
  {
    var init := probes[..|probes| - 1];
    if n >= 2 && init != [] {
      TrailingPassesEndRun(init, n - 1);
    }
    if n >= 2 {
      assert EndsRun(probes, |probes| - 1, n) <==>
        probes[|probes| - 1] && init != [] && EndsRun(init, |init| - 1, n - 1);
    }
  }

  /** A runner and its counter; it confirms once the counter has reached the threshold. */
  datatype Runner = Runner(protocol: Protocol, consecutive: nat)

  datatype World = World(status: Status, runners: map<nat, Runner>, history: seq<Event>)

  datatype Event =
    | Periodic(section: Section, readSucceeds: bool)
    | Spawn(runner: nat, protocol: Protocol)
    | RunnerProbe(runner: nat, at: nat, verdict: Verdict, readSucceeds: bool)
    | RunnerConfirm(runner: nat, readSucceeds: bool)
    | Cancel(runner: nat)

  function CheckOf(p: Protocol, at: nat, v: Verdict): Section {
    if p == HTTP then HTTPCheck(at, v) else WSCheck(at, v)
  }

  /** What may happen next: periodic checks never confirm, a runner probes until its counter
      reaches the threshold and then confirms once and is gone. */
  predicate Enabled(w: World, e: Event, threshold: int) {
    match e
    case Periodic(section, _) => !section.Confirm?
    case Spawn(r, _) => r !in w.runners
    case RunnerProbe(r, _, _, _) => r in w.runners && w.runners[r].consecutive < Max(1, threshold)
    case RunnerConfirm(r, _) => r in w.runners && w.runners[r].consecutive >= Max(1, threshold)
    case Cancel(r) => r in w.runners
  }

  function Next(w: World, e: Event, ep: Endpoint): World
    requires e.RunnerProbe? || e.RunnerConfirm? ==> e.runner in w.runners
  {
    var history := w.history + [e];
    match e
    case Periodic(section, readSucceeds) =>
      World(Locked(w.status, section, readSucceeds, true, ep), w.runners, history)
    case Spawn(r, p) => World(w.status, w.runners[r := Runner(p, 0)], history)
    case RunnerProbe(r, at, v, readSucceeds) =>
      var runner := w.runners[r];
      World(Locked(w.status, CheckOf(runner.protocol, at, v), readSucceeds, true, ep),
            w.runners[r := runner.(consecutive := if v.healthy then runner.consecutive + 1 else 0)], history)
    case RunnerConfirm(r, readSucceeds) =>
      World(Locked(w.status, Confirm(w.runners[r].protocol), readSucceeds, true, ep), w.runners - {r}, history)
    case Cancel(r) => World(w.status, w.runners - {r}, history)
  }

  /** One runner's own probes since it was spawned, the others' events left out. */
  function OwnProbes(history: seq<Event>, r: nat): seq<bool> {
    if history == [] then []
    else
      var init, last := OwnProbes(history[..|history| - 1], r), history[|history| - 1];
      if last.Spawn? && last.runner == r then []
      else if last.RunnerProbe? && last.runner == r then init + [last.verdict.healthy]
      else init
  }

  /** Every runner's counter is the length of its own current run of passes. */
  ghost predicate CountersAgree(w: World) {
    forall r :: r in w.runners ==> w.runners[r].consecutive == TrailingPasses(OwnProbes(w.history, r))
  }

  ghost predicate Possible(w: World, events: seq<Event>, threshold: int, ep: Endpoint)
    decreases |events|
  {
    events == [] || (Enabled(w, events[0], threshold) && Possible(Next(w, events[0], ep), events[1..], threshold, ep))
  }

  function After(w: World, events: seq<Event>, threshold: int, ep: Endpoint): World
    requires Possible(w, events, threshold, ep)
    decreases |events|
  {
    if events == [] then w else After(Next(w, events[0], ep), events[1..], threshold, ep)
  }

  lemma StepKeepsCounters(w: World, e: Event, threshold: int, ep: Endpoint)
    requires CountersAgree(w) && Enabled(w, e, threshold)
    ensures CountersAgree(Next(w, e, ep))
  {
    var after := Next(w, e, ep);
    forall r | r in after.runners
      ensures after.runners[r].consecutive == TrailingPasses(OwnProbes(after.history, r))
    {
      OwnProbesGrow(w.history, e, r);
      CounterAfter(w, e, threshold, ep, r);
    }
  }

  lemma CounterAfter(w: World, e: Event, threshold: int, ep: Endpoint, r: nat)
    requires Enabled(w, e, threshold) && r in Next(w, e, ep).runners
    ensures (e.Spawn? && e.runner == r) || r in w.runners
    ensures Next(w, e, ep).runners[r].consecutive ==
      if e.Spawn? && e.runner == r then 0
      else if e.RunnerProbe? && e.runner == r then (if e.verdict.healthy then w.runners[r].consecutive + 1 else 0)
      else w.runners[r].consecutive
  {
  }

  predicate ReadSucceeds(e: Event) {
    match e
    case Periodic(_, readSucceeds) => readSucceeds
    case RunnerProbe(_, _, _, readSucceeds) => readSucceeds
    case RunnerConfirm(_, readSucceeds) => readSucceeds
    case _ => true
  }

  lemma StepKeepsLastCheck(w: World, e: Event, threshold: int, ep: Endpoint, p: Protocol)
    requires Enabled(w, e, threshold) && LastCheck(w.status, p).Some? && ReadSucceeds(e)
    ensures LastCheck(Next(w, e, ep).status, p).Some?
  {
  }

  lemma OwnProbesGrow(history: seq<Event>, e: Event, r: nat)
    ensures
      var before, after := TrailingPasses(OwnProbes(history, r)), TrailingPasses(OwnProbes(history + [e], r));
      after == if e.Spawn? && e.runner == r then 0
               else if e.RunnerProbe? && e.runner == r then (if e.verdict.healthy then before + 1 else 0)
               else before
  {
    assert (history + [e])[..|history|] == history;
    if e.RunnerProbe? && e.runner == r {
      var own := OwnProbes(history, r);
      assert (own + [e.verdict.healthy])[..|own|] == own;
    }
  }

  predicate Confirms(w: World, e: Event, p: Protocol) {
    e.RunnerConfirm? && e.runner in w.runners && w.runners[e.runner].protocol == p
  }

  /** A check whose single passing probe decides. */
  predicate LuckyPass(w: World, e: Event, p: Protocol) {
    match e
    case Periodic(section, readSucceeds) => Lucky(w.status, section, readSucceeds, p)
    case RunnerProbe(r, at, v, readSucceeds) =>
      r in w.runners && Lucky(w.status, CheckOf(w.runners[r].protocol, at, v), readSucceeds, p)
    case _ => false
  }

  lemma StepRaisesIff(w: World, e: Event, threshold: int, ep: Endpoint, p: Protocol)
    requires Enabled(w, e, threshold) && !Healthy(w.status, p)
    ensures Healthy(Next(w, e, ep).status, p) <==> Confirms(w, e, p) || LuckyPass(w, e, p)
  {
    match e
    case Periodic(section, readSucceeds) => OnlyConfirmationsRaise(w.status, section, readSucceeds, ep, p);
    case RunnerProbe(r, at, v, readSucceeds) =>
      OnlyConfirmationsRaise(w.status, CheckOf(w.runners[r].protocol, at, v), readSucceeds, ep, p);
    case RunnerConfirm(r, readSucceeds) =>
      OnlyConfirmationsRaise(w.status, Confirm(w.runners[r].protocol), readSucceeds, ep, p);
    case _ =>
  }

  /** In every run of every interleaving, failed reads included, a step makes an unhealthy
      protocol healthy if and only if it is a runner's confirmation or a lucky pass; a
      confirmation comes when that runner's own last `threshold` probes had all passed, and
      without failed reads a checked protocol gets no lucky pass. */
  lemma {:induction false} RecoveryIsEarned(w: World, events: seq<Event>, e: Event, threshold: int, ep: Endpoint,
                                            p: Protocol)
    requires CountersAgree(w)
    requires Possible(w, events, threshold, ep)
    requires Enabled(After(w, events, threshold, ep), e, threshold)
    requires !Healthy(After(w, events, threshold, ep).status, p)
    ensures
      var now := After(w, events, threshold, ep);
      && (Healthy(Next(now, e, ep).status, p) <==> Confirms(now, e, p) || LuckyPass(now, e, p))
      && (Confirms(now, e, p) ==>
          var probes := OwnProbes(now.history, e.runner);
          probes != [] && EndsRun(probes, |probes| - 1, Max(1, threshold)))
      && (LastCheck(w.status, p).Some? && ReadSucceeds(e) && (forall k :: 0 <= k < |events| ==> ReadSucceeds(events[k]))
          ==> !LuckyPass(now, e, p))
    decreases |events|
  {
    if events == [] {
      StepRaisesIff(w, e, threshold, ep, p);
      if e.RunnerConfirm? {
        TrailingPassesEndRun(OwnProbes(w.history, e.runner), Max(1, threshold));
      }
    } else {
      StepKeepsCounters(w, events[0], threshold, ep);
      if LastCheck(w.status, p).Some? && ReadSucceeds(events[0]) {
        StepKeepsLastCheck(w, events[0], threshold, ep, p);
      }
      RecoveryIsEarned(Next(w, events[0], ep), events[1..], e, threshold, ep, p);
    }
  }

  // ---- The checker ----------------------------------------------------------------------

  /** The checker of one endpoint and the status it keeps. */
  class EndpointChecker {
    const ephemeralChecksEnabled: bool
    const endpoint: Endpoint
    var status: Status

    constructor (ephemeralChecksEnabled: bool, endpoint: Endpoint)
      ensures status == NEW_STATUS
      ensures this.ephemeralChecksEnabled == ephemeralChecksEnabled && this.endpoint == endpoint
    {
      this.ephemeralChecksEnabled, this.endpoint, this.status := ephemeralChecksEnabled, endpoint, NEW_STATUS;
    }

    /** Without an HTTP address there is nothing to probe or write. */
    method CheckHTTPHealth(at: nat, verdict: Verdict, readSucceeds: bool) returns (healthy: bool)
      modifies this`status
      ensures healthy == (endpoint.hasHTTP && verdict.healthy)
      ensures status == if endpoint.hasHTTP
                        then Locked(old(status), HTTPCheck(at, verdict), readSucceeds, ephemeralChecksEnabled, endpoint)
                        else old(status)
    {
      if !endpoint.hasHTTP {
        return false;
      }
      var next := if readSucceeds then status else NEW_STATUS;
      var hasPriorCheck := next.lastHTTPCheck.Some?;
      if verdict.block.Some? {
        next := next.(blockNumber := verdict.block.value);
      }
      next := next.(hasHTTP := endpoint.hasHTTP);
      next := next.(healthyHTTP := ResolveHealthTransition(ephemeralChecksEnabled, hasPriorCheck, next.healthyHTTP,
                                                           verdict.healthy));
      next := next.(lastHTTPCheck := Some(at));
      status := next;
      return verdict.healthy;
    }

    method CheckWSHealth(at: nat, verdict: Verdict, readSucceeds: bool) returns (healthy: bool)
      modifies this`status
      ensures healthy == (endpoint.hasWS && verdict.healthy)
      ensures status == if endpoint.hasWS
                        then Locked(old(status), WSCheck(at, verdict), readSucceeds, ephemeralChecksEnabled, endpoint)
                        else old(status)
    {
      if !endpoint.hasWS {
        return false;
      }
      var next := if readSucceeds then status else NEW_STATUS;
      var hasPriorCheck := next.lastWSCheck.Some?;
      if verdict.block.Some? {
        next := next.(blockNumber := verdict.block.value);
      }
      next := next.(hasWS := endpoint.hasWS);
      next := next.(healthyWS := ResolveHealthTransition(ephemeralChecksEnabled, hasPriorCheck, next.healthyWS,
                                                         verdict.healthy));
      next := next.(lastWSCheck := Some(at));
      status := next;
      return verdict.healthy;
    }

    /** The sweep's own write, after both probes: the prior state is read here, under the lock. */
    method PersistSweep(at: nat, http: bool, ws: bool, readSucceeds: bool)
      modifies this`status
      ensures status == Locked(old(status), Sweep(at, http, ws), readSucceeds, ephemeralChecksEnabled, endpoint)
    {
      var next := if readSucceeds then status else NEW_STATUS;
      var wasHealthyHTTP, wasHealthyWS := next.healthyHTTP, next.healthyWS;
      var hasPriorCheckHTTP, hasPriorCheckWS := next.lastHTTPCheck.Some?, next.lastWSCheck.Some?;
      next := next.(hasHTTP := endpoint.hasHTTP, hasWS := endpoint.hasWS);
      if next.hasHTTP {
        next := next.(lastHTTPCheck := Some(at));
      }
      if next.hasWS {
        next := next.(lastWSCheck := Some(at));
      }
      next := next.(healthyHTTP := ResolveHealthTransition(ephemeralChecksEnabled, hasPriorCheckHTTP, wasHealthyHTTP,
                                                           http));
      next := next.(healthyWS := ResolveHealthTransition(ephemeralChecksEnabled, hasPriorCheckWS, wasHealthyWS, ws));
      status := next;
    }

    method ConfirmRecovery(p: Protocol, readSucceeds: bool)
      modifies this`status
      ensures status == Locked(old(status), Confirm(p), readSucceeds, ephemeralChecksEnabled, endpoint)
    {
      var next := if readSucceeds then status else NEW_STATUS;
      match p
      case HTTP => status := next.(healthyHTTP := true);
      case WS => status := next.(healthyWS := true);
    }

    /** A runner checks its own protocol only; its i-th check goes after the ones before. */
    method RunnerCheck(probes: seq<Probe>, i: nat, p: Protocol, ghost start: Status) returns (healthy: bool)
      requires if p == HTTP then endpoint.hasHTTP else endpoint.hasWS
      requires i < |probes| && status == History(start, Checks(probes[..i], p), ephemeralChecksEnabled, endpoint)
      modifies this`status
      ensures healthy == probes[i].verdict.healthy
      ensures status == History(start, Checks(probes[..i + 1], p), ephemeralChecksEnabled, endpoint)
    {
      CheckGoesLast(start, probes, i, p, ephemeralChecksEnabled, endpoint);
      match p
      case HTTP => healthy := CheckHTTPHealth(i, probes[i].verdict, probes[i].readSucceeds);
      case WS => healthy := CheckWSHealth(i, probes[i].verdict, probes[i].readSucceeds);
    }

    /** The confirmation goes after the runner's last check. */
    method FinishRun(probes: seq<Probe>, i: nat, p: Protocol, confirmReads: bool, ghost start: Status)
      requires i < |probes| && status == History(start, Checks(probes[..i + 1], p), ephemeralChecksEnabled, endpoint)
      modifies this`status
      ensures status == History(start, RunnerAccesses(probes, Some(i), p, confirmReads), ephemeralChecksEnabled,
                                endpoint)
    {
      var checks := Checks(probes[..i + 1], p);
      HistoryAppend(start, checks, Access(Confirm(p), confirmReads), ephemeralChecksEnabled, endpoint);
      ConfirmRecovery(p, confirmReads);
    }

    /** A runner over the probes it makes: it confirms at exactly the first probe that ends
        `threshold` passes in a row (one, if the threshold is lower), and otherwise leaves
        when it is cancelled. It writes nothing but its own checks and that confirmation. */
    method RunEphemeralCheckProtocol(probes: seq<Probe>, threshold: int, p: Protocol, confirmReads: bool)
        returns (confirmedAt: Option<nat>)
      requires if p == HTTP then endpoint.hasHTTP else endpoint.hasWS
      modifies this`status
      ensures FirstRunEndsAt(Passes(probes), confirmedAt, Max(1, threshold))
      ensures status == History(old(status), RunnerAccesses(probes, confirmedAt, p, confirmReads),
                                ephemeralChecksEnabled, endpoint)
    {
      ghost var passes := Passes(probes);
      var consecutive := 0;
      var i := 0;
      while i < |probes|
        invariant 0 <= i <= |probes|
        invariant consecutive == TrailingPasses(passes[..i]) < Max(1, threshold)
        invariant forall k :: k < i ==> !EndsRun(passes, k, Max(1, threshold))
        invariant status == History(old(status), Checks(probes[..i], p), ephemeralChecksEnabled, endpoint)
      {
        CounterStep(passes, i, Max(1, threshold));
        var healthy := RunnerCheck(probes, i, p, old(status));
        if healthy {
          consecutive := consecutive + 1;
          if consecutive >= threshold {
            FinishRun(probes, i, p, confirmReads, old(status));
            return Some(i);
          }
        } else {
          consecutive := 0;
        }
        i := i + 1;
      }
      assert probes[..i] == probes;
      return None;
    }
  }

  /** One probe of a runner and whether its locked section's read succeeds. */
  datatype Probe = Probe(verdict: Verdict, readSucceeds: bool)

  /** The first probe that ends a run of n passes, if any does. */
  ghost predicate FirstRunEndsAt(passes: seq<bool>, at: Option<nat>, n: int) {
    match at
    case None => forall i :: !EndsRun(passes, i, n)
    case Some(k) => EndsRun(passes, k, n) && forall i :: i < k ==> !EndsRun(passes, i, n)
  }

  /** Everything a runner writes: its checks up to its confirmation, and that. */
  function RunnerAccesses(probes: seq<Probe>, confirmedAt: Option<nat>, p: Protocol, confirmReads: bool): seq<Access> {
    match confirmedAt
    case None => Checks(probes, p)
    case Some(n) => Checks(probes[..Min(n + 1, |probes|)], p) + [Access(Confirm(p), confirmReads)]
  }

  /** The locked sections of a runner's checks, the i-th made at instant i. */
  function Checks(probes: seq<Probe>, p: Protocol): seq<Access> {
    if probes == [] then []
    else
      var n := |probes| - 1;
      Checks(probes[..n], p) + [CheckAccess(probes, n, p)]
  }

  function CheckAccess(probes: seq<Probe>, n: nat, p: Protocol): Access
    requires n < |probes|
  {
    Access(CheckOf(p, n, probes[n].verdict), probes[n].readSucceeds)
  }

  lemma HistoryAppend(s: Status, accesses: seq<Access>, last: Access, ephemeral: bool, ep: Endpoint)
    ensures History(s, accesses + [last], ephemeral, ep)
         == Locked(History(s, accesses, ephemeral, ep), last.section, last.readSucceeds, ephemeral, ep)
  {
    assert (accesses + [last])[..|accesses|] == accesses;
  }

  lemma CheckGoesLast(s: Status, probes: seq<Probe>, i: nat, p: Protocol, ephemeral: bool, ep: Endpoint)
    requires i < |probes|
    ensures
      var before := History(s, Checks(probes[..i], p), ephemeral, ep);
      History(s, Checks(probes[..i + 1], p), ephemeral, ep)
        == Locked(before, CheckOf(p, i, probes[i].verdict), probes[i].readSucceeds, ephemeral, ep)
  {
    assert probes[..i + 1][..i] == probes[..i];
    HistoryAppend(s, Checks(probes[..i], p), CheckAccess(probes, i, p), ephemeral, ep);
  }

  function Passes(probes: seq<Probe>): (passes: seq<bool>)
    ensures |passes| == |probes| && forall i :: 0 <= i < |passes| ==> passes[i] == probes[i].verdict.healthy
  {
    if probes == [] then []
    else Passes(probes[..|probes| - 1]) + [probes[|probes| - 1].verdict.healthy]
  }

  /** What a runner writes leaves its protocol healthy if it confirms, and the other protocol as
      it was unless a read fails. */
  lemma RunnerKeepsToItsProtocol(s: Status, probes: seq<Probe>, confirmedAt: Option<nat>, p: Protocol,
                                 confirmReads: bool, ephemeral: bool, ep: Endpoint)
    ensures
      var after := History(s, RunnerAccesses(probes, confirmedAt, p, confirmReads), ephemeral, ep);
      && (confirmedAt.Some? ==> Healthy(after, p))
      && (confirmReads && (forall k :: 0 <= k < |probes| ==> probes[k].readSucceeds) ==>
          if p == HTTP then SameWS(after, s) else SameHTTP(after, s))
  {
    match confirmedAt
    case None => ChecksKeepToTheirProtocol(s, probes, p, ephemeral, ep);
    case Some(n) =>
      var made := probes[..Min(n + 1, |probes|)];
      ChecksKeepToTheirProtocol(s, made, p, ephemeral, ep);
      HistoryAppend(s, Checks(made, p), Access(Confirm(p), confirmReads), ephemeral, ep);
  }

  lemma {:induction false} ChecksKeepToTheirProtocol(s: Status, probes: seq<Probe>, p: Protocol, ephemeral: bool,
                                                     ep: Endpoint)
    ensures (forall k :: 0 <= k < |probes| ==> probes[k].readSucceeds) ==>
      var after := History(s, Checks(probes, p), ephemeral, ep);
      if p == HTTP then SameWS(after, s) else SameHTTP(after, s)
  {
    if probes != [] {
      var n := |probes| - 1;
      ChecksKeepToTheirProtocol(s, probes[..n], p, ephemeral, ep);
      CheckGoesLast(s, probes, n, p, ephemeral, ep);
      assert probes[..n + 1] == probes;
    }
  }

  /** The counter after probe i, and what it says about the probes so far. */
  lemma CounterStep(probes: seq<bool>, i: nat, n: int)
    requires i < |probes| && n >= 1
    ensures TrailingPasses(probes[..i + 1]) == if probes[i] then TrailingPasses(probes[..i]) + 1 else 0
    ensures EndsRun(probes, i, n) <==> TrailingPasses(probes[..i + 1]) >= n
  {
    assert probes[..i + 1][..i] == probes[..i];
    TrailingPassesEndRun(probes[..i + 1], n);
    PrefixEndsRun(probes, i, n);
  }

  lemma PrefixEndsRun(probes: seq<bool>, i: nat, n: int)
    requires i < |probes|
    ensures EndsRun(probes[..i + 1], i, n) <==> EndsRun(probes, i, n)
  {
    assert forall k :: 0 <= k <= i ==> probes[..i + 1][k] == probes[k];
  }
}
