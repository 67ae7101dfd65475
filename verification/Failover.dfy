/** The retry loop of one HTTP request (internal/server/server.go). The environment supplies,
    per turn of the loop, whether the deadline has passed, what the selection reads, and how
    each endpoint would answer. */
module Failover {
  import opened Prelude
  import opened Selection

  /** How the forwarder ends: it returned nil and wrote the response; a 400 it kept back; any
      other error, possibly after part of a response had already been written. */
  datatype Reply = Success | BadRequest | Failure(wrotePart: bool)

  datatype Turn = Turn(expired: bool, view: View, replies: map<string, Reply>)

  /** One entry per turn of the loop; past its end the deadline has expired. A loop over n
      endpoints takes at most n turns. */
  type Environment = seq<Turn>

  function TurnAt(env: Environment, t: nat): Turn {
    if t < |env| then env[t] else Turn(true, View(map[], map[]), map[])
  }

  function ReplyOf(replies: map<string, Reply>, id: string): Reply {
    if id in replies then replies[id] else Failure(false)
  }

  datatype Limits = Limits(publicFirst: bool, publicFirstAttempts: int, maxRetries: int)

  datatype Response =
    | Unavailable
    | TimedOut
    | Served(id: string)
    | PassedThrough(id: string)
    | MaxRetriesReached
    | AllFailed

  datatype Attempt = Attempt(endpoint: Candidate, reply: Reply)

  /** What one request did: its response, its dispatches in order, and the endpoint whose
      cached 400 the loop charged as a failure. */
  datatype Outcome = Outcome(response: Response, trace: seq<Attempt>, charged: Option<string>)

  /** The loop's variables. */
  datatype State = State(
    turn: nat, available: seq<Candidate>, retries: nat, publics: nat, first400: Option<string>)

  function Remove(list: seq<Candidate>, id: string): seq<Candidate> {
    if list == [] then []
    else
      var last := list[|list| - 1];
      Remove(list[..|list| - 1], id) + if last.id != id then [last] else []
  }

  /** What a turn does: end the loop, drop a public endpoint over the limit, or dispatch. */
  datatype Move = End(response: Response) | Skip(c: Candidate) | Try(c: Candidate)

  function NextMove(limits: Limits, env: Environment, s: State): (m: Move)
    ensures !m.End? ==> m.c in s.available
    ensures m.End? ==> m.response.TimedOut? || m.response.MaxRetriesReached? || m.response.AllFailed?
  {
    if s.retries >= limits.maxRetries then End(MaxRetriesReached)
    else if s.available == [] then End(AllFailed)
    else if TurnAt(env, s.turn).expired then End(TimedOut)
    else
      var best := SelectBest(s.available, limits.publicFirst, TurnAt(env, s.turn).view);
      if best.None? then End(AllFailed)
      else
        var c := s.available[best.value];
        if limits.publicFirst && c.role == Public && s.publics >= limits.publicFirstAttempts then Skip(c) else Try(c)
  }

  function AfterSkip(s: State, c: Candidate): State {
    s.(turn := s.turn + 1, available := Remove(s.available, c.id))
  }

  function AfterFailure(s: State, c: Candidate, reply: Reply): State {
    State(s.turn + 1, Remove(s.available, c.id), s.retries + 1,
          s.publics + if c.role == Public then 1 else 0,
          if reply.BadRequest? then Some(c.id) else s.first400)
  }

  /** A success, or a second 400, answers the client and ends the loop. */
  predicate Answers(s: State, reply: Reply) {
    reply.Success? || (reply.BadRequest? && s.first400.Some?)
  }

  function Answer(s: State, c: Candidate, reply: Reply): Outcome {
    if reply.Success? then Outcome(Served(c.id), [Attempt(c, reply)], s.first400)
    else Outcome(PassedThrough(c.id), [Attempt(c, reply)], None)
  }

  /** The loop from a given state on. */
  function Serve(limits: Limits, env: Environment, s: State): Outcome
    decreases |s.available|
  {
    match NextMove(limits, env, s)
    case End(response) => Outcome(response, [], None)
    case Skip(c) =>
      RemoveShrinks(s.available, c);
      Serve(limits, env, AfterSkip(s, c))
    case Try(c) =>
      RemoveShrinks(s.available, c);
      var reply := ReplyOf(TurnAt(env, s.turn).replies, c.id);
      if Answers(s, reply) then Answer(s, c, reply)
      else
        var rest := Serve(limits, env, AfterFailure(s, c, reply));
        rest.(trace := [Attempt(c, reply)] + rest.trace)
  }

  /** The specification, one turn at a time. */
  lemma ServeUnfolds(limits: Limits, env: Environment, s: State)
    ensures
      var m, o := NextMove(limits, env, s), Serve(limits, env, s);
      && (m.End? ==> o == Outcome(m.response, [], None))
      && (m.Skip? ==> o == Serve(limits, env, AfterSkip(s, m.c)) && |Remove(s.available, m.c.id)| < |s.available|)
      && (m.Try? ==>
          var reply := ReplyOf(TurnAt(env, s.turn).replies, m.c.id);
          && |Remove(s.available, m.c.id)| < |s.available|
          && if Answers(s, reply) then o == Answer(s, m.c, reply)
             else
               var rest := Serve(limits, env, AfterFailure(s, m.c, reply));
               o == rest.(trace := [Attempt(m.c, reply)] + rest.trace))
  {
    var m := NextMove(limits, env, s);
    if !m.End? {
      RemoveShrinks(s.available, m.c);
    }
  }

  function Start(list: seq<Candidate>): State {
    State(0, list, 0, 0, None)
  }

  /** One request over its list of available endpoints. */
  function Handle(limits: Limits, env: Environment, list: seq<Candidate>): Outcome {
    if list == [] then Outcome(Unavailable, [], None) else Serve(limits, env, Start(list))
  }

  // ---- The working list -----------------------------------------------------------------

  lemma {:induction false} RemoveKeeps(list: seq<Candidate>, id: string)
    ensures forall c :: c in Remove(list, id) <==> c in list && c.id != id
    ensures |Remove(list, id)| <= |list|
  {
    if list != [] {
      RemoveKeeps(list[..|list| - 1], id);
      assert list == list[..|list| - 1] + [list[|list| - 1]];
    }
  }

  /** Every turn that goes on strictly shrinks the list. */
  lemma {:induction false} RemoveShrinks(list: seq<Candidate>, c: Candidate)
    requires c in list
    ensures |Remove(list, c.id)| < |list|
  {
    var init, last := list[..|list| - 1], list[|list| - 1];
    assert list == init + [last];
    RemoveKeeps(init, c.id);
    if last.id != c.id {
      RemoveShrinks(init, c);
    }
  }

  method RemoveEndpointByID(list: seq<Candidate>, id: string) returns (remaining: seq<Candidate>)
    ensures remaining == Remove(list, id)
  {
    remaining := [];
    var i := 0;
    while i < |list|
      invariant 0 <= i <= |list|
      invariant remaining == Remove(list[..i], id)
    {
      assert list[..i + 1][..i] == list[..i];
      if list[i].id != id {
        remaining := remaining + [list[i]];
      }
      i := i + 1;
    }
    assert list[..i] == list;
  }

  // ---- Properties of every run ----------------------------------------------------------

  function Count<T>(items: seq<T>, p: T -> bool): nat {
    if items == [] then 0 else (if p(items[0]) then 1 else 0) + Count(items[1..], p)
  }

  lemma {:induction false} CountPositive<T>(items: seq<T>, p: T -> bool)
    ensures Count(items, p) > 0 <==> exists i :: 0 <= i < |items| && p(items[i])
  {
    if items != [] {
      CountPositive(items[1..], p);
      if p(items[0]) {
      } else if i :| 0 <= i < |items| && p(items[i]) {
        assert items[1..][i - 1] == items[i];
      }
    }
  }

  predicate IsBadRequest(a: Attempt) {
    a.reply.BadRequest?
  }

  predicate IsPublic(a: Attempt) {
    a.endpoint.role == Public
  }

  predicate IsPartialWrite(a: Attempt) {
    a.reply.Failure? && a.reply.wrotePart
  }

  /** No endpoint is dispatched to twice, all of them come from the list, and there are at
      most min(maxRetries, available) dispatches. */
  lemma {:induction false} DispatchesAreDistinct(limits: Limits, env: Environment, s: State)
    ensures
      var trace := Serve(limits, env, s).trace;
      && (forall i :: 0 <= i < |trace| ==> trace[i].endpoint in s.available)
      && (forall i, j :: 0 <= i < j < |trace| ==> trace[i].endpoint.id != trace[j].endpoint.id)
      && |trace| <= |s.available|
      && |trace| <= Max(0, limits.maxRetries - s.retries)
    decreases |s.available|
  {
    var m := NextMove(limits, env, s);
    ServeUnfolds(limits, env, s);
    if !m.End? {
      RemoveKeeps(s.available, m.c.id);
      if m.Skip? {
        DispatchesAreDistinct(limits, env, AfterSkip(s, m.c));
      } else {
        var reply := ReplyOf(TurnAt(env, s.turn).replies, m.c.id);
        var next := AfterFailure(s, m.c, reply);
        DispatchesAreDistinct(limits, env, next);
        PrependStaysDistinct(Attempt(m.c, reply), Serve(limits, env, next).trace, s.available);
      }
    }
  }

  lemma PrependStaysDistinct(a: Attempt, rest: seq<Attempt>, list: seq<Candidate>)
    requires a.endpoint in list
    requires forall i :: 0 <= i < |rest| ==> rest[i].endpoint in list && rest[i].endpoint.id != a.endpoint.id
    requires forall i, j :: 0 <= i < j < |rest| ==> rest[i].endpoint.id != rest[j].endpoint.id
    ensures
      var trace := [a] + rest;
      && (forall i :: 0 <= i < |trace| ==> trace[i].endpoint in list)
      && (forall i, j :: 0 <= i < j < |trace| ==> trace[i].endpoint.id != trace[j].endpoint.id)
  {
  }

  /** The answers that end a request. */
  predicate Succeeds(trace: seq<Attempt>) {
    trace != [] && trace[|trace| - 1].reply.Success?
  }

  function CachedBefore(s: State): nat {
    if s.first400.Some? then 1 else 0
  }

  function FirstBadRequest(trace: seq<Attempt>): Option<string> {
    if trace == [] then None
    else if trace[0].reply.BadRequest? then Some(trace[0].endpoint.id)
    else FirstBadRequest(trace[1..])
  }

  /** The dispatches decide the response: a success is only ever the last one and is served; a
      400 reaches the client exactly when it is the second; the first 400 is charged exactly
      when a later dispatch succeeded. */
  ghost predicate Decides(limits: Limits, s: State, o: Outcome) {
    var bad := CachedBefore(s) + Count(o.trace, IsBadRequest);
    && (forall i :: 0 <= i < |o.trace| - 1 ==> !o.trace[i].reply.Success?)
    && (o.response.Served? <==> Succeeds(o.trace))
    && (o.response.Served? ==> o.response.id == o.trace[|o.trace| - 1].endpoint.id)
    && bad <= 2
    && (o.response.PassedThrough? <==> bad == 2)
    && (o.response.PassedThrough? ==> o.trace != [] && o.response.id == o.trace[|o.trace| - 1].endpoint.id)
    && (o.charged.Some? <==> o.response.Served? && bad == 1)
    && (o.charged.Some? ==> o.charged == if s.first400.Some? then s.first400 else FirstBadRequest(o.trace))
    && (o.response.MaxRetriesReached? ==> s.retries + |o.trace| >= limits.maxRetries)
    && (o.response.AllFailed? || o.response.TimedOut? ==> s.retries + |o.trace| < limits.maxRetries)
    && !o.response.Unavailable?
  }

  /** It is so in every run of the loop. */
  lemma {:induction false} TraceDecidesResponse(limits: Limits, env: Environment, s: State)
    ensures Decides(limits, s, Serve(limits, env, s))
    decreases |s.available|
  {
    ServeUnfolds(limits, env, s);
    match NextMove(limits, env, s)
    case End(_) =>
    case Skip(c) =>
      TraceDecidesResponse(limits, env, AfterSkip(s, c));
    case Try(c) =>
      var reply := ReplyOf(TurnAt(env, s.turn).replies, c.id);
      if Answers(s, reply) {
        AnswerDecides(limits, s, c, reply);
      } else {
        TraceDecidesResponse(limits, env, AfterFailure(s, c, reply));
        FailureDecides(limits, s, c, reply, Serve(limits, env, AfterFailure(s, c, reply)));
      }
  }

  lemma AnswerDecides(limits: Limits, s: State, c: Candidate, reply: Reply)
    requires Answers(s, reply)
    ensures Decides(limits, s, Answer(s, c, reply))
  {
    assert Answer(s, c, reply).trace[1..] == [];
  }

  lemma FailureDecides(limits: Limits, s: State, c: Candidate, reply: Reply, rest: Outcome)
    requires !Answers(s, reply) && Decides(limits, AfterFailure(s, c, reply), rest)
    ensures Decides(limits, s, rest.(trace := [Attempt(c, reply)] + rest.trace))
  {
    assert ([Attempt(c, reply)] + rest.trace)[1..] == rest.trace;
  }

  lemma {:induction false} CountsTwo(trace: seq<Attempt>)
    ensures Count(trace, IsBadRequest) >= 2 <==>
      exists i, j :: 0 <= i < j < |trace| && IsBadRequest(trace[i]) && IsBadRequest(trace[j])
  {
    if trace != [] {
      var rest := trace[1..];
      CountsTwo(rest);
      CountPositive(rest, IsBadRequest);
      if i, j :| 0 <= i < j < |rest| && IsBadRequest(rest[i]) && IsBadRequest(rest[j]) {
        assert IsBadRequest(trace[i + 1]) && IsBadRequest(trace[j + 1]);
      }
      if i, j :| 0 <= i < j < |trace| && IsBadRequest(trace[i]) && IsBadRequest(trace[j]) {
        assert IsBadRequest(rest[j - 1]);
        if i > 0 {
          assert IsBadRequest(rest[i - 1]);
        }
      }
      if j :| 0 <= j < |rest| && IsBadRequest(rest[j]) {
        assert IsBadRequest(trace[j + 1]);
      }
    }
  }

  ghost predicate RefusedTwice(trace: seq<Attempt>) {
    exists i, j ::
      && 0 <= i < j < |trace| && IsBadRequest(trace[i]) && IsBadRequest(trace[j])
      && trace[i].endpoint.id != trace[j].endpoint.id
  }

  /** For a whole request: a 400 reaches the client exactly when two distinct endpoints
      returned one, and the loop charges the first of them exactly when the request is served
      after it. */
  lemma BadRequestHandling(limits: Limits, env: Environment, list: seq<Candidate>)
    ensures
      var o := Handle(limits, env, list);
      && (o.response.PassedThrough? <==> RefusedTwice(o.trace))
      && (o.charged.Some? <==> o.response.Served? && exists i :: 0 <= i < |o.trace| && IsBadRequest(o.trace[i]))
      && (o.charged.Some? ==> o.charged == FirstBadRequest(o.trace))
  {
    if list != [] {
      var o := Handle(limits, env, list);
      TraceDecidesResponse(limits, env, Start(list));
      DispatchesAreDistinct(limits, env, Start(list));
      CountsTwo(o.trace);
      CountPositive(o.trace, IsBadRequest);
    }
  }

  /** In public-first mode the public dispatches never exceed PublicFirstAttempts. */
  lemma {:induction false} PublicDispatchesAreLimited(limits: Limits, env: Environment, s: State)
    requires limits.publicFirst
    ensures s.publics + Count(Serve(limits, env, s).trace, IsPublic) <= Max(s.publics, limits.publicFirstAttempts)
    decreases |s.available|
  {
    match NextMove(limits, env, s)
    case End(_) =>
    case Skip(c) =>
      RemoveShrinks(s.available, c);
      PublicDispatchesAreLimited(limits, env, AfterSkip(s, c));
    case Try(c) =>
      RemoveShrinks(s.available, c);
      var reply := ReplyOf(TurnAt(env, s.turn).replies, c.id);
      PublicDispatchesAreLimited(limits, env, AfterFailure(s, c, reply));
      if Answers(s, reply) {
        assert Serve(limits, env, s).trace == [Attempt(c, reply)];
      }
  }

  /** Count reads succeed throughout and only the three listed roles occur. */
  ghost predicate CountsReadable(env: Environment, list: seq<Candidate>) {
    Listed(list) && forall t :: 0 <= t < |env| ==> Readable(list, env[t].view)
  }

  lemma RemoveStaysReadable(env: Environment, list: seq<Candidate>, id: string)
    requires CountsReadable(env, list)
    ensures CountsReadable(env, Remove(list, id))
  {
    RemoveKeeps(list, id);
    var rest := Remove(list, id);
    forall i | 0 <= i < |rest| ensures rest[i] in list {
      assert rest[i] in rest;
    }
    forall t, i | 0 <= t < |env| && 0 <= i < |rest| ensures rest[i].id in env[t].view.counts {
      assert rest[i] in list;
      assert Readable(list, env[t].view);
    }
  }

  /** With readable counts the loop only ends on its limits, and otherwise picks a best role. */
  lemma MoveFollowsPriority(limits: Limits, env: Environment, s: State)
    requires CountsReadable(env, s.available)
    ensures
      var m := NextMove(limits, env, s);
      && (m.End? <==> s.retries >= limits.maxRetries || s.available == [] || TurnAt(env, s.turn).expired)
      && (!m.End? ==> forall c :: c in s.available ==>
          Rank(limits.publicFirst, m.c.role) <= Rank(limits.publicFirst, c.role))
  {
    if s.turn < |env| {
      assert Readable(s.available, env[s.turn].view);
      SelectionFollowsPriority(s.available, limits.publicFirst, env[s.turn].view);
    }
  }

  predicate RanksAscend(publicFirst: bool, trace: seq<Attempt>) {
    forall i, j :: 0 <= i < j < |trace| ==>
      Rank(publicFirst, trace[i].endpoint.role) <= Rank(publicFirst, trace[j].endpoint.role)
  }

  lemma PrependKeepsOrder(publicFirst: bool, a: Attempt, rest: seq<Attempt>)
    requires RanksAscend(publicFirst, rest)
    requires forall i :: 0 <= i < |rest| ==>
      Rank(publicFirst, a.endpoint.role) <= Rank(publicFirst, rest[i].endpoint.role)
    ensures RanksAscend(publicFirst, [a] + rest)
  {
  }

  /** While the counts can be read, dispatched roles never go back up the priority order. */
  lemma {:induction false} RolesNeverGoBackUp(limits: Limits, env: Environment, s: State)
    requires CountsReadable(env, s.available)
    ensures RanksAscend(limits.publicFirst, Serve(limits, env, s).trace)
    decreases |s.available|
  {
    var m := NextMove(limits, env, s);
    if !m.End? {
      RemoveShrinks(s.available, m.c);
      RemoveKeeps(s.available, m.c.id);
      RemoveStaysReadable(env, s.available, m.c.id);
      if m.Skip? {
        RolesNeverGoBackUp(limits, env, AfterSkip(s, m.c));
      } else {
        var next := AfterFailure(s, m.c, ReplyOf(TurnAt(env, s.turn).replies, m.c.id));
        RolesNeverGoBackUp(limits, env, next);
        DispatchesAreDistinct(limits, env, next);
        MoveFollowsPriority(limits, env, s);
        PrependKeepsOrder(limits.publicFirst, Attempt(m.c, ReplyOf(TurnAt(env, s.turn).replies, m.c.id)),
                          Serve(limits, env, next).trace);
      }
    }
  }

  // ---- How a request ends ---------------------------------------------------------------

  ghost predicate Dispatched(trace: seq<Attempt>, c: Candidate) {
    exists i :: 0 <= i < |trace| && trace[i].endpoint == c
  }

  /** Dispatched to, or cut off by the public limit in the end. */
  ghost predicate Exhausted(limits: Limits, s: State, trace: seq<Attempt>, c: Candidate) {
    || Dispatched(trace, c)
    || (limits.publicFirst && c.role == Public && s.publics + Count(trace, IsPublic) >= limits.publicFirstAttempts)
  }

  /** A time-out has a passed deadline behind it and an endpoint still to try; with readable
      counts "all failed" leaves no endpoint to try. */
  ghost predicate EndsFor(limits: Limits, env: Environment, s: State, o: Outcome) {
    && (o.response.TimedOut? ==>
        && (exists t :: s.turn <= t < s.turn + |s.available| && TurnAt(env, t).expired)
        && (exists c :: c in s.available && !Dispatched(o.trace, c)))
    && (o.response.AllFailed? && CountsReadable(env, s.available) && DistinctIds(s.available) ==>
        forall c :: c in s.available ==> Exhausted(limits, s, o.trace, c))
  }

  lemma {:induction false} EndingHasItsReason(limits: Limits, env: Environment, s: State)
    ensures EndsFor(limits, env, s, Serve(limits, env, s))
    decreases |s.available|
  {
    ServeUnfolds(limits, env, s);
    var m := NextMove(limits, env, s);
    if m.End? {
      EndIsForItsReason(limits, env, s);
    } else if m.Skip? {
      EndingHasItsReason(limits, env, AfterSkip(s, m.c));
      EndsAfterSkip(limits, env, s, m.c, Serve(limits, env, AfterSkip(s, m.c)));
    } else {
      var reply := ReplyOf(TurnAt(env, s.turn).replies, m.c.id);
      if !Answers(s, reply) {
        EndingHasItsReason(limits, env, AfterFailure(s, m.c, reply));
        EndsAfterFailure(limits, env, s, m.c, reply, Serve(limits, env, AfterFailure(s, m.c, reply)));
      }
    }
  }

  lemma EndIsForItsReason(limits: Limits, env: Environment, s: State)
    requires NextMove(limits, env, s).End?
    ensures EndsFor(limits, env, s, Outcome(NextMove(limits, env, s).response, [], None))
  {
    if CountsReadable(env, s.available) {
      MoveFollowsPriority(limits, env, s);
    }
    if NextMove(limits, env, s).response.TimedOut? {
      assert TurnAt(env, s.turn).expired && s.available[0] in s.available;
      assert !Dispatched([], s.available[0]);
    }
  }

  lemma EndsAfterSkip(limits: Limits, env: Environment, s: State, skipped: Candidate, o: Outcome)
    requires skipped in s.available
    requires limits.publicFirst && skipped.role == Public && s.publics >= limits.publicFirstAttempts
    requires EndsFor(limits, env, AfterSkip(s, skipped), o)
    ensures EndsFor(limits, env, s, o)
  {
    RemoveShrinks(s.available, skipped);
    RemoveKeeps(s.available, skipped.id);
    if CountsReadable(env, s.available) && DistinctIds(s.available) {
      RemoveStaysReadable(env, s.available, skipped.id);
      RemoveStaysDistinct(s.available, skipped.id);
      RemoveOne(s.available, skipped);
    }
  }

  lemma EndsAfterFailure(limits: Limits, env: Environment, s: State, failed: Candidate, reply: Reply, rest: Outcome)
    requires failed in s.available && EndsFor(limits, env, AfterFailure(s, failed, reply), rest)
    ensures EndsFor(limits, env, s, rest.(trace := [Attempt(failed, reply)] + rest.trace))
  {
    var trace := [Attempt(failed, reply)] + rest.trace;
    assert trace[1..] == rest.trace;
    RemoveShrinks(s.available, failed);
    RemoveKeeps(s.available, failed.id);
    forall c ensures Dispatched(trace, c) <==> c == failed || Dispatched(rest.trace, c) {
      DispatchedFirst(Attempt(failed, reply), rest.trace, c);
    }
    if CountsReadable(env, s.available) && DistinctIds(s.available) {
      RemoveStaysReadable(env, s.available, failed.id);
      RemoveStaysDistinct(s.available, failed.id);
      RemoveOne(s.available, failed);
    }
  }

  lemma DispatchedFirst(a: Attempt, rest: seq<Attempt>, c: Candidate)
    ensures Dispatched([a] + rest, c) <==> c == a.endpoint || Dispatched(rest, c)
  {
    var trace := [a] + rest;
    assert trace[0] == a;
    if i :| 0 <= i < |rest| && rest[i].endpoint == c {
      assert trace[i + 1].endpoint == c;
    }
  }

  /** Once the deadline has passed nothing more is dispatched. */
  lemma {:induction false} NoDispatchAfterDeadline(limits: Limits, env: Environment, s: State, deadline: nat)
    requires forall t :: deadline <= t < |env| ==> env[t].expired
    ensures |Serve(limits, env, s).trace| <= Max(0, deadline - s.turn)
    decreases |s.available|
  {
    ServeUnfolds(limits, env, s);
    var m := NextMove(limits, env, s);
    if m.Skip? {
      NoDispatchAfterDeadline(limits, env, AfterSkip(s, m.c), deadline);
    } else if m.Try? {
      var reply := ReplyOf(TurnAt(env, s.turn).replies, m.c.id);
      if !Answers(s, reply) {
        NoDispatchAfterDeadline(limits, env, AfterFailure(s, m.c, reply), deadline);
      }
    }
  }

  /** Every turn reads the deadline, the counts and the ceilings anew: what earlier turns read
      has no bearing on the rest. */
  lemma {:induction false} TurnsReadAnew(limits: Limits, env: Environment, other: Environment, s: State)
    requires forall t: nat :: s.turn <= t ==> TurnAt(env, t) == TurnAt(other, t)
    ensures Serve(limits, env, s) == Serve(limits, other, s)
    decreases |s.available|
  {
    ServeUnfolds(limits, env, s);
    ServeUnfolds(limits, other, s);
    var m := NextMove(limits, env, s);
    assert TurnAt(env, s.turn) == TurnAt(other, s.turn);
    if m.Skip? {
      TurnsReadAnew(limits, env, other, AfterSkip(s, m.c));
    } else if m.Try? {
      var reply := ReplyOf(TurnAt(env, s.turn).replies, m.c.id);
      if !Answers(s, reply) {
        TurnsReadAnew(limits, env, other, AfterFailure(s, m.c, reply));
      }
    }
  }

  /** What the client is told, from the dispatches and the limits: no endpoint was available,
      the last dispatch answered, two endpoints sent a 400, the retries are used up, the
      deadline passed with endpoints left, or there is none left. */
  lemma ResponseOfARequest(limits: Limits, env: Environment, list: seq<Candidate>)
    ensures
      var o := Handle(limits, env, list);
      var n := |o.trace|;
      && (o.response.Unavailable? <==> list == [])
      && (o.response.Served? <==> n > 0 && o.trace[n - 1].reply.Success?)
      && (o.response.PassedThrough? <==> RefusedTwice(o.trace))
      && (o.response.Served? || o.response.PassedThrough? ==> n > 0 && o.response.id == o.trace[n - 1].endpoint.id)
      && (o.response.MaxRetriesReached? <==>
          list != [] && !o.response.Served? && !o.response.PassedThrough? && n >= limits.maxRetries)
      && (list != [] ==> EndsFor(limits, env, Start(list), o))
  {
    if list != [] {
      BadRequestHandling(limits, env, list);
      TraceDecidesResponse(limits, env, Start(list));
      EndingHasItsReason(limits, env, Start(list));
    }
  }

  // ---- Completeness ---------------------------------------------------------------------

  /** No turn the loop can still take times out, and endpoints answer the same throughout. */
  ghost predicate Steady(env: Environment, s: State, replies: map<string, Reply>) {
    && s.turn + |s.available| <= |env|
    && forall t :: 0 <= t < |env| ==> !env[t].expired && env[t].replies == replies
  }

  function Failing(list: seq<Candidate>, replies: map<string, Reply>): nat {
    Count(list, (c: Candidate) => !ReplyOf(replies, c.id).Success?)
  }

  function FailingPublics(list: seq<Candidate>, replies: map<string, Reply>): nat {
    Count(list, (c: Candidate) => c.role == Public && !ReplyOf(replies, c.id).Success?)
  }

  function Refusing(list: seq<Candidate>, replies: map<string, Reply>): nat {
    Count(list, (c: Candidate) => ReplyOf(replies, c.id).BadRequest?)
  }

  lemma {:induction false} CountAppend<T>(a: seq<T>, b: seq<T>, p: T -> bool)
    ensures Count(a + b, p) == Count(a, p) + Count(b, p)
  {
    if a == [] {
      assert a + b == b;
    } else {
      assert (a + b)[1..] == a[1..] + b;
      CountAppend(a[1..], b, p);
    }
  }

  lemma {:induction false} CountRemove(list: seq<Candidate>, c: Candidate, p: Candidate -> bool)
    ensures Count(Remove(list, c.id), p) <= Count(list, p)
    ensures c in list && p(c) ==> Count(Remove(list, c.id), p) < Count(list, p)
  {
    if list != [] {
      var init, last := list[..|list| - 1], list[|list| - 1];
      assert list == init + [last];
      CountRemove(init, c, p);
      CountAppend(init, [last], p);
      CountAppend(Remove(init, c.id), if last.id != c.id then [last] else [], p);
    }
  }

  /** Endpoint c would answer, the public limit cannot cut it off, fewer endpoints fail than
      retries are left, and at most one of them answers with a 400. */
  ghost predicate Hopeful(limits: Limits, s: State, replies: map<string, Reply>, c: Candidate) {
    && c in s.available && ReplyOf(replies, c.id).Success?
    && (limits.publicFirst && c.role == Public ==>
        s.publics + FailingPublics(s.available, replies) < limits.publicFirstAttempts)
    && s.retries + Failing(s.available, replies) < limits.maxRetries
    && CachedBefore(s) + Refusing(s.available, replies) <= 1
  }

  lemma SkipStaysHopeful(limits: Limits, s: State, replies: map<string, Reply>, c: Candidate, skipped: Candidate)
    requires Hopeful(limits, s, replies, c) && skipped in s.available
    requires limits.publicFirst && skipped.role == Public && s.publics >= limits.publicFirstAttempts
    requires skipped.id != c.id
    ensures Hopeful(limits, AfterSkip(s, skipped), replies, c)
  {
    RemoveKeeps(s.available, skipped.id);
    FailuresRemove(s.available, skipped, replies);
  }

  lemma FailureStaysHopeful(limits: Limits, s: State, replies: map<string, Reply>, c: Candidate, tried: Candidate)
    requires Hopeful(limits, s, replies, c) && tried in s.available && !ReplyOf(replies, tried.id).Success?
    ensures !Answers(s, ReplyOf(replies, tried.id))
    ensures Hopeful(limits, AfterFailure(s, tried, ReplyOf(replies, tried.id)), replies, c)
  {
    RemoveKeeps(s.available, tried.id);
    FailuresRemove(s.available, tried, replies);
  }

  /** The endpoint has a role the selection knows, and its own count can be read. */
  ghost predicate Selectable(env: Environment, c: Candidate) {
    c.role != Unlisted && forall t :: 0 <= t < |env| ==> c.id in env[t].view.counts
  }

  /** While a selectable endpoint is on the list, some endpoint is selected. */
  lemma SomeMove(limits: Limits, env: Environment, s: State, c: Candidate)
    requires Selectable(env, c) && c in s.available && s.retries < limits.maxRetries
    requires s.turn < |env| && !env[s.turn].expired
    ensures !NextMove(limits, env, s).End?
  {
    var i :| 0 <= i < |s.available| && s.available[i] == c;
    SomeIsSelected(s.available, limits.publicFirst, env[s.turn].view, i);
  }

  /** Failover is complete: without a deadline, with at most one 400 and fewer failing
      endpoints than retries, a request with an answering endpoint in reach is served,
      whatever the other counts say, read or not, and in whatever order they make the loop
      try. */
  lemma {:induction false} FailoverIsComplete(limits: Limits, env: Environment, s: State,
                                              replies: map<string, Reply>, c: Candidate)
    requires Steady(env, s, replies) && Selectable(env, c) && DistinctIds(s.available)
    requires Hopeful(limits, s, replies, c)
    ensures Serve(limits, env, s).response.Served?
    decreases |s.available|
  {
    SomeMove(limits, env, s, c);
    var m := NextMove(limits, env, s);
    assert m.c in s.available;
    assert ReplyOf(TurnAt(env, s.turn).replies, m.c.id) == ReplyOf(replies, m.c.id);
    RemoveShrinks(s.available, m.c);
    RemoveStaysDistinct(s.available, m.c.id);
    if m.Skip? {
      SkipStaysHopeful(limits, s, replies, c, m.c);
      FailoverIsComplete(limits, env, AfterSkip(s, m.c), replies, c);
    } else if !ReplyOf(replies, m.c.id).Success? {
      FailureStaysHopeful(limits, s, replies, c, m.c);
      FailoverIsComplete(limits, env, AfterFailure(s, m.c, ReplyOf(replies, m.c.id)), replies, c);
    }
  }

  lemma {:induction false} RemoveStaysDistinct(list: seq<Candidate>, id: string)
    requires DistinctIds(list)
    ensures DistinctIds(Remove(list, id))
  {
    if list != [] {
      var init := list[..|list| - 1];
      RemoveStaysDistinct(init, id);
      RemoveKeeps(init, id);
      var rest := Remove(init, id);
      forall i | 0 <= i < |rest| ensures rest[i].id != list[|list| - 1].id {
        assert rest[i] in rest;
      }
    }
  }

  lemma FailuresRemove(list: seq<Candidate>, c: Candidate, replies: map<string, Reply>)
    requires c in list
    ensures
      var rest := Remove(list, c.id);
      && Failing(rest, replies) + (if ReplyOf(replies, c.id).Success? then 0 else 1) <= Failing(list, replies)
      && FailingPublics(rest, replies) + (if ReplyOf(replies, c.id).Success? || c.role != Public then 0 else 1)
         <= FailingPublics(list, replies)
      && Refusing(rest, replies) + (if ReplyOf(replies, c.id).BadRequest? then 1 else 0) <= Refusing(list, replies)
  {
    CountRemove(list, c, (x: Candidate) => !ReplyOf(replies, x.id).Success?);
    CountRemove(list, c, (x: Candidate) => x.role == Public && !ReplyOf(replies, x.id).Success?);
    CountRemove(list, c, (x: Candidate) => ReplyOf(replies, x.id).BadRequest?);
  }

  /** For a whole request: at most maxRetries endpoints, one of them answering, readable and
      not cut off by the public limit, and at most one 400 among them. */
  lemma RequestIsServed(limits: Limits, env: Environment, list: seq<Candidate>,
                        replies: map<string, Reply>, c: Candidate)
    requires Steady(env, Start(list), replies) && Selectable(env, c) && DistinctIds(list)
    requires c in list && ReplyOf(replies, c.id).Success?
    requires |list| <= limits.maxRetries && Refusing(list, replies) <= 1
    requires limits.publicFirst && c.role == Public ==> FailingPublics(list, replies) < limits.publicFirstAttempts
    ensures Handle(limits, env, list).response.Served?
  {
    SomeSucceeds(list, replies, c);
    FailoverIsComplete(limits, env, Start(list), replies, c);
  }

  lemma {:induction false} SomeSucceeds(list: seq<Candidate>, replies: map<string, Reply>, c: Candidate)
    ensures Failing(list, replies) <= |list|
    ensures c in list && ReplyOf(replies, c.id).Success? ==> Failing(list, replies) < |list|
  {
    if list != [] {
      SomeSucceeds(list[1..], replies, c);
    }
  }

  // ---- The handler ----------------------------------------------------------------------

  /** What reaches the client's connection. */
  datatype Write = Part(id: string) | Whole(response: Response)

  class ResponseWriter {
    var sent: seq<Write>

    method Send(w: Write)
      modifies this
      ensures sent == old(sent) + [w]
    {
      sent := sent + [w];
    }
  }

  /** Everything a request changes: the client's connection, the usage recorded per dispatch,
      the failures and successes the loop reports for debouncing, and the request counts. */
  datatype Effects = Effects(
    sent: seq<Write>, usage: seq<string>, failures: seq<string>, successes: seq<string>,
    requestCounts: map<string, nat>)

  function PartOf(a: Attempt): seq<Write> {
    if IsPartialWrite(a) then [Part(a.endpoint.id)] else []
  }

  /** Every dispatch spends a unit of usage, and may leave part of a response behind. */
  function AfterAttempt(e: Effects, a: Attempt): Effects {
    e.(sent := e.sent + PartOf(a), usage := e.usage + [a.endpoint.id])
  }

  function AfterAttempts(e: Effects, trace: seq<Attempt>): Effects
    decreases trace
  {
    if trace == [] then e else AfterAttempts(AfterAttempt(e, trace[0]), trace[1..])
  }

  /** The response goes out; a charge and a success are reported, and a success is counted. */
  function AfterResponse(e: Effects, response: Response, charged: Option<string>): Effects {
    var said := e.(sent := e.sent + [Whole(response)],
                   failures := e.failures + if charged.Some? then [charged.value] else []);
    if !response.Served? then said
    else
      var id := response.id;
      var count := if id in e.requestCounts then e.requestCounts[id] else 0;
      said.(successes := e.successes + [id], requestCounts := e.requestCounts[id := count + 1])
  }

  function AfterRequest(e: Effects, o: Outcome): Effects {
    AfterResponse(AfterAttempts(e, o.trace), o.response, o.charged)
  }

  lemma AttemptFirst(e: Effects, a: Attempt, o: Outcome)
    ensures AfterRequest(e, o.(trace := [a] + o.trace)) == AfterRequest(AfterAttempt(e, a), o)
  {
    assert ([a] + o.trace)[1..] == o.trace;
  }

  lemma AnswerEffects(e: Effects, s: State, c: Candidate, reply: Reply)
    requires Answers(s, reply)
    ensures
      var a := Answer(s, c, reply);
      AfterRequest(e, a) == AfterResponse(e.(usage := e.usage + [c.id]), a.response, a.charged)
  {
    var attempt := Attempt(c, reply);
    assert [attempt][1..] == [];
    assert e.sent + PartOf(attempt) == e.sent;
    assert AfterAttempt(e, attempt) == e.(usage := e.usage + [c.id]);
    assert AfterAttempts(e, [attempt]) == AfterAttempt(e, attempt);
  }

  /** A request whose first choice answers counts one request on it, and nothing else. */
  lemma FirstDispatchServes(limits: Limits, env: Environment, list: seq<Candidate>, k: nat, e: Effects)
    requires env != [] && !env[0].expired && limits.maxRetries >= 1 && k < |list|
    requires SelectBest(list, limits.publicFirst, env[0].view) == Some(k)
    requires limits.publicFirst && list[k].role == Public ==> limits.publicFirstAttempts >= 1
    requires ReplyOf(env[0].replies, list[k].id).Success?
    ensures
      var id := list[k].id;
      var count := if id in e.requestCounts then e.requestCounts[id] else 0;
      AfterRequest(e, Handle(limits, env, list)).requestCounts == e.requestCounts[id := count + 1]
  {
    ServeUnfolds(limits, env, Start(list));
    assert NextMove(limits, env, Start(list)) == Try(list[k]);
    AnswerEffects(e, Start(list), list[k], Success);
  }

  lemma {:induction false} AttemptsSend(e: Effects, trace: seq<Attempt>)
    ensures |AfterAttempts(e, trace).sent| == |e.sent| + Count(trace, IsPartialWrite)
    decreases trace
  {
    if trace != [] {
      AttemptsSend(AfterAttempt(e, trace[0]), trace[1..]);
    }
  }

  /** The dispatches leave exactly one usage entry each, in order, and nothing else but parts of
      responses. */
  lemma {:induction false} AttemptsInNumbers(e: Effects, trace: seq<Attempt>)
    ensures
      var after, n := AfterAttempts(e, trace), |e.usage|;
      && |after.usage| == n + |trace| && after.usage[..n] == e.usage
      && (forall i :: 0 <= i < |trace| ==> after.usage[n + i] == trace[i].endpoint.id)
      && after.failures == e.failures && after.successes == e.successes && after.requestCounts == e.requestCounts
    decreases trace
  {
    if trace != [] {
      var next := AfterAttempt(e, trace[0]);
      AttemptsInNumbers(next, trace[1..]);
      var after := AfterAttempts(e, trace);
      assert after.usage[..|e.usage|] == after.usage[..|next.usage|][..|e.usage|];
      assert after.usage[|e.usage|] == after.usage[..|next.usage|][|e.usage|];
    }
  }

  /** The one 400 of a trace is its first. */
  lemma {:induction false} OnlyBadIsFirst(trace: seq<Attempt>, k: nat)
    requires k < |trace| && trace[k].reply.BadRequest? && Count(trace, IsBadRequest) == 1
    ensures FirstBadRequest(trace) == Some(trace[k].endpoint.id)
  {
    if k == 0 {
    } else {
      assert trace[1..][k - 1] == trace[k];
      CountPositive(trace[1..], IsBadRequest);
      assert IsBadRequest(trace[1..][k - 1]);
      OnlyBadIsFirst(trace[1..], k - 1);
    }
  }

  /** What a request changes, in terms of its dispatches: one usage entry for each of them,
      failed or not, in order; a failure charged to the endpoint of its 400 exactly if a later
      dispatch answered; a success and one more request counted for the endpoint that answered
      and no other; and the whole response as the last write. */
  lemma EffectsOfARequest(limits: Limits, env: Environment, list: seq<Candidate>, e: Effects)
    ensures
      var o := Handle(limits, env, list);
      var after, trace, n := AfterRequest(e, o), o.trace, |e.usage|;
      var answered := trace != [] && trace[|trace| - 1].reply.Success?;
      && |after.usage| == n + |trace| && after.usage[..n] == e.usage
      && (forall i :: 0 <= i < |trace| ==> after.usage[n + i] == trace[i].endpoint.id)
      && (forall k :: 0 <= k < |trace| && answered && trace[k].reply.BadRequest? ==>
          after.failures == e.failures + [trace[k].endpoint.id])
      && ((forall k :: 0 <= k < |trace| && answered ==> !trace[k].reply.BadRequest?) ==> after.failures == e.failures)
      && (if answered then
            var id := trace[|trace| - 1].endpoint.id;
            && after.successes == e.successes + [id]
            && after.requestCounts ==
               e.requestCounts[id := 1 + if id in e.requestCounts then e.requestCounts[id] else 0]
          else after.successes == e.successes && after.requestCounts == e.requestCounts)
      && after.sent != [] && after.sent[|after.sent| - 1] == Whole(o.response)
  {
    AttemptsInNumbers(e, Handle(limits, env, list).trace);
    ChargeOfARequest(limits, env, list);
  }

  /** Who is served and who is charged. */
  lemma ChargeOfARequest(limits: Limits, env: Environment, list: seq<Candidate>)
    ensures
      var o := Handle(limits, env, list);
      var trace := o.trace;
      && (o.response.Served? <==> trace != [] && trace[|trace| - 1].reply.Success?)
      && (o.response.Served? ==> o.response.id == trace[|trace| - 1].endpoint.id)
      && (forall k :: 0 <= k < |trace| && o.response.Served? && trace[k].reply.BadRequest? ==>
          o.charged == Some(trace[k].endpoint.id))
      && (o.charged.Some? ==> o.response.Served? && exists k :: 0 <= k < |trace| && trace[k].reply.BadRequest?)
  {
    if list != [] {
      var o := Handle(limits, env, list);
      TraceDecidesResponse(limits, env, Start(list));
      CountPositive(o.trace, IsBadRequest);
      forall k | 0 <= k < |o.trace| && o.response.Served? && o.trace[k].reply.BadRequest?
        ensures o.charged == Some(o.trace[k].endpoint.id)
      {
        assert IsBadRequest(o.trace[k]);
        OnlyBadIsFirst(o.trace, k);
      }
    }
  }

  ghost predicate OneWrite(limits: Limits, env: Environment, list: seq<Candidate>, e: Effects) {
    |AfterRequest(e, Handle(limits, env, list)).sent| == |e.sent| + 1
  }

  /** A response is written besides the part each broken-off attempt leaves; the handler does
      not notice such a failure and goes on. */
  lemma OneWriteIffNoPartialFailure(limits: Limits, env: Environment, list: seq<Candidate>, e: Effects)
    ensures
      var trace := Handle(limits, env, list).trace;
      OneWrite(limits, env, list, e) <==> forall i :: 0 <= i < |trace| ==> !IsPartialWrite(trace[i])
  {
    var o := Handle(limits, env, list);
    AttemptsSend(e, o.trace);
    CountPositive(o.trace, IsPartialWrite);
  }

  // ---- Which endpoints a request can reach ----------------------------------------------

  /** Every endpoint answers the same on every turn. */
  ghost predicate Repeats(env: Environment, replies: map<string, Reply>) {
    forall t :: 0 <= t < |env| ==> env[t].replies == replies
  }

  predicate Better(limits: Limits, a: Candidate, b: Candidate) {
    Rank(limits.publicFirst, a.role) < Rank(limits.publicFirst, b.role)
  }

  function Publics(tried: set<Candidate>): set<Candidate> {
    set c | c in tried && c.role == Public
  }

  function BadOnes(tried: set<Candidate>, replies: map<string, Reply>): set<Candidate> {
    set c | c in tried && ReplyOf(replies, c.id).BadRequest?
  }

  /** The public limit is used up once the endpoints in `tried` have been dispatched to. */
  predicate UsedUp(limits: Limits, s: State, tried: set<Candidate>) {
    limits.publicFirst && s.publics + |Publics(tried)| >= limits.publicFirstAttempts
  }

  /** The failures of `tried` neither end the request nor exceed a limit. */
  ghost predicate Survives(limits: Limits, s: State, replies: map<string, Reply>, tried: set<Candidate>) {
    && (forall x :: x in tried ==> !ReplyOf(replies, x.id).Success?)
    && s.retries + |tried| < limits.maxRetries
    && CachedBefore(s) + |BadOnes(tried, replies)| <= 1
    && (limits.publicFirst && Publics(tried) != {} ==> s.publics + |Publics(tried)| <= limits.publicFirstAttempts)
  }

  /** Trying the endpoints in `tried`, which come before c, clears the way to c: they fail
      without ending the request, and whatever else comes before c is cut off by the public
      limit, which does not cut off c itself. */
  ghost predicate Clears(limits: Limits, s: State, replies: map<string, Reply>, tried: set<Candidate>, c: Candidate) {
    && c in s.available
    && (forall x :: x in tried ==> x in s.available && Better(limits, x, c))
    && Survives(limits, s, replies, tried)
    && (forall x :: x in s.available && Better(limits, x, c) && x !in tried ==>
          x.role == Public && UsedUp(limits, s, tried))
    && (limits.publicFirst && c.role == Public ==> s.publics < limits.publicFirstAttempts)
  }

  lemma TriedWithOneMore(tried: set<Candidate>, x: Candidate, replies: map<string, Reply>)
    requires x !in tried
    ensures |tried + {x}| == |tried| + 1
    ensures |Publics(tried + {x})| == |Publics(tried)| + if x.role == Public then 1 else 0
    ensures |BadOnes(tried + {x}, replies)| ==
      |BadOnes(tried, replies)| + if ReplyOf(replies, x.id).BadRequest? then 1 else 0
  {
    PublicsWithOneMore(tried, x);
    BadOnesWithOneMore(tried, x, replies);
  }

  lemma PublicsWithOneMore(tried: set<Candidate>, x: Candidate)
    requires x !in tried
    ensures |Publics(tried + {x})| == |Publics(tried)| + if x.role == Public then 1 else 0
  {
    if x.role == Public {
      assert Publics(tried + {x}) == Publics(tried) + {x};
    } else {
      assert Publics(tried + {x}) == Publics(tried);
    }
  }

  lemma BadOnesWithOneMore(tried: set<Candidate>, x: Candidate, replies: map<string, Reply>)
    requires x !in tried
    ensures |BadOnes(tried + {x}, replies)| ==
      |BadOnes(tried, replies)| + if ReplyOf(replies, x.id).BadRequest? then 1 else 0
  {
    if ReplyOf(replies, x.id).BadRequest? {
      assert BadOnes(tried + {x}, replies) == BadOnes(tried, replies) + {x};
    } else {
      assert BadOnes(tried + {x}, replies) == BadOnes(tried, replies);
    }
  }

  lemma NothingTried(replies: map<string, Reply>)
    ensures Publics({}) == {} && BadOnes({}, replies) == {}
  {
  }

  // ---- Whatever is dispatched to had its way cleared

  lemma BestIsClear(limits: Limits, s: State, replies: map<string, Reply>, c: Candidate)
    requires c in s.available && s.retries < limits.maxRetries
    requires forall x :: x in s.available ==> !Better(limits, x, c)
    requires limits.publicFirst && c.role == Public ==> s.publics < limits.publicFirstAttempts
    ensures Clears(limits, s, replies, {}, c)
  {
    NothingTried(replies);
  }

  lemma ClearsBeforeSkip(limits: Limits, s: State, replies: map<string, Reply>, skipped: Candidate,
                         tried: set<Candidate>, c: Candidate)
    requires DistinctIds(s.available) && skipped in s.available
    requires limits.publicFirst && skipped.role == Public && s.publics >= limits.publicFirstAttempts
    requires Clears(limits, AfterSkip(s, skipped), replies, tried, c)
    ensures Clears(limits, s, replies, tried, c)
  {
    RemoveOne(s.available, skipped);
  }

  /** With distinct ids, removing an endpoint removes that endpoint alone. */
  lemma RemoveOne(list: seq<Candidate>, c: Candidate)
    requires DistinctIds(list) && c in list
    ensures forall x :: x in Remove(list, c.id) <==> x in list && x != c
  {
    RemoveKeeps(list, c.id);
  }

  lemma ClearsBeforeFailure(limits: Limits, s: State, replies: map<string, Reply>, failed: Candidate,
                            tried: set<Candidate>, c: Candidate)
    requires DistinctIds(s.available) && failed in s.available && Better(limits, failed, c)
    requires !Answers(s, ReplyOf(replies, failed.id)) && s.retries < limits.maxRetries
    requires limits.publicFirst && failed.role == Public ==> s.publics < limits.publicFirstAttempts
    requires Clears(limits, AfterFailure(s, failed, ReplyOf(replies, failed.id)), replies, tried, c)
    ensures Clears(limits, s, replies, tried + {failed}, c)
  {
    RemoveOne(s.available, failed);
    assert failed !in tried;
    TriedWithOneMore(tried, failed, replies);
    SurvivesOneMore(limits, s, replies, failed, tried);
  }

  lemma SurvivesOneMore(limits: Limits, s: State, replies: map<string, Reply>, failed: Candidate, tried: set<Candidate>)
    requires failed !in tried && !Answers(s, ReplyOf(replies, failed.id))
    requires limits.publicFirst && failed.role == Public ==> s.publics < limits.publicFirstAttempts
    requires Survives(limits, AfterFailure(s, failed, ReplyOf(replies, failed.id)), replies, tried)
    ensures Survives(limits, s, replies, tried + {failed})
    ensures UsedUp(limits, AfterFailure(s, failed, ReplyOf(replies, failed.id)), tried)
       ==> UsedUp(limits, s, tried + {failed})
  {
    TriedWithOneMore(tried, failed, replies);
  }

  ghost predicate CanBeCleared(limits: Limits, s: State, replies: map<string, Reply>, c: Candidate) {
    exists tried :: Clears(limits, s, replies, tried, c)
  }

  /** Every dispatch gets its endpoint's reply, and had its way cleared. */
  ghost predicate AllCleared(limits: Limits, s: State, replies: map<string, Reply>, trace: seq<Attempt>) {
    forall i :: 0 <= i < |trace| ==>
      trace[i].reply == ReplyOf(replies, trace[i].endpoint.id) && CanBeCleared(limits, s, replies, trace[i].endpoint)
  }

  /** The endpoint is the best on the list and the public limit does not cut it off. */
  ghost predicate Foremost(limits: Limits, s: State, c: Candidate) {
    && c in s.available && s.retries < limits.maxRetries
    && (forall x :: x in s.available ==> !Better(limits, x, c))
    && (limits.publicFirst && c.role == Public ==> s.publics < limits.publicFirstAttempts)
  }

  lemma ClearedBeforeSkip(limits: Limits, s: State, replies: map<string, Reply>, skipped: Candidate,
                          trace: seq<Attempt>)
    requires DistinctIds(s.available) && skipped in s.available
    requires limits.publicFirst && skipped.role == Public && s.publics >= limits.publicFirstAttempts
    requires AllCleared(limits, AfterSkip(s, skipped), replies, trace)
    ensures AllCleared(limits, s, replies, trace)
  {
    forall i | 0 <= i < |trace| ensures CanBeCleared(limits, s, replies, trace[i].endpoint) {
      var c := trace[i].endpoint;
      var tried :| Clears(limits, AfterSkip(s, skipped), replies, tried, c);
      ClearsBeforeSkip(limits, s, replies, skipped, tried, c);
    }
  }

  lemma ClearedBeforeFailure(limits: Limits, s: State, replies: map<string, Reply>, failed: Candidate, c: Candidate)
    requires DistinctIds(s.available) && Foremost(limits, s, failed)
    requires !Answers(s, ReplyOf(replies, failed.id))
    requires CanBeCleared(limits, AfterFailure(s, failed, ReplyOf(replies, failed.id)), replies, c)
    ensures CanBeCleared(limits, s, replies, c)
  {
    var tried :| Clears(limits, AfterFailure(s, failed, ReplyOf(replies, failed.id)), replies, tried, c);
    if Better(limits, failed, c) {
      ClearsBeforeFailure(limits, s, replies, failed, tried, c);
    } else {
      RemoveOne(s.available, failed);
      BestIsClear(limits, s, replies, c);
    }
  }

  lemma FailureIsCleared(limits: Limits, s: State, replies: map<string, Reply>, failed: Candidate, rest: seq<Attempt>)
    requires DistinctIds(s.available) && Foremost(limits, s, failed)
    requires rest == [] ||
             (!Answers(s, ReplyOf(replies, failed.id)) &&
              AllCleared(limits, AfterFailure(s, failed, ReplyOf(replies, failed.id)), replies, rest))
    ensures AllCleared(limits, s, replies, [Attempt(failed, ReplyOf(replies, failed.id))] + rest)
  {
    BestIsClear(limits, s, replies, failed);
    var trace := [Attempt(failed, ReplyOf(replies, failed.id))] + rest;
    forall i | 0 < i < |trace| ensures CanBeCleared(limits, s, replies, trace[i].endpoint) {
      assert trace[i] == rest[i - 1];
      ClearedBeforeFailure(limits, s, replies, failed, trace[i].endpoint);
    }
  }

  /** What a move of the loop says about the endpoint it picks. */
  lemma MoveIsForemost(limits: Limits, env: Environment, s: State, replies: map<string, Reply>)
    requires Repeats(env, replies) && CountsReadable(env, s.available)
    ensures
      var m := NextMove(limits, env, s);
      && (m.Try? ==> Foremost(limits, s, m.c))
      && (m.Skip? ==> limits.publicFirst && m.c.role == Public && s.publics >= limits.publicFirstAttempts)
      && (!m.End? ==> TurnAt(env, s.turn).replies == replies)
  {
    MoveFollowsPriority(limits, env, s);
  }

  lemma {:induction false} DispatchesAreCleared(limits: Limits, env: Environment, s: State, replies: map<string, Reply>)
    requires Repeats(env, replies) && CountsReadable(env, s.available) && DistinctIds(s.available)
    ensures AllCleared(limits, s, replies, Serve(limits, env, s).trace)
    decreases |s.available|
  {
    ServeUnfolds(limits, env, s);
    MoveIsForemost(limits, env, s, replies);
    match NextMove(limits, env, s)
    case End(_) =>
    case Skip(c) =>
      RemoveStaysReadable(env, s.available, c.id);
      RemoveStaysDistinct(s.available, c.id);
      DispatchesAreCleared(limits, env, AfterSkip(s, c), replies);
      ClearedBeforeSkip(limits, s, replies, c, Serve(limits, env, AfterSkip(s, c)).trace);
    case Try(c) =>
      var reply := ReplyOf(replies, c.id);
      if Answers(s, reply) {
        FailureIsCleared(limits, s, replies, c, []);
        assert [Attempt(c, reply)] + [] == Serve(limits, env, s).trace;
      } else {
        RemoveStaysReadable(env, s.available, c.id);
        RemoveStaysDistinct(s.available, c.id);
        DispatchesAreCleared(limits, env, AfterFailure(s, c, reply), replies);
        FailureIsCleared(limits, s, replies, c, Serve(limits, env, AfterFailure(s, c, reply)).trace);
      }
  }

  // ---- Whatever has its way cleared can be dispatched to

  /** Counts that send the loop to the endpoints in `tried` first, then to c. */
  predicate Steers(view: View, list: seq<Candidate>, tried: set<Candidate>, c: Candidate) {
    && view.ceilings == map[]
    && forall i :: 0 <= i < |list| ==>
         && list[i].id in view.counts
         && view.counts[list[i].id] == if list[i] in tried then 0 else if list[i] == c then 1 else 2
  }

  function SteeringCounts(list: seq<Candidate>, tried: set<Candidate>, c: Candidate): map<string, nat> {
    if list == [] then map[]
    else
      var last := list[|list| - 1];
      SteeringCounts(list[..|list| - 1], tried, c)[last.id := if last in tried then 0 else if last == c then 1 else 2]
  }

  lemma {:induction false} SteeringCountsSteer(list: seq<Candidate>, tried: set<Candidate>, c: Candidate)
    requires DistinctIds(list)
    ensures Steers(View(SteeringCounts(list, tried, c), map[]), list, tried, c)
  {
    if list != [] {
      SteeringCountsSteer(list[..|list| - 1], tried, c);
    }
  }

  /** No turn the loop can still take times out, and all of them read the same view. */
  ghost predicate SameView(env: Environment, s: State, view: View, replies: map<string, Reply>) {
    && s.turn + |s.available| <= |env|
    && forall t :: 0 <= t < |env| ==> env[t] == Turn(false, view, replies)
  }

  /** A steered choice has the best role and, within it, the least steering count. */
  lemma SteeredMove(limits: Limits, env: Environment, s: State, view: View, replies: map<string, Reply>,
                    tried: set<Candidate>, c: Candidate)
    requires SameView(env, s, view, replies) && CountsReadable(env, s.available)
    requires Steers(view, s.available, tried, c) && s.retries < limits.maxRetries && s.available != []
    ensures
      var m := NextMove(limits, env, s);
      && !m.End? && m.c in s.available
      && (forall x :: x in s.available ==> !Better(limits, x, m.c))
      && (forall x :: x in s.available && x.role == m.c.role ==> view.counts[m.c.id] <= view.counts[x.id])
  {
    MoveFollowsPriority(limits, env, s);
    assert Readable(s.available, view);
    SelectionFollowsPriority(s.available, limits.publicFirst, view);
    LeastCount(s.available, limits.publicFirst, view);
  }

  lemma SteeringGoesOn(view: View, list: seq<Candidate>, tried: set<Candidate>, gone: Candidate, c: Candidate)
    requires Steers(view, list, tried, c)
    ensures Steers(view, Remove(list, gone.id), tried - {gone}, c)
  {
    var rest := Remove(list, gone.id);
    RemoveKeeps(list, gone.id);
    forall i | 0 <= i < |rest|
      ensures rest[i].id in view.counts
      ensures view.counts[rest[i].id] == if rest[i] in tried - {gone} then 0 else if rest[i] == c then 1 else 2
    {
      assert rest[i] in rest;
      var k :| 0 <= k < |list| && list[k] == rest[i];
    }
  }

  lemma ClearsAfterSkip(limits: Limits, s: State, replies: map<string, Reply>, skipped: Candidate,
                        tried: set<Candidate>, c: Candidate)
    requires DistinctIds(s.available) && Clears(limits, s, replies, tried, c)
    requires skipped in s.available && skipped !in tried && skipped != c
    ensures Clears(limits, AfterSkip(s, skipped), replies, tried, c)
  {
    RemoveOne(s.available, skipped);
  }

  lemma SurvivesOneFewer(limits: Limits, s: State, replies: map<string, Reply>, failed: Candidate,
                         tried: set<Candidate>)
    requires failed in tried && Survives(limits, s, replies, tried)
    ensures !Answers(s, ReplyOf(replies, failed.id))
    ensures
      var next := AfterFailure(s, failed, ReplyOf(replies, failed.id));
      && Survives(limits, next, replies, tried - {failed})
      && (UsedUp(limits, s, tried) ==> UsedUp(limits, next, tried - {failed}))
  {
    assert tried == tried - {failed} + {failed};
    TriedWithOneMore(tried - {failed}, failed, replies);
  }

  lemma ClearsAfterFailure(limits: Limits, s: State, replies: map<string, Reply>, failed: Candidate,
                           tried: set<Candidate>, c: Candidate)
    requires DistinctIds(s.available) && Clears(limits, s, replies, tried, c) && failed in tried
    ensures !Answers(s, ReplyOf(replies, failed.id))
    ensures Clears(limits, AfterFailure(s, failed, ReplyOf(replies, failed.id)), replies, tried - {failed}, c)
  {
    RemoveOne(s.available, failed);
    SurvivesOneFewer(limits, s, replies, failed, tried);
  }

  /** The loop is steered through `tried` to c. */
  ghost predicate Steered(limits: Limits, env: Environment, s: State, view: View, replies: map<string, Reply>,
                          tried: set<Candidate>, c: Candidate)
  {
    && SameView(env, s, view, replies) && CountsReadable(env, s.available) && DistinctIds(s.available)
    && Steers(view, s.available, tried, c) && Clears(limits, s, replies, tried, c)
  }

  lemma SteeredOn(limits: Limits, env: Environment, s: State, view: View, replies: map<string, Reply>,
                  tried: set<Candidate>, gone: Candidate, c: Candidate, next: State)
    requires Steered(limits, env, s, view, replies, tried, c) && gone in s.available
    requires next.turn == s.turn + 1 && next.available == Remove(s.available, gone.id)
    requires Clears(limits, next, replies, tried - {gone}, c)
    ensures Steered(limits, env, next, view, replies, tried - {gone}, c)
  {
    RemoveShrinks(s.available, gone);
    RemoveStaysReadable(env, s.available, gone.id);
    RemoveStaysDistinct(s.available, gone.id);
    SteeringGoesOn(view, s.available, tried, gone, c);
  }

  /** A steered turn tries the next of `tried`, skips a public that is cut off, or tries c. */
  lemma SteeredTurn(limits: Limits, env: Environment, s: State, view: View, replies: map<string, Reply>,
                    tried: set<Candidate>, c: Candidate)
    requires Steered(limits, env, s, view, replies, tried, c)
    ensures
      var m := NextMove(limits, env, s);
      && !m.End? && m.c in s.available
      && (m.c in tried ==> m.Try?)
      && (m.c !in tried ==> if m.c == c then m.Try? else m.Skip?)
  {
    SteeredMove(limits, env, s, view, replies, tried, c);
    var x := NextMove(limits, env, s).c;
    if x in tried {
      TriedIsNotSkipped(limits, s, replies, tried, x, c);
    } else if Better(limits, x, c) {
      NoPublicTried(limits, s, view, replies, tried, x, c);
    } else {
      SameRoleIsEndpoint(limits, s, view, replies, tried, x, c);
    }
  }

  /** Under steering counts the loop comes to c. */
  lemma {:induction false} SteeredToEndpoint(limits: Limits, env: Environment, s: State, view: View,
                                             replies: map<string, Reply>, tried: set<Candidate>, c: Candidate)
    requires Steered(limits, env, s, view, replies, tried, c)
    ensures Attempt(c, ReplyOf(replies, c.id)) in Serve(limits, env, s).trace
    decreases |s.available|
  {
    ServeUnfolds(limits, env, s);
    SteeredTurn(limits, env, s, view, replies, tried, c);
    var m := NextMove(limits, env, s);
    if m.c in tried {
      var next := AfterFailure(s, m.c, ReplyOf(replies, m.c.id));
      ClearsAfterFailure(limits, s, replies, m.c, tried, c);
      SteeredOn(limits, env, s, view, replies, tried, m.c, c, next);
      SteeredToEndpoint(limits, env, next, view, replies, tried - {m.c}, c);
    } else if m.c != c {
      assert tried - {m.c} == tried;
      ClearsAfterSkip(limits, s, replies, m.c, tried, c);
      SteeredOn(limits, env, s, view, replies, tried, m.c, c, AfterSkip(s, m.c));
      SteeredToEndpoint(limits, env, AfterSkip(s, m.c), view, replies, tried, c);
    }
  }

  lemma TriedIsNotSkipped(limits: Limits, s: State, replies: map<string, Reply>, tried: set<Candidate>, x: Candidate,
                          c: Candidate)
    requires Clears(limits, s, replies, tried, c) && x in tried
    ensures limits.publicFirst && x.role == Public ==> s.publics < limits.publicFirstAttempts
  {
    if x.role == Public {
      assert x in Publics(tried);
      assert |Publics(tried)| >= 1;
    }
  }

  /** A chosen endpoint before c that is not to be tried: no public was, and it is skipped. */
  lemma NoPublicTried(limits: Limits, s: State, view: View, replies: map<string, Reply>, tried: set<Candidate>,
                      x: Candidate, c: Candidate)
    requires Clears(limits, s, replies, tried, c) && Steers(view, s.available, tried, c)
    requires x in s.available && x !in tried && Better(limits, x, c)
    requires forall y :: y in s.available && y.role == x.role ==> view.counts[x.id] <= view.counts[y.id]
    ensures limits.publicFirst && x.role == Public && s.publics >= limits.publicFirstAttempts
  {
    var k :| 0 <= k < |s.available| && s.available[k] == x;
    assert view.counts[x.id] >= 1;
    forall y ensures y !in Publics(tried) {
      if y in Publics(tried) {
        assert false;
      }
    }
    assert Publics(tried) == {};
  }

  /** With nothing better on the list the choice is c. */
  lemma SameRoleIsEndpoint(limits: Limits, s: State, view: View, replies: map<string, Reply>, tried: set<Candidate>,
                           x: Candidate, c: Candidate)
    requires Listed(s.available) && Clears(limits, s, replies, tried, c) && Steers(view, s.available, tried, c)
    requires x in s.available && x !in tried && !Better(limits, x, c) && !Better(limits, c, x)
    requires forall y :: y in s.available && y.role == x.role ==> view.counts[x.id] <= view.counts[y.id]
    ensures x == c
  {
    var k :| 0 <= k < |s.available| && s.available[k] == x;
    var n :| 0 <= n < |s.available| && s.available[n] == c;
    assert c !in tried;
    assert view.counts[c.id] == 1 && x.role == c.role;
  }

  // ---- The two together

  /** What the store and the endpoints can confront a request with. */
  ghost predicate Admissible(env: Environment, list: seq<Candidate>, replies: map<string, Reply>) {
    Repeats(env, replies) && CountsReadable(env, list)
  }

  ghost predicate Reaches(limits: Limits, env: Environment, list: seq<Candidate>, c: Candidate) {
    exists a :: a in Handle(limits, env, list).trace && a.endpoint == c
  }

  lemma ClearedIsReached(limits: Limits, list: seq<Candidate>, replies: map<string, Reply>, tried: set<Candidate>,
                         c: Candidate)
    returns (env: Environment)
    requires Listed(list) && DistinctIds(list) && Clears(limits, Start(list), replies, tried, c)
    ensures Admissible(env, list, replies)
    ensures Attempt(c, ReplyOf(replies, c.id)) in Handle(limits, env, list).trace
  {
    var view := View(SteeringCounts(list, tried, c), map[]);
    SteeringCountsSteer(list, tried, c);
    env := seq(|list|, _ => Turn(false, view, replies));
    assert Readable(list, view);
    SteeredToEndpoint(limits, env, Start(list), view, replies, tried, c);
  }

  lemma RequestIsCleared(limits: Limits, env: Environment, list: seq<Candidate>, replies: map<string, Reply>)
    requires Admissible(env, list, replies) && DistinctIds(list)
    ensures AllCleared(limits, Start(list), replies, Handle(limits, env, list).trace)
  {
    if list != [] {
      DispatchesAreCleared(limits, env, Start(list), replies);
    }
  }

  /** Over all counts, ceilings and deadlines, the endpoints a request can reach are exactly
      those whose way can be cleared by failures of better-ranked ones. */
  lemma ReachedIff(limits: Limits, list: seq<Candidate>, replies: map<string, Reply>, c: Candidate)
    requires Listed(list) && DistinctIds(list)
    ensures (exists env :: Admissible(env, list, replies) && Reaches(limits, env, list, c))
       <==> CanBeCleared(limits, Start(list), replies, c)
  {
    if env :| Admissible(env, list, replies) && Reaches(limits, env, list, c) {
      RequestIsCleared(limits, env, list, replies);
    }
    if tried :| Clears(limits, Start(list), replies, tried, c) {
      var env := ClearedIsReached(limits, list, replies, tried, c);
      assert Reaches(limits, env, list, c);
    }
  }

  predicate BreaksOff(c: Candidate, replies: map<string, Reply>) {
    ReplyOf(replies, c.id) == Failure(true)
  }

  /** The client is sure to get exactly one write, whatever the counts, ceilings and deadlines,
      if and only if no endpoint whose way can be cleared breaks off after it has begun to
      write. */
  lemma OneWriteIffNoneBreaksOff(limits: Limits, list: seq<Candidate>, replies: map<string, Reply>, e: Effects)
    requires Listed(list) && DistinctIds(list)
    ensures (forall env :: Admissible(env, list, replies) ==> OneWrite(limits, env, list, e))
       <==> forall c :: c in list && CanBeCleared(limits, Start(list), replies, c) ==> !BreaksOff(c, replies)
  {
    if forall c :: c in list && CanBeCleared(limits, Start(list), replies, c) ==> !BreaksOff(c, replies) {
      forall env | Admissible(env, list, replies) ensures OneWrite(limits, env, list, e) {
        NoneDispatchedBreaksOff(limits, env, list, replies);
        OneWriteIffNoPartialFailure(limits, env, list, e);
      }
    } else {
      var c :| c in list && CanBeCleared(limits, Start(list), replies, c) && BreaksOff(c, replies);
      var tried :| Clears(limits, Start(list), replies, tried, c);
      var env := ClearedIsReached(limits, list, replies, tried, c);
      OneWriteIffNoPartialFailure(limits, env, list, e);
      assert IsPartialWrite(Attempt(c, ReplyOf(replies, c.id)));
    }
  }

  lemma NoneDispatchedBreaksOff(limits: Limits, env: Environment, list: seq<Candidate>, replies: map<string, Reply>)
    requires Admissible(env, list, replies) && DistinctIds(list)
    requires forall c :: c in list && CanBeCleared(limits, Start(list), replies, c) ==> !BreaksOff(c, replies)
    ensures var trace := Handle(limits, env, list).trace; forall i :: 0 <= i < |trace| ==> !IsPartialWrite(trace[i])
  {
    var trace := Handle(limits, env, list).trace;
    RequestIsCleared(limits, env, list, replies);
    forall i | 0 <= i < |trace| ensures !IsPartialWrite(trace[i]) {
      assert !BreaksOff(trace[i].endpoint, replies);
    }
  }

  /** From the next state the request has the same effects still ahead, on a shorter list. */
  ghost predicate Onward(before: Effects, now: Effects, limits: Limits, env: Environment, s: State, next: State) {
    && |next.available| < |s.available|
    && AfterRequest(now, Serve(limits, env, next)) == AfterRequest(before, Serve(limits, env, s))
  }

  datatype Ending = Answered | GaveUp | GoesOn

  /** One replica's handler and the records it keeps. */
  class Handler {
    const limits: Limits
    var usage: seq<string>
    var failures: seq<string>
    var successes: seq<string>
    var requestCounts: map<string, nat>

    constructor (limits: Limits)
      ensures this.limits == limits && requestCounts == map[] && usage == successes == failures == []
    {
      this.limits := limits;
      requestCounts := map[];
      usage, successes, failures := [], [], [];
    }

    function Now(w: ResponseWriter): Effects
      reads this, w
    {
      Effects(w.sent, usage, failures, successes, requestCounts)
    }

    /** The forwarder writes the response when it succeeds, and possibly a part when it fails. */
    method Forward(w: ResponseWriter, id: string, reply: Reply)
      modifies w
      ensures w.sent == old(w.sent) +
        if reply.Success? then [Whole(Served(id))] else if reply == Failure(true) then [Part(id)] else []
    {
      match reply
      case Success => w.Send(Whole(Served(id)));
      case BadRequest =>
      case Failure(wrotePart) =>
        if wrotePart {
          w.Send(Part(id));
        }
    }

    /** One turn up to the dispatch: the deadline, the selection, the public limit. */
    method ChooseMove(env: Environment, s: State) returns (m: Move)
      requires s.retries < limits.maxRetries && s.available != []
      ensures m == NextMove(limits, env, s)
    {
      if TurnAt(env, s.turn).expired {
        return End(TimedOut);
      }
      var best := SelectBestEndpoint(s.available, limits.publicFirst, TurnAt(env, s.turn).view);
      if best.None? {
        return End(AllFailed);
      }
      var endpoint := s.available[best.value];
      if limits.publicFirst && endpoint.role == Public && s.publics >= limits.publicFirstAttempts {
        return Skip(endpoint);
      }
      return Try(endpoint);
    }

    /** One dispatch: spend a usage unit, forward, and answer the client if that settles it. */
    method Dispatch(w: ResponseWriter, s: State, c: Candidate, reply: Reply) returns (answered: bool)
      modifies this, w
      ensures answered == Answers(s, reply)
      ensures Now(w) == if answered then AfterRequest(old(Now(w)), Answer(s, c, reply))
                        else AfterAttempt(old(Now(w)), Attempt(c, reply))
    {
      if Answers(s, reply) {
        AnswerEffects(Now(w), s, c, reply);
      }
      usage := usage + [c.id];
      Forward(w, c.id, reply);
      if reply.Success? {
        if s.first400.Some? {
          failures := failures + [s.first400.value];
        }
        requestCounts := requestCounts[c.id := (if c.id in requestCounts then requestCounts[c.id] else 0) + 1];
        successes := successes + [c.id];
        return true;
      }
      if reply.BadRequest? && s.first400.Some? {
        w.Send(Whole(PassedThrough(c.id)));
        return true;
      }
      return false;
    }

    /** The dispatching turn: answer the client, or go on without the endpoint. */
    method TryEndpoint(w: ResponseWriter, env: Environment, s: State, c: Candidate)
      returns (ending: Ending, next: State)
      requires NextMove(limits, env, s) == Try(c)
      modifies this, w
      ensures if ending.Answered? then Now(w) == AfterRequest(old(Now(w)), Serve(limits, env, s))
              else ending.GoesOn? && Onward(old(Now(w)), Now(w), limits, env, s, next)
    {
      ServeUnfolds(limits, env, s);
      var reply := ReplyOf(TurnAt(env, s.turn).replies, c.id);
      var answered := Dispatch(w, s, c, reply);
      if answered {
        return Answered, s;
      }
      var remaining := RemoveEndpointByID(s.available, c.id);
      next := State(s.turn + 1, remaining, s.retries + 1, s.publics + (if c.role == Public then 1 else 0),
                    if reply.BadRequest? then Some(c.id) else s.first400);
      assert next == AfterFailure(s, c, reply);
      AttemptFirst(old(Now(w)), Attempt(c, reply), Serve(limits, env, next));
      return GoesOn, next;
    }

    /** One turn of the loop: it answers the client, gives up, or goes on in a new state. */
    method TakeTurn(w: ResponseWriter, env: Environment, s: State) returns (ending: Ending, next: State)
      requires s.retries < limits.maxRetries && s.available != []
      modifies this, w
      ensures ending.Answered? ==> Now(w) == AfterRequest(old(Now(w)), Serve(limits, env, s))
      ensures ending.GaveUp? ==> Now(w) == old(Now(w)) && Serve(limits, env, s) == Outcome(AllFailed, [], None)
      ensures ending.GoesOn? ==> Onward(old(Now(w)), Now(w), limits, env, s, next)
    {
      ServeUnfolds(limits, env, s);
      var m := ChooseMove(env, s);
      match m
      case End(response) =>
        assert Serve(limits, env, s) == Outcome(response, [], None);
        if response == TimedOut {
          w.Send(Whole(TimedOut));
          return Answered, s;
        }
        return GaveUp, s;
      case Skip(c) =>
        var remaining := RemoveEndpointByID(s.available, c.id);
        next := s.(turn := s.turn + 1, available := remaining);
        assert next == AfterSkip(s, c);
        return GoesOn, next;
      case Try(c) =>
        ending, next := TryEndpoint(w, env, s, c);
    }

    /** The handler has exactly the effects of the specification: the same dispatches, one
        usage unit each, the same writes, and one success or charge recorded. */
    method HandleRequestHTTP(w: ResponseWriter, env: Environment, available: seq<Candidate>)
      modifies this, w
      ensures Now(w) == AfterRequest(old(Now(w)), Handle(limits, env, available))
    {
      if |available| == 0 {
        w.Send(Whole(Unavailable));
        return;
      }
      var s := Start(available);
      while s.retries < limits.maxRetries && |s.available| > 0
        invariant AfterRequest(Now(w), Serve(limits, env, s)) ==
          AfterRequest(old(Now(w)), Handle(limits, env, available))
        decreases |s.available|
      {
        var ending, next := TakeTurn(w, env, s);
        if ending.Answered? {
          return;
        }
        if ending.GaveUp? {
          break;
        }
        s := next;
      }
      ServeUnfolds(limits, env, s);
      if s.retries >= limits.maxRetries {
        w.Send(Whole(MaxRetriesReached));
      } else {
        w.Send(Whole(AllFailed));
      }
    }
  }
}
