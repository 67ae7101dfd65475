/** Listing and choosing endpoints (internal/server/server.go): which endpoints a request may
    use, and which of them it tries next. */
module Selection {
  import opened Prelude
  import opened CapacityControl

  datatype Role = Public | Primary | Fallback | Unlisted

  datatype Candidate = Candidate(id: string, role: Role)

  // ---- Listing --------------------------------------------------------------------------

  datatype Health = Health(hasHTTP: bool, hasWS: bool, healthyHTTP: bool, healthyWS: bool)

  /** What one pass over an endpoint reads; None stands for a failed read. */
  datatype Facts = Facts(
    role: Role, archive: bool,
    health: Option<Health>, rateLimited: Option<bool>, ceiling: Option<Ceiling>, windowCount: Option<nat>)

  datatype Wanted = Wanted(archive: bool, ws: bool, throttling: bool)

  predicate GateOpen(f: Facts) {
    f.ceiling.None? || f.windowCount.None? || f.windowCount.value < f.ceiling.value.maxRequests
  }

  /** An unreadable status hides an endpoint; an unreadable rate-limit state, ceiling or
      counter does not. */
  predicate Usable(f: Facts, wanted: Wanted) {
    && (wanted.archive ==> f.archive)
    && f.health.Some?
    && f.rateLimited != Some(true)
    && (wanted.throttling ==> GateOpen(f))
    && (if wanted.ws then f.health.value.hasWS && f.health.value.healthyWS
        else f.health.value.hasHTTP && f.health.value.healthyHTTP)
  }

  /** An endpoint at its ceiling is hidden, one request below it is as good as one without a
      ceiling, and a failed read of the counter, the ceiling or the rate limit hides nothing. */
  lemma CeilingHidesFromItsValueOn(f: Facts, wanted: Wanted, c: Ceiling, count: nat)
    requires wanted.throttling
    ensures
      var gated := f.(ceiling := Some(c), windowCount := Some(count));
      Usable(gated, wanted) <==> count < c.maxRequests && Usable(gated.(ceiling := None), wanted)
    ensures Usable(f.(windowCount := None), wanted) <==> Usable(f.(windowCount := None, ceiling := None), wanted)
    ensures Usable(f, wanted.(throttling := false)) <==> Usable(f.(ceiling := None), wanted)
  {
  }

  /** The other conditions, one by one: a usable endpoint has a readable status with the wanted
      protocol offered and healthy, whatever the other protocol is like, is not limited, and
      keeps an archive if one is wanted. */
  lemma WhatHidesAnEndpoint(f: Facts, wanted: Wanted, s: Health)
    ensures !Usable(f.(health := None), wanted) && !Usable(f.(rateLimited := Some(true)), wanted)
    ensures Usable(f.(rateLimited := None), wanted) <==> Usable(f.(rateLimited := Some(false)), wanted)
    ensures wanted.archive ==> !Usable(f.(archive := false), wanted)
    ensures !wanted.archive ==> (Usable(f.(archive := false), wanted) <==> Usable(f.(archive := true), wanted))
    ensures Usable(f.(health := Some(s)), wanted.(ws := false)) ==> s.hasHTTP && s.healthyHTTP
    ensures Usable(f.(health := Some(s)), wanted.(ws := true)) ==> s.hasWS && s.healthyWS
    ensures
      var up := Facts(f.role, true, Some(Health(true, true, true, true)), Some(false), None, None);
      && Usable(up, wanted)
      && Usable(up.(health := Some(Health(true, false, true, false))), wanted.(ws := false))
      && Usable(up.(health := Some(Health(false, true, false, true))), wanted.(ws := true))
  {
  }

  predicate DistinctIds(list: seq<Candidate>) {
    forall i, j :: 0 <= i < j < |list| ==> list[i].id != list[j].id
  }

  /** The chain's endpoints are visited in an arbitrary order, each once. */
  method GetEndpointsByRole(chain: map<string, Facts>, role: Role, wanted: Wanted) returns (list: seq<Candidate>)
    ensures forall c :: c in list <==>
      c.role == role && c.id in chain && chain[c.id].role == role && Usable(chain[c.id], wanted)
    ensures DistinctIds(list)
  {
    list := [];
    var todo := chain.Keys;
    while todo != {}
      invariant todo <= chain.Keys
      invariant forall c :: c in list <==>
        c.role == role && c.id in chain && c.id !in todo && chain[c.id].role == role && Usable(chain[c.id], wanted)
      invariant DistinctIds(list)
      decreases |todo|
    {
      var id :| id in todo;
      todo := todo - {id};
      var f := chain[id];
      if f.role == role {
        if !wanted.archive || f.archive {
          if f.health.None? {
            continue;
          }
          if f.rateLimited.Some? && f.rateLimited.value {
            continue;
          }
          if wanted.throttling && f.ceiling.Some? && f.windowCount.Some? &&
             f.windowCount.value >= f.ceiling.value.maxRequests {
            continue;
          }
          if wanted.ws {
            if f.health.value.hasWS && f.health.value.healthyWS {
              list := list + [Candidate(id, role)];
            }
          } else {
            if f.health.value.hasHTTP && f.health.value.healthyHTTP {
              list := list + [Candidate(id, role)];
            }
          }
        }
      }
    }
  }

  function PriorityOrder(publicFirst: bool): seq<Role> {
    if publicFirst then [Public, Primary, Fallback] else [Primary, Fallback, Public]
  }

  /** A role's place in the priority order; a role outside the order comes last. */
  function Rank(publicFirst: bool, role: Role): nat {
    match role
    case Public => if publicFirst then 0 else 2
    case Primary => if publicFirst then 1 else 0
    case Fallback => if publicFirst then 2 else 1
    case Unlisted => 3
  }

  /** The request's working list: each usable endpoint once, best role first. */
  method GetAvailableEndpoints(chain: map<string, Facts>, publicFirst: bool, wanted: Wanted)
    returns (list: seq<Candidate>)
    ensures forall c :: c in list <==>
      c.role != Unlisted && c.id in chain && chain[c.id].role == c.role && Usable(chain[c.id], wanted)
    ensures DistinctIds(list)
    ensures forall i, j :: 0 <= i < j < |list| ==> Rank(publicFirst, list[i].role) <= Rank(publicFirst, list[j].role)
  {
    var publics := GetEndpointsByRole(chain, Public, wanted);
    var primaries := GetEndpointsByRole(chain, Primary, wanted);
    var fallbacks := GetEndpointsByRole(chain, Fallback, wanted);
    if publicFirst {
      list := publics + primaries + fallbacks;
    } else {
      list := primaries + fallbacks + publics;
    }
  }

  // ---- Choosing -------------------------------------------------------------------------

  /** The counters and ceilings one selection reads. An absent ceiling is an endpoint without
      one. An absent count is a failed read, which the selection guards against; this store
      reports none, it reads 0 instead. */
  datatype View = View(counts: map<string, nat>, ceilings: map<string, Ceiling>)

  /** A ceiling projected out to 24 hours, the span of the request counts. */
  function DailyBudget(c: Ceiling): real
    requires c.windowSeconds > 0
  {
    c.maxRequests as real * (86400.0 / c.windowSeconds as real)
  }

  /** The 24-hour count, or its share of the daily budget. */
  function Score(view: View, id: string, weighted: bool): real
    requires id in view.counts && (weighted ==> id in view.ceilings)
  {
    var count := view.counts[id] as real;
    if weighted && view.ceilings[id].windowSeconds > 0 then
      var dailyBudget := DailyBudget(view.ceilings[id]);
      if dailyBudget > 0.0 then count / dailyBudget else count
    else count
  }

  predicate AllHaveCeilings(list: seq<Candidate>, role: Role, view: View) {
    forall i :: 0 <= i < |list| && list[i].role == role ==> list[i].id in view.ceilings
  }

  predicate Eligible(list: seq<Candidate>, role: Role, view: View, i: int) {
    0 <= i < |list| && list[i].role == role && list[i].id in view.counts
  }

  function ScoreAt(list: seq<Candidate>, role: Role, view: View, i: int): real
    requires Eligible(list, role, view, i)
  {
    Score(view, list[i].id, AllHaveCeilings(list, role, view))
  }

  /** `best` is the first candidate of the role with the least score, None if there is none. */
  ghost predicate FirstLeast(list: seq<Candidate>, role: Role, view: View, best: Option<nat>) {
    match best
    case None => forall i :: !Eligible(list, role, view, i)
    case Some(k) =>
      && Eligible(list, role, view, k)
      && forall i :: Eligible(list, role, view, i) ==>
           && ScoreAt(list, role, view, k) <= ScoreAt(list, role, view, i)
           && (i < k ==> ScoreAt(list, role, view, k) < ScoreAt(list, role, view, i))
  }

  lemma FirstLeastIsUnique(list: seq<Candidate>, role: Role, view: View, a: Option<nat>, b: Option<nat>)
    requires FirstLeast(list, role, view, a) && FirstLeast(list, role, view, b)
    ensures a == b
  {
  }

  /** The best candidate among the first n, as a fold over the list. */
  function BestAmong(list: seq<Candidate>, role: Role, view: View, n: nat): Option<nat>
    requires n <= |list|
    ensures BestAmong(list, role, view, n).Some? ==>
      BestAmong(list, role, view, n).value < n && Eligible(list, role, view, BestAmong(list, role, view, n).value)
  {
    if n == 0 then None
    else
      var best := BestAmong(list, role, view, n - 1);
      if !Eligible(list, role, view, n - 1) then best
      else if best.None? || ScoreAt(list, role, view, n - 1) < ScoreAt(list, role, view, best.value) then Some(n - 1)
      else best
  }

  function SelectBestByRole(list: seq<Candidate>, role: Role, view: View): Option<nat> {
    BestAmong(list, role, view, |list|)
  }

  lemma {:induction false} BestAmongIsFirstLeast(list: seq<Candidate>, role: Role, view: View, n: nat)
    requires n <= |list|
    ensures
      var best := BestAmong(list, role, view, n);
      && (best.None? ==> forall i :: 0 <= i < n ==> !Eligible(list, role, view, i))
      && (best.Some? ==> forall i :: 0 <= i < n && Eligible(list, role, view, i) ==>
           && ScoreAt(list, role, view, best.value) <= ScoreAt(list, role, view, i)
           && (i < best.value ==> ScoreAt(list, role, view, best.value) < ScoreAt(list, role, view, i)))
  {
    if n > 0 {
      BestAmongIsFirstLeast(list, role, view, n - 1);
    }
  }

  lemma SelectionIsFirstLeast(list: seq<Candidate>, role: Role, view: View)
    ensures FirstLeast(list, role, view, SelectBestByRole(list, role, view))
  {
    BestAmongIsFirstLeast(list, role, view, |list|);
  }

  /** First pass: the role's candidates in list order, and whether all have a ceiling. */
  method CollectCandidates(list: seq<Candidate>, role: Role, view: View)
    returns (candidates: seq<nat>, allHaveCeiling: bool)
    ensures forall a :: 0 <= a < |candidates| ==> candidates[a] < |list| && list[candidates[a]].role == role
    ensures forall k :: 0 <= k < |list| && list[k].role == role ==> k in candidates
    ensures forall a, b :: 0 <= a < b < |candidates| ==> candidates[a] < candidates[b]
    ensures allHaveCeiling == AllHaveCeilings(list, role, view)
  {
    candidates, allHaveCeiling := [], true;
    var i := 0;
    while i < |list|
      invariant 0 <= i <= |list|
      invariant forall a :: 0 <= a < |candidates| ==> candidates[a] < i && list[candidates[a]].role == role
      invariant forall k :: 0 <= k < i && list[k].role == role ==> k in candidates
      invariant forall a, b :: 0 <= a < b < |candidates| ==> candidates[a] < candidates[b]
      invariant allHaveCeiling <==> forall k :: 0 <= k < i && list[k].role == role ==> list[k].id in view.ceilings
    {
      if list[i].role == role {
        candidates := candidates + [i];
        if list[i].id !in view.ceilings {
          allHaveCeiling := false;
        }
      }
      i := i + 1;
    }
  }

  /** Second pass: keep the lowest score seen, -1 marking that none was. */
  method SelectBestEndpointByRole(list: seq<Candidate>, role: Role, view: View) returns (best: Option<nat>)
    ensures best == SelectBestByRole(list, role, view)
    ensures FirstLeast(list, role, view, best)
  {
    var candidates, allHaveCeiling := CollectCandidates(list, role, view);
    best := None;
    var minScore := -1.0;
    var n := 0;
    ghost var seen := 0;
    while n < |candidates|
      invariant 0 <= n <= |candidates|
      invariant 0 <= seen <= |list| && seen == if n == 0 then 0 else candidates[n - 1] + 1
      invariant best == BestAmong(list, role, view, seen)
      invariant if best.None? then minScore == -1.0 else minScore == ScoreAt(list, role, view, best.value) >= 0.0
    {
      var c := candidates[n];
      NoneBetween(candidates, list, role, n);
      BestAmongSkips(list, role, view, seen, c);
      seen := c + 1;
      n := n + 1;
      if list[c].id !in view.counts {
        continue;
      }
      ScoreIsNonNegative(view, list[c].id, allHaveCeiling);
      var score := Score(view, list[c].id, allHaveCeiling);
      if minScore == -1.0 || score < minScore {
        minScore := score;
        best := Some(c);
      }
    }
    NoneBetween(candidates, list, role, n);
    BestAmongSkips(list, role, view, seen, |list|);
    SelectionIsFirstLeast(list, role, view);
  }

  /** Between consecutive candidates nothing has the role. */
  lemma NoneBetween(candidates: seq<nat>, list: seq<Candidate>, role: Role, n: nat)
    requires n <= |candidates|
    requires forall a :: 0 <= a < |candidates| ==> candidates[a] < |list|
    requires forall k :: 0 <= k < |list| && list[k].role == role ==> k in candidates
    requires forall a, b :: 0 <= a < b < |candidates| ==> candidates[a] < candidates[b]
    ensures
      var lo := if n == 0 then 0 else candidates[n - 1] + 1;
      var hi := if n == |candidates| then |list| else candidates[n];
      lo <= hi && forall k :: lo <= k < hi ==> list[k].role != role
  {
    var lo := if n == 0 then 0 else candidates[n - 1] + 1;
    var hi := if n == |candidates| then |list| else candidates[n];
    forall k | lo <= k < hi ensures list[k].role != role {
      if list[k].role == role {
        assert false;
      }
    }
  }

  lemma {:induction false} BestAmongSkips(list: seq<Candidate>, role: Role, view: View, lo: nat, hi: nat)
    requires lo <= hi <= |list|
    requires forall k :: lo <= k < hi ==> list[k].role != role
    ensures BestAmong(list, role, view, hi) == BestAmong(list, role, view, lo)
    decreases hi
  {
    if lo < hi {
      BestAmongSkips(list, role, view, lo, hi - 1);
    }
  }

  lemma ScoreIsNonNegative(view: View, id: string, weighted: bool)
    requires id in view.counts && (weighted ==> id in view.ceilings)
    ensures Score(view, id, weighted) >= 0.0
  {
  }

  /** The first role of the order that has an eligible candidate provides it. */
  function SelectBest(list: seq<Candidate>, publicFirst: bool, view: View): (best: Option<nat>)
    ensures best.Some? ==> best.value < |list| && list[best.value].role != Unlisted
  {
    var order := PriorityOrder(publicFirst);
    var first := SelectBestByRole(list, order[0], view);
    if first.Some? then first
    else
      var second := SelectBestByRole(list, order[1], view);
      if second.Some? then second else SelectBestByRole(list, order[2], view)
  }

  method SelectBestEndpoint(list: seq<Candidate>, publicFirst: bool, view: View) returns (best: Option<nat>)
    ensures best == SelectBest(list, publicFirst, view)
  {
    if |list| == 0 {
      return None;
    }
    var order := PriorityOrder(publicFirst);
    var n := 0;
    while n < |order|
      invariant 0 <= n <= 3 == |order|
      invariant forall k :: 0 <= k < n ==> SelectBestByRole(list, order[k], view).None?
    {
      best := SelectBestEndpointByRole(list, order[n], view);
      if best.Some? {
        return;
      }
      n := n + 1;
    }
    best := None;
  }

  /** Failed reads of other counts never leave a readable candidate of a known role unserved. */
  lemma SomeIsSelected(list: seq<Candidate>, publicFirst: bool, view: View, i: nat)
    requires i < |list| && list[i].role != Unlisted && list[i].id in view.counts
    ensures SelectBest(list, publicFirst, view).Some?
  {
    SelectionIsFirstLeast(list, list[i].role, view);
    assert Eligible(list, list[i].role, view, i);
    assert list[i].role in PriorityOrder(publicFirst);
  }

  ghost predicate Offers(list: seq<Candidate>, role: Role, view: View) {
    exists i :: Eligible(list, role, view, i)
  }

  /** The roles by name: public, primary, fallback in public-first mode, otherwise primary,
      fallback, public; the first one with a readable candidate provides the choice. */
  lemma RolesByName(list: seq<Candidate>, publicFirst: bool, view: View)
    ensures
      var best := SelectBest(list, publicFirst, view);
      var role := if best.Some? then list[best.value].role else Unlisted;
      role ==
        if publicFirst && Offers(list, Public, view) then Public
        else if Offers(list, Primary, view) then Primary
        else if Offers(list, Fallback, view) then Fallback
        else if Offers(list, Public, view) then Public
        else Unlisted
    ensures
      if publicFirst then Rank(publicFirst, Public) < Rank(publicFirst, Primary) < Rank(publicFirst, Fallback)
      else Rank(publicFirst, Primary) < Rank(publicFirst, Fallback) < Rank(publicFirst, Public)
  {
    SelectionIsFirstLeast(list, Public, view);
    SelectionIsFirstLeast(list, Primary, view);
    SelectionIsFirstLeast(list, Fallback, view);
  }

  /** The views agree on the endpoints of the role. */
  predicate SameForRole(list: seq<Candidate>, role: Role, a: View, b: View) {
    forall i :: 0 <= i < |list| && list[i].role == role ==>
      && (list[i].id in a.counts <==> list[i].id in b.counts)
      && (list[i].id in a.counts ==> a.counts[list[i].id] == b.counts[list[i].id])
      && (list[i].id in a.ceilings <==> list[i].id in b.ceilings)
      && (list[i].id in a.ceilings ==> a.ceilings[list[i].id] == b.ceilings[list[i].id])
  }

  /** Whether a role's endpoints are weighed by ceilings, and which is chosen, depends on that
      role's endpoints alone, whatever else is on the list. */
  lemma {:induction false} OtherRolesDoNotMatter(list: seq<Candidate>, role: Role, a: View, b: View, n: nat)
    requires n <= |list| && SameForRole(list, role, a, b)
    ensures BestAmong(list, role, a, n) == BestAmong(list, role, b, n)
    ensures n == |list| ==> SelectBestByRole(list, role, a) == SelectBestByRole(list, role, b)
  {
    assert AllHaveCeilings(list, role, a) == AllHaveCeilings(list, role, b);
    if n > 0 {
      OtherRolesDoNotMatter(list, role, a, b, n - 1);
      assert Eligible(list, role, a, n - 1) == Eligible(list, role, b, n - 1);
    }
  }

  predicate Readable(list: seq<Candidate>, view: View) {
    forall i :: 0 <= i < |list| ==> list[i].id in view.counts
  }

  predicate Listed(list: seq<Candidate>) {
    forall i :: 0 <= i < |list| ==> list[i].role != Unlisted
  }

  /** When every count can be read, the choice has the best role on the list, the least score
      in that role, and exists whenever the list is not empty. */
  lemma SelectionFollowsPriority(list: seq<Candidate>, publicFirst: bool, view: View)
    requires Readable(list, view) && Listed(list)
    ensures
      var best := SelectBest(list, publicFirst, view);
      && (best.None? <==> list == [])
      && (best.Some? ==>
          && FirstLeast(list, list[best.value].role, view, best)
          && forall i :: 0 <= i < |list| ==>
               Rank(publicFirst, list[best.value].role) <= Rank(publicFirst, list[i].role))
  {
    var order := PriorityOrder(publicFirst);
    SelectionIsFirstLeast(list, order[0], view);
    SelectionIsFirstLeast(list, order[1], view);
    SelectionIsFirstLeast(list, order[2], view);
    forall i | 0 <= i < |list| ensures Eligible(list, list[i].role, view, i) {
    }
  }

  /** Without ceilings the choice has the least count of its role. */
  lemma LeastCount(list: seq<Candidate>, publicFirst: bool, view: View)
    requires Readable(list, view) && Listed(list) && view.ceilings == map[] && list != []
    ensures
      var best := SelectBest(list, publicFirst, view);
      && best.Some?
      && forall x :: x in list && x.role == list[best.value].role ==>
           view.counts[list[best.value].id] <= view.counts[x.id]
  {
    SelectionFollowsPriority(list, publicFirst, view);
    var k := SelectBest(list, publicFirst, view).value;
    assert !AllHaveCeilings(list, list[k].role, view);
    forall x | x in list && x.role == list[k].role ensures view.counts[list[k].id] <= view.counts[x.id] {
      var i :| 0 <= i < |list| && list[i] == x;
      assert Eligible(list, list[k].role, view, i);
      assert ScoreAt(list, list[k].role, view, k) <= ScoreAt(list, list[k].role, view, i);
    }
  }
}
