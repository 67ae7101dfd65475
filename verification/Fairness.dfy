/** Fairness of the selection over whole runs (internal/server/server.go): a fixed set of
    endpoints of one role serves request after request, starting from zero counts, each
    request listing the endpoints in an order of its own and nothing else changing the
    counts. */
module Fairness {
  import opened CapacityControl
  import opened Failover
  import opened Prelude
  import opened Selection

  type Ceilings = map<string, Ceiling>

  /** A request's list: exactly the pool, all of the one role. */
  ghost predicate Lists(list: seq<Candidate>, pool: set<string>, role: Role) {
    && (forall i :: 0 <= i < |list| ==> list[i].role == role && list[i].id in pool)
    && (forall id :: id in pool ==> exists i :: 0 <= i < |list| && list[i].id == id)
  }

  ghost predicate Orders(orders: seq<seq<Candidate>>, pool: set<string>, role: Role) {
    forall n :: 0 <= n < |orders| ==> Lists(orders[n], pool, role)
  }

  function ZeroCounts(pool: set<string>): map<string, nat> {
    map id | id in pool :: 0
  }

  /** One served request: the selected endpoint's count goes up by one. */
  function AfterServed(counts: map<string, nat>, list: seq<Candidate>, role: Role, ceilings: Ceilings)
    : map<string, nat>
  {
    var best := SelectBestByRole(list, role, View(counts, ceilings));
    if best.None? then counts
    else
      var id := list[best.value].id;
      counts[id := counts[id] + 1]
  }

  function CountsAfter(pool: set<string>, orders: seq<seq<Candidate>>, role: Role, ceilings: Ceilings)
    : map<string, nat>
  {
    if orders == [] then ZeroCounts(pool)
    else AfterServed(CountsAfter(pool, orders[..|orders| - 1], role, ceilings), orders[|orders| - 1], role, ceilings)
  }

  /** What the first turn of a request reads and meets: these counts and ceilings, no deadline,
      and an endpoint that answers whichever is chosen. */
  ghost predicate ServesAtOnce(turn: Turn, list: seq<Candidate>, counts: map<string, nat>, ceilings: Ceilings) {
    && !turn.expired && turn.view == View(counts, ceilings)
    && forall c :: c in list ==> ReplyOf(turn.replies, c.id).Success?
  }

  /** The counts of these runs are the handler's: a whole request that is served at once leaves
      the request counts as AfterServed says. */
  lemma RequestCountsOneServed(limits: Limits, env: Environment, list: seq<Candidate>, pool: set<string>, role: Role,
                               e: Effects, ceilings: Ceilings)
    requires pool != {} && Lists(list, pool, role) && e.requestCounts.Keys == pool && role != Unlisted
    requires env != [] && ServesAtOnce(env[0], list, e.requestCounts, ceilings)
    requires limits.maxRetries >= 1 && (limits.publicFirst && role == Public ==> limits.publicFirstAttempts >= 1)
    ensures AfterRequest(e, Handle(limits, env, list)).requestCounts
         == AfterServed(e.requestCounts, list, role, ceilings)
  {
    OneRoleIsSelected(list, role, limits.publicFirst, View(e.requestCounts, ceilings));
    var k := ChosenIndex(e.requestCounts, list, pool, role, ceilings);
    assert SelectBest(list, limits.publicFirst, env[0].view) == Some(k);
    assert list[k] in list && ReplyOf(env[0].replies, list[k].id).Success?;
    FirstDispatchServes(limits, env, list, k, e);
  }

  lemma ChosenIndex(counts: map<string, nat>, list: seq<Candidate>, pool: set<string>, role: Role, ceilings: Ceilings)
    returns (k: nat)
    requires pool != {} && Lists(list, pool, role) && counts.Keys == pool
    ensures k < |list| && list[k].id in pool && list[k].role == role
    ensures SelectBestByRole(list, role, View(counts, ceilings)) == Some(k)
    ensures AfterServed(counts, list, role, ceilings) == counts[list[k].id := counts[list[k].id] + 1]
  {
    var id := ServedPicksLeast(counts, list, pool, role, ceilings);
    k := SelectBestByRole(list, role, View(counts, ceilings)).value;
  }

  /** On a list of one role the selection is the one within that role. */
  lemma OneRoleIsSelected(list: seq<Candidate>, role: Role, publicFirst: bool, view: View)
    requires role != Unlisted && forall i :: 0 <= i < |list| ==> list[i].role == role
    ensures SelectBest(list, publicFirst, view) == SelectBestByRole(list, role, view)
  {
    forall other | other != role ensures SelectBestByRole(list, other, view).None? {
      SelectionIsFirstLeast(list, other, view);
    }
  }

  predicate AllCeilings(pool: set<string>, ceilings: Ceilings) {
    forall id :: id in pool ==> id in ceilings && ceilings[id].maxRequests >= 1 && ceilings[id].windowSeconds >= 1
  }

  lemma BudgetIsPositive(c: Ceiling)
    requires c.maxRequests >= 1 && c.windowSeconds >= 1
    ensures DailyBudget(c) > 0.0
  {
    var rate := 86400.0 / c.windowSeconds as real;
    assert rate > 0.0;
    ProductIsPositive(c.maxRequests as real, rate);
  }

  lemma ProductIsPositive(x: real, y: real)
    requires x > 0.0 && y > 0.0
    ensures x * y > 0.0
  {
  }

  lemma QuotientsCompare(a: real, b: real, c: real, d: real)
    requires b > 0.0 && d > 0.0 && a / b <= c / d
    ensures a * d <= c * b
  {
    var x, y := a / b, c / d;
    assert a == x * b && c == y * d;
    assert a * d == x * (b * d) && c * b == y * (b * d);
    ProductIsPositive(b, d);
    assert (y - x) * (b * d) >= 0.0;
    assert (y - x) * (b * d) == y * (b * d) - x * (b * d);
  }

  /** One request picks a pool endpoint of least score, and only its count changes. */
  lemma ServedPicksLeast(counts: map<string, nat>, list: seq<Candidate>, pool: set<string>, role: Role,
                         ceilings: Ceilings)
    returns (id: string)
    requires pool != {} && Lists(list, pool, role) && counts.Keys == pool
    ensures id in pool && AfterServed(counts, list, role, ceilings) == counts[id := counts[id] + 1]
    ensures
      var weighted := AllHaveCeilings(list, role, View(counts, ceilings));
      && (forall j :: j in pool && weighted ==> j in ceilings)
      && (weighted ==> id in ceilings)
      && forall j :: j in pool ==>
           Score(View(counts, ceilings), id, weighted) <= Score(View(counts, ceilings), j, weighted)
  {
    var view := View(counts, ceilings);
    SelectionIsFirstLeast(list, role, view);
    var best := SelectBestByRole(list, role, view);
    var some :| some in pool;
    var k :| 0 <= k < |list| && list[k].id == some;
    assert Eligible(list, role, view, k);
    id := list[best.value].id;
    forall j | j in pool
      ensures AllHaveCeilings(list, role, view) ==> j in ceilings
      ensures Score(view, id, AllHaveCeilings(list, role, view)) <= Score(view, j, AllHaveCeilings(list, role, view))
    {
      var i :| 0 <= i < |list| && list[i].id == j;
      assert Eligible(list, role, view, i);
      assert ScoreAt(list, role, view, best.value) <= ScoreAt(list, role, view, i);
    }
  }

  // ---- Weighted by ceilings -------------------------------------------------------------

  /** Endpoint i is at most one request ahead of its share relative to every j. */
  ghost predicate WithinOne(counts: map<string, nat>, ceilings: Ceilings, pool: set<string>)
    requires AllCeilings(pool, ceilings) && counts.Keys == pool
  {
    forall i, j :: i in pool && j in pool ==>
      NotAhead(counts[i], DailyBudget(ceilings[i]), counts[j], DailyBudget(ceilings[j]))
  }

  /** Without its last request, count r for budget b is not above count q for budget c. */
  predicate NotAhead(r: nat, b: real, q: nat, c: real) {
    (r as real - 1.0) * c <= q as real * b
  }

  predicate NotAbove(r: nat, b: real, q: nat, c: real) {
    r as real * c <= q as real * b
  }

  lemma PairAfterRequest(r: nat, b: real, q: nat, c: real, rGrows: bool, qGrows: bool)
    requires b > 0.0 && NotAhead(r, b, q, c)
    requires rGrows ==> NotAbove(r, b, q, c)
    ensures NotAhead(if rGrows then r + 1 else r, b, if qGrows then q + 1 else q, c)
  {
    Distribute(q as real, b);
    assert (q + 1) as real == q as real + 1.0 && (r + 1) as real - 1.0 == r as real;
  }

  lemma LeastScoreComparesBudgets(counts: map<string, nat>, ceilings: Ceilings, pool: set<string>, i: string, j: string)
    requires AllCeilings(pool, ceilings) && counts.Keys == pool && i in pool && j in pool
    requires Score(View(counts, ceilings), i, true) <= Score(View(counts, ceilings), j, true)
    ensures NotAbove(counts[i], DailyBudget(ceilings[i]), counts[j], DailyBudget(ceilings[j]))
  {
    BudgetIsPositive(ceilings[i]);
    BudgetIsPositive(ceilings[j]);
    QuotientsCompare(counts[i] as real, DailyBudget(ceilings[i]), counts[j] as real, DailyBudget(ceilings[j]));
  }

  lemma Distribute(x: real, b: real)
    ensures (x - 1.0) * b == x * b - b && (x + 1.0) * b == x * b + b
  {
  }

  lemma ServedStaysWithinOne(counts: map<string, nat>, list: seq<Candidate>, pool: set<string>, role: Role,
                             ceilings: Ceilings)
    requires pool != {} && AllCeilings(pool, ceilings) && Lists(list, pool, role) && counts.Keys == pool
    requires WithinOne(counts, ceilings, pool)
    ensures AfterServed(counts, list, role, ceilings).Keys == pool
    ensures WithinOne(AfterServed(counts, list, role, ceilings), ceilings, pool)
  {
    var id := ServedPicksLeast(counts, list, pool, role, ceilings);
    var after := counts[id := counts[id] + 1];
    assert AllHaveCeilings(list, role, View(counts, ceilings));
    forall i, j | i in pool && j in pool
      ensures NotAhead(after[i], DailyBudget(ceilings[i]), after[j], DailyBudget(ceilings[j]))
    {
      BudgetIsPositive(ceilings[i]);
      if i == id {
        LeastScoreComparesBudgets(counts, ceilings, pool, i, j);
      }
      PairAfterRequest(counts[i], DailyBudget(ceilings[i]), counts[j], DailyBudget(ceilings[j]), i == id, j == id);
    }
  }

  /** After every request of every run, with every ceiling known, no endpoint is more than one
      request ahead of any other relative to their daily budgets. */
  lemma {:induction false} WeightedFairness(pool: set<string>, orders: seq<seq<Candidate>>, role: Role,
                                            ceilings: Ceilings)
    requires pool != {} && AllCeilings(pool, ceilings) && Orders(orders, pool, role)
    ensures CountsAfter(pool, orders, role, ceilings).Keys == pool
    ensures WithinOne(CountsAfter(pool, orders, role, ceilings), ceilings, pool)
  {
    if orders == [] {
      forall i, j | i in pool && j in pool
        ensures NotAhead(0, DailyBudget(ceilings[i]), 0, DailyBudget(ceilings[j]))
      {
        BudgetIsPositive(ceilings[j]);
      }
    } else {
      WeightedFairness(pool, orders[..|orders| - 1], role, ceilings);
      ServedStaysWithinOne(CountsAfter(pool, orders[..|orders| - 1], role, ceilings), orders[|orders| - 1], pool,
                           role, ceilings);
    }
  }

  /** The same comparison in whole numbers, on the ceilings themselves. */
  predicate NotAheadOf(r: nat, a: Ceiling, q: nat, c: Ceiling) {
    (r as int - 1) * a.windowSeconds * c.maxRequests <= q * c.windowSeconds * a.maxRequests
  }

  lemma BudgetsToCeilings(r: nat, a: Ceiling, q: nat, c: Ceiling)
    requires a.windowSeconds >= 1 && c.windowSeconds >= 1
    requires NotAhead(r, DailyBudget(a), q, DailyBudget(c))
    ensures NotAheadOf(r, a, q, c)
  {
    var s: int := r as int - 1;
    assert s as real == r as real - 1.0;
    ClearWindows(s as real, c.maxRequests as real, c.windowSeconds as real, q as real, a.maxRequests as real,
                 a.windowSeconds as real);
    IntegerProduct(s, a.windowSeconds, c.maxRequests);
    IntegerProduct(q, c.windowSeconds, a.maxRequests);
  }

  /** The fairness bound as it reads on the configuration: after every request
      (r_i - 1) * w_i * m_j <= r_j * w_j * m_i for all i and j. */
  lemma WeightedFairnessOnCeilings(pool: set<string>, orders: seq<seq<Candidate>>, role: Role, ceilings: Ceilings,
                                   i: string, j: string)
    requires AllCeilings(pool, ceilings) && Orders(orders, pool, role) && i in pool && j in pool
    ensures
      var counts := CountsAfter(pool, orders, role, ceilings);
      counts.Keys == pool && NotAheadOf(counts[i], ceilings[i], counts[j], ceilings[j])
  {
    WeightedFairness(pool, orders, role, ceilings);
    var counts := CountsAfter(pool, orders, role, ceilings);
    assert NotAhead(counts[i], DailyBudget(ceilings[i]), counts[j], DailyBudget(ceilings[j]));
    BudgetsToCeilings(counts[i], ceilings[i], counts[j], ceilings[j]);
  }

  lemma IntegerProduct(a: int, b: int, c: int)
    ensures (a * b * c) as real == a as real * b as real * c as real
  {
  }

  /** Multiplying through by both windows. */
  lemma ClearWindows(x: real, m: real, w: real, y: real, n: real, v: real)
    requires w > 0.0 && v > 0.0 && x * (m * (86400.0 / w)) <= y * (n * (86400.0 / v))
    ensures x * v * m <= y * w * n
  {
    var p, q := 86400.0 / w, 86400.0 / v;
    assert p * w == 86400.0 && q * v == 86400.0;
    Regroup(x, m, p, w, v);
    Regroup(y, n, q, v, w);
    ProductIsPositive(w, v);
    Scale(x * (m * p), y * (n * q), w * v);
    assert w * v == v * w;
  }

  lemma Regroup(x: real, m: real, p: real, w: real, v: real)
    requires p * w == 86400.0
    ensures x * (m * p) * (w * v) == 86400.0 * (x * v * m)
  {
    calc {
      x * (m * p) * (w * v);
      x * v * m * (p * w);
    }
  }

  lemma Scale(a: real, b: real, c: real)
    requires a <= b && c >= 0.0
    ensures a * c <= b * c
  {
  }

  // ---- The choice in numbers ------------------------------------------------------------

  lemma QuotientsCompareStrictly(a: real, b: real, c: real, d: real)
    requires b > 0.0 && d > 0.0 && a / b < c / d
    ensures a * d < c * b
  {
    var x, y := a / b, c / d;
    assert a == x * b && c == y * d;
    assert a * d == x * (b * d) && c * b == y * (b * d);
    ProductIsPositive(b, d);
    ProductIsPositive(y - x, b * d);
    assert (y - x) * (b * d) == y * (b * d) - x * (b * d);
  }

  lemma ClearWindowsStrictly(x: real, m: real, w: real, y: real, n: real, v: real)
    requires w > 0.0 && v > 0.0 && x * (m * (86400.0 / w)) < y * (n * (86400.0 / v))
    ensures x * v * m < y * w * n
  {
    var p, q := 86400.0 / w, 86400.0 / v;
    assert p * w == 86400.0 && q * v == 86400.0;
    Regroup(x, m, p, w, v);
    Regroup(y, n, q, v, w);
    ProductIsPositive(w, v);
    ScaleStrictly(x * (m * p), y * (n * q), w * v);
    assert w * v == v * w;
  }

  lemma ScaleStrictly(a: real, b: real, c: real)
    requires a < b && c > 0.0
    ensures a * c < b * c
  {
    ProductIsPositive(b - a, c);
    assert (b - a) * c == b * c - a * c;
  }

  /** Count r under ceiling a is at most, or strictly below, its share relative to q under c. */
  predicate Below(r: nat, a: Ceiling, q: nat, c: Ceiling, strictly: bool) {
    var left, right := r * a.windowSeconds * c.maxRequests, q * c.windowSeconds * a.maxRequests;
    if strictly then left < right else left <= right
  }

  lemma ScoresToCeilings(r: nat, a: Ceiling, q: nat, c: Ceiling, strictly: bool)
    requires a.windowSeconds >= 1 && c.windowSeconds >= 1 && a.maxRequests >= 1 && c.maxRequests >= 1
    requires r as real / DailyBudget(a) <= q as real / DailyBudget(c)
    requires strictly ==> r as real / DailyBudget(a) < q as real / DailyBudget(c)
    ensures Below(r, a, q, c, strictly)
  {
    BudgetIsPositive(a);
    BudgetIsPositive(c);
    IntegerProduct(r, a.windowSeconds, c.maxRequests);
    IntegerProduct(q, c.windowSeconds, a.maxRequests);
    if strictly {
      QuotientsCompareStrictly(r as real, DailyBudget(a), q as real, DailyBudget(c));
      ClearWindowsStrictly(r as real, c.maxRequests as real, c.windowSeconds as real,
                           q as real, a.maxRequests as real, a.windowSeconds as real);
    } else {
      QuotientsCompare(r as real, DailyBudget(a), q as real, DailyBudget(c));
      ClearWindows(r as real, c.maxRequests as real, c.windowSeconds as real,
                   q as real, a.maxRequests as real, a.windowSeconds as real);
    }
  }

  /** Every endpoint of the role on the list has a ceiling, each a positive one. */
  predicate RoleHasCeilings(list: seq<Candidate>, role: Role, ceilings: Ceilings) {
    forall j :: 0 <= j < |list| && list[j].role == role ==>
      list[j].id in ceilings && ceilings[list[j].id].maxRequests >= 1 && ceilings[list[j].id].windowSeconds >= 1
  }

  predicate RoleLacksCeiling(list: seq<Candidate>, role: Role, ceilings: Ceilings) {
    exists j :: 0 <= j < |list| && list[j].role == role && list[j].id !in ceilings
  }

  /** The choice within a role, on any list, in the numbers of the configuration: with ceilings
      on all of the role's endpoints the least share of the ceiling, count * window / requests,
      otherwise the least count; and the first on the list among equals. */
  lemma ChoiceInNumbers(list: seq<Candidate>, role: Role, view: View, k: nat, i: nat)
    requires SelectBestByRole(list, role, view) == Some(k)
    requires i < |list| && list[i].role == role && list[i].id in view.counts
    ensures k < |list| && list[k].role == role && list[k].id in view.counts
    ensures RoleHasCeilings(list, role, view.ceilings) ==>
      Below(view.counts[list[k].id], view.ceilings[list[k].id],
            view.counts[list[i].id], view.ceilings[list[i].id], i < k)
    ensures RoleLacksCeiling(list, role, view.ceilings) ==>
      view.counts[list[k].id] <= view.counts[list[i].id] &&
      (i < k ==> view.counts[list[k].id] < view.counts[list[i].id])
  {
    SelectionIsFirstLeast(list, role, view);
    assert Eligible(list, role, view, i);
    assert ScoreAt(list, role, view, k) <= ScoreAt(list, role, view, i);
    if RoleHasCeilings(list, role, view.ceilings) {
      assert AllHaveCeilings(list, role, view);
      var a, c := view.ceilings[list[k].id], view.ceilings[list[i].id];
      BudgetIsPositive(a);
      BudgetIsPositive(c);
      ScoresToCeilings(view.counts[list[k].id], a, view.counts[list[i].id], c, i < k);
    }
  }

  // ---- Shares ---------------------------------------------------------------------------

  function TotalCount(ids: seq<string>, counts: map<string, nat>): nat
    requires forall k :: 0 <= k < |ids| ==> ids[k] in counts
  {
    if ids == [] then 0 else counts[ids[0]] + TotalCount(ids[1..], counts)
  }

  function TotalBudget(ids: seq<string>, ceilings: Ceilings): real
    requires forall k :: 0 <= k < |ids| ==> ids[k] in ceilings && ceilings[ids[k]].windowSeconds > 0
  {
    if ids == [] then 0.0 else DailyBudget(ceilings[ids[0]]) + TotalBudget(ids[1..], ceilings)
  }

  /** Every pool endpoint once. */
  ghost predicate Enumerates(ids: seq<string>, pool: set<string>) {
    && (forall k :: 0 <= k < |ids| ==> ids[k] in pool)
    && (forall id :: id in pool ==> id in ids)
    && (forall a, b :: 0 <= a < b < |ids| ==> ids[a] != ids[b])
  }

  lemma {:induction false} TotalAfterOne(ids: seq<string>, counts: map<string, nat>, id: string)
    requires forall k :: 0 <= k < |ids| ==> ids[k] in counts
    requires forall a, b :: 0 <= a < b < |ids| ==> ids[a] != ids[b]
    requires id in counts
    ensures TotalCount(ids, counts[id := counts[id] + 1]) == TotalCount(ids, counts) + if id in ids then 1 else 0
  {
    if ids != [] {
      TotalAfterOne(ids[1..], counts, id);
      if ids[0] == id {
        assert id !in ids[1..];
      }
    }
  }

  lemma {:induction false} TotalOfZeros(ids: seq<string>, pool: set<string>)
    requires forall k :: 0 <= k < |ids| ==> ids[k] in pool
    ensures TotalCount(ids, ZeroCounts(pool)) == 0
  {
    if ids != [] {
      TotalOfZeros(ids[1..], pool);
    }
  }

  /** Every request is counted once. */
  lemma {:induction false} TotalIsRequests(ids: seq<string>, pool: set<string>, orders: seq<seq<Candidate>>,
                                           role: Role, ceilings: Ceilings)
    requires pool != {} && Orders(orders, pool, role) && Enumerates(ids, pool)
    ensures CountsAfter(pool, orders, role, ceilings).Keys == pool
    ensures TotalCount(ids, CountsAfter(pool, orders, role, ceilings)) == |orders|
  {
    if orders == [] {
      TotalOfZeros(ids, pool);
    } else {
      var earlier := orders[..|orders| - 1];
      TotalIsRequests(ids, pool, earlier, role, ceilings);
      var counts := CountsAfter(pool, earlier, role, ceilings);
      var id := ServedPicksLeast(counts, orders[|orders| - 1], pool, role, ceilings);
      TotalAfterOne(ids, counts, id);
    }
  }

  /** Count r with budget b, out of n requests over k endpoints with total budget s, is at
      most one above its share of n and at least its share of n - k. */
  predicate WithinShare(r: nat, b: real, n: nat, k: nat, s: real) {
    && (r as real - 1.0) * s <= n as real * b
    && (n as real - k as real) * b <= r as real * s
  }

  /** Summing the pairwise bounds over a list of endpoints. */
  lemma {:induction false} SharesAddUp(ids: seq<string>, counts: map<string, nat>, pool: set<string>,
                                       ceilings: Ceilings, i: string)
    requires AllCeilings(pool, ceilings) && counts.Keys == pool && WithinOne(counts, ceilings, pool) && i in pool
    requires forall k :: 0 <= k < |ids| ==> ids[k] in pool
    ensures WithinShare(counts[i], DailyBudget(ceilings[i]), TotalCount(ids, counts), |ids|, TotalBudget(ids, ceilings))
  {
    if ids != [] {
      var j, rest := ids[0], ids[1..];
      SharesAddUp(rest, counts, pool, ceilings, i);
      assert NotAhead(counts[i], DailyBudget(ceilings[i]), counts[j], DailyBudget(ceilings[j]));
      assert NotAhead(counts[j], DailyBudget(ceilings[j]), counts[i], DailyBudget(ceilings[i]));
      ShareStep(counts[i], counts[j], TotalCount(rest, counts), |rest|,
                DailyBudget(ceilings[i]), DailyBudget(ceilings[j]), TotalBudget(rest, ceilings));
    }
  }

  lemma ShareStep(r: nat, q: nat, n: nat, k: nat, b: real, c: real, s: real)
    requires NotAhead(r, b, q, c) && NotAhead(q, c, r, b)
    requires WithinShare(r, b, n, k, s)
    ensures WithinShare(r, b, q + n, 1 + k, c + s)
  {
    assert (r as real - 1.0) * (c + s) == (r as real - 1.0) * c + (r as real - 1.0) * s;
    assert (q + n) as real * b == q as real * b + n as real * b;
    assert ((q + n) as real - (1 + k) as real) * b == (q as real - 1.0) * b + (n as real - k as real) * b;
    assert r as real * (c + s) == r as real * c + r as real * s;
  }

  /** After n requests over k endpoints, endpoint i has served at most one more than its
      proportional share of n, and at least its share of n - k. */
  lemma ProportionalShare(ids: seq<string>, pool: set<string>, orders: seq<seq<Candidate>>, role: Role,
                          ceilings: Ceilings, i: string)
    requires AllCeilings(pool, ceilings) && Orders(orders, pool, role) && Enumerates(ids, pool) && i in pool
    ensures
      var counts := CountsAfter(pool, orders, role, ceilings);
      && counts.Keys == pool
      && WithinShare(counts[i], DailyBudget(ceilings[i]), |orders|, |ids|, TotalBudget(ids, ceilings))
  {
    WeightedFairness(pool, orders, role, ceilings);
    TotalIsRequests(ids, pool, orders, role, ceilings);
    SharesAddUp(ids, CountsAfter(pool, orders, role, ceilings), pool, ceilings, i);
  }

  // ---- Raw counts -----------------------------------------------------------------------

  /** When some endpoint has no ceiling the raw counts decide, and their spread never exceeds one. */
  lemma {:induction false} RawCountsSpreadByOne(pool: set<string>, orders: seq<seq<Candidate>>, role: Role,
                                                ceilings: Ceilings, i: string, j: string)
    requires Orders(orders, pool, role) && i in pool && j in pool
    requires exists id :: id in pool && id !in ceilings
    ensures CountsAfter(pool, orders, role, ceilings).Keys == pool
    ensures CountsAfter(pool, orders, role, ceilings)[i] <= CountsAfter(pool, orders, role, ceilings)[j] + 1
  {
    if orders != [] {
      var earlier, list := orders[..|orders| - 1], orders[|orders| - 1];
      RawCountsSpreadByOne(pool, earlier, role, ceilings, i, j);
      var counts := CountsAfter(pool, earlier, role, ceilings);
      var id := ServedPicksLeast(counts, list, pool, role, ceilings);
      assert !AllHaveCeilings(list, role, View(counts, ceilings));
      assert Score(View(counts, ceilings), id, false) <= Score(View(counts, ceilings), j, false);
    }
  }
}
