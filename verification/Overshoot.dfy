/** The check-then-dispatch protocol around a ceiling, static or learned
    (internal/server/server.go). Requests on any number of replicas read an endpoint's ceiling
    and counter when they list the available endpoints, and increment the counter only when
    they dispatch to it; in between other requests interleave freely. Without a ceiling, or
    when one of the two reads fails, the endpoint is admitted unseen. */
module Overshoot {
  import opened Prelude
  import opened CapacityControl

  type EndpointId = string
  type RequestId = nat

  datatype Key = Key(endpoint: EndpointId, bucket: int)

  /** `pending` holds, per request, the endpoints it found available and has not dispatched
      to; `unseen` counts, per window, the admissions that were not gated, and `top` is the
      largest ceiling that one of the gated ones read. */
  datatype World = World(
    clock: nat,
    counts: map<Key, nat>,
    pending: map<RequestId, set<EndpointId>>,
    unseen: map<Key, nat>,
    top: map<Key, int>)

  datatype Step =
    | Advance(d: nat)
    | Check(request: RequestId, endpoint: EndpointId, ceiling: Option<int>)
    | Dispatch(request: RequestId, endpoint: EndpointId)
    | Finish(request: RequestId)

  /** The width of the window each throttled endpoint's usage is counted in. */
  type Windows = map<EndpointId, int>

  predicate Positive(windows: Windows) {
    forall e | e in windows :: windows[e] >= 1
  }

  function Count(w: World, k: Key): nat {
    if k in w.counts then w.counts[k] else 0
  }

  function Unseen(w: World, k: Key): nat {
    if k in w.unseen then w.unseen[k] else 0
  }

  /** The largest ceiling read in the window; 1 where there was none, as every ceiling is at
      least that. */
  function Top(w: World, k: Key): int {
    if k in w.top then Max(1, w.top[k]) else 1
  }

  function PendingOf(w: World, r: RequestId): set<EndpointId> {
    if r in w.pending then w.pending[r] else {}
  }

  /** The requests between their availability check of an endpoint and their dispatch to it. */
  function Waiting(w: World, e: EndpointId): set<RequestId> {
    set r | r in w.pending && e in w.pending[r]
  }

  function CurrentKey(w: World, windows: Windows, e: EndpointId): Key
    requires Positive(windows) && e in windows
  {
    Key(e, Bucket(w.clock, windows[e]))
  }

  function Admit(w: World, r: RequestId, e: EndpointId): World {
    w.(pending := w.pending[r := PendingOf(w, r) + {e}])
  }

  function Next(w: World, s: Step, windows: Windows): World
    requires Positive(windows)
  {
    match s
    case Advance(d) => w.(clock := w.clock + d)
    case Check(r, e, ceiling) =>
      if e !in windows then Admit(w, r, e)
      else
        var k := CurrentKey(w, windows, e);
        if ceiling.None? then Admit(w, r, e).(unseen := w.unseen[k := Unseen(w, k) + 1])
        else if Count(w, k) >= ceiling.value then w
        else Admit(w, r, e).(top := w.top[k := Max(Top(w, k), ceiling.value)])
    case Dispatch(r, e) =>
      if e !in PendingOf(w, r) then w
      else
        var taken := w.(pending := w.pending[r := w.pending[r] - {e}]);
        if e !in windows then taken
        else
          var k := CurrentKey(w, windows, e);
          taken.(counts := w.counts[k := Count(w, k) + 1])
    case Finish(r) => w.(pending := w.pending - {r})
  }

  function Run(w: World, steps: seq<Step>, windows: Windows): World
    requires Positive(windows)
  {
    if steps == [] then w else Next(Run(w, steps[..|steps| - 1], windows), steps[|steps| - 1], windows)
  }

  const START := World(0, map[], map[], map[], map[])

  /** At no point of the run are more than n requests waiting for the endpoint. */
  ghost predicate AtMostWaiting(w: World, steps: seq<Step>, windows: Windows, e: EndpointId, n: nat)
    requires Positive(windows)
  {
    forall k :: 0 <= k <= |steps| ==> |Waiting(Run(w, steps[..k], windows), e)| <= n
  }

  /** What one window may count: the largest ceiling read in it, the requests that can be
      waiting besides the one that takes the last unit, and the window's unseen admissions. */
  function Bound(w: World, n: nat, k: Key): int {
    Top(w, k) + n - 1 + Unseen(w, k)
  }

  ghost predicate Bounded(w: World, windows: Windows, e: EndpointId, n: nat)
    requires Positive(windows) && e in windows
  {
    var now := CurrentKey(w, windows, e);
    && |Waiting(w, e)| <= n
    && Count(w, now) + |Waiting(w, e)| <= Bound(w, n, now)
    && (forall b :: Count(w, Key(e, b)) <= Bound(w, n, Key(e, b)))
    && (forall b :: b > now.bucket ==> Count(w, Key(e, b)) == 0)
  }

  lemma WaitingAfter(w: World, s: Step, windows: Windows, e: EndpointId)
    requires Positive(windows)
    ensures
      var after := Next(w, s, windows);
      if s.Dispatch? && s.endpoint == e && e in PendingOf(w, s.request)
      then |Waiting(after, e)| == |Waiting(w, e)| - 1
      else if s.Check? && s.endpoint == e then |Waiting(w, e)| <= |Waiting(after, e)| <= |Waiting(w, e)| + 1
      else |Waiting(after, e)| <= |Waiting(w, e)|
  {
    match s
    case Advance(d) =>
    case Check(r, f, _) =>
      var after := Next(w, s, windows);
      assert after.pending == w.pending || after.pending == Admit(w, r, f).pending;
      AdmitWaiting(w, r, f, e);
    case Dispatch(r, f) =>
      if f in PendingOf(w, r) {
        assert Next(w, s, windows).pending == w.pending[r := w.pending[r] - {f}];
        TakeWaiting(w, r, f, e);
      }
    case Finish(r) =>
      assert Waiting(Next(w, s, windows), e) == Waiting(w, e) - {r};
  }

  lemma AdmitWaiting(w: World, r: RequestId, f: EndpointId, e: EndpointId)
    ensures Waiting(Admit(w, r, f), e) == if f == e then Waiting(w, e) + {r} else Waiting(w, e)
    ensures |Waiting(w, e)| <= |Waiting(Admit(w, r, f), e)| <= |Waiting(w, e)| + 1
  {
    assert Waiting(Admit(w, r, f), e) == if f == e then Waiting(w, e) + {r} else Waiting(w, e);
    if r in Waiting(w, e) {
      assert Waiting(w, e) + {r} == Waiting(w, e);
    }
  }

  lemma TakeWaiting(w: World, r: RequestId, f: EndpointId, e: EndpointId)
    requires f in PendingOf(w, r)
    ensures Waiting(w.(pending := w.pending[r := w.pending[r] - {f}]), e) ==
      if f == e then Waiting(w, e) - {r} else Waiting(w, e)
    ensures f == e ==> r in Waiting(w, e)
  {
  }

  /** A check that lets its request in unseen, and one that does so below a ceiling. */
  predicate AdmitsUnseen(s: Step, e: EndpointId) {
    s.Check? && s.endpoint == e && s.ceiling.None?
  }

  predicate AdmitsBelow(w: World, s: Step, windows: Windows, e: EndpointId)
    requires Positive(windows) && e in windows
  {
    s.Check? && s.endpoint == e && s.ceiling.Some? && Count(w, CurrentKey(w, windows, e)) < s.ceiling.value
  }

  /** Only a dispatch counts, in the current window, and only an unseen check is booked as one. */
  lemma CountAfter(w: World, s: Step, windows: Windows, e: EndpointId)
    requires Positive(windows) && e in windows
    ensures
      var after, now := Next(w, s, windows), CurrentKey(w, windows, e);
      && (forall b :: Count(after, Key(e, b)) == Count(w, Key(e, b)) +
            if s.Dispatch? && s.endpoint == e && e in PendingOf(w, s.request) && b == now.bucket then 1 else 0)
      && (forall b :: Unseen(after, Key(e, b)) == Unseen(w, Key(e, b)) +
            if AdmitsUnseen(s, e) && b == now.bucket then 1 else 0)
      && after.clock == w.clock + if s.Advance? then s.d else 0
  {
  }

  /** Only a check that finds room raises the window's top, to its ceiling; a check that neither
      does so nor goes unseen lets nobody in. */
  lemma TopAfter(w: World, s: Step, windows: Windows, e: EndpointId)
    requires Positive(windows) && e in windows
    ensures
      var after, now := Next(w, s, windows), CurrentKey(w, windows, e);
      && (forall b :: Top(after, Key(e, b)) ==
            if AdmitsBelow(w, s, windows, e) && b == now.bucket then Max(Top(w, now), s.ceiling.value)
            else Top(w, Key(e, b)))
      && (s.Check? && s.endpoint == e && !AdmitsUnseen(s, e) && !AdmitsBelow(w, s, windows, e) ==>
          Waiting(after, e) == Waiting(w, e))
  {
  }

  lemma StepKeepsBound(w: World, s: Step, windows: Windows, e: EndpointId, n: nat)
    requires Positive(windows) && e in windows && n >= 1
    requires Bounded(w, windows, e, n)
    requires |Waiting(Next(w, s, windows), e)| <= n
    ensures Bounded(Next(w, s, windows), windows, e, n)
  {
    WaitingAfter(w, s, windows, e);
    CountAfter(w, s, windows, e);
    TopAfter(w, s, windows, e);
    if s.Advance? {
      BucketsAscend(w.clock, w.clock + s.d, windows[e]);
    }
  }

  /** The overshoot under every interleaving, whatever ceilings the checks read: with at most n
      requests between check and dispatch, no window ever counts more than the largest ceiling
      read in that window plus n - 1, plus one for each unseen admission in it; neither an
      outage nor a high ceiling loosens another window. */
  lemma {:induction false} OvershootIsBounded(steps: seq<Step>, windows: Windows, e: EndpointId, n: nat)
    requires Positive(windows) && e in windows && n >= 1
    requires AtMostWaiting(START, steps, windows, e, n)
    ensures
      var w := Run(START, steps, windows);
      && Bounded(w, windows, e, n)
      && forall b :: Count(w, Key(e, b)) <= Top(w, Key(e, b)) + n - 1 + Unseen(w, Key(e, b))
  {
    if steps == [] {
      assert Waiting(START, e) == {};
    } else {
      var earlier := steps[..|steps| - 1];
      forall k | 0 <= k <= |earlier| ensures |Waiting(Run(START, earlier[..k], windows), e)| <= n {
        assert earlier[..k] == steps[..k];
      }
      OvershootIsBounded(earlier, windows, e, n);
      assert steps[..|steps|] == steps;
      StepKeepsBound(Run(START, earlier, windows), steps[|steps| - 1], windows, e, n);
    }
  }

  /** Every ceiling the run reads for the endpoint is at most m. */
  ghost predicate CeilingsAtMost(steps: seq<Step>, e: EndpointId, m: int) {
    forall k :: 0 <= k < |steps| && steps[k].Check? && steps[k].endpoint == e && steps[k].ceiling.Some? ==>
      steps[k].ceiling.value <= m
  }

  /** No window's top is above what the run's checks have read. */
  lemma {:induction false} TopWasRead(steps: seq<Step>, windows: Windows, e: EndpointId, m: int, b: int)
    requires Positive(windows) && e in windows && m >= 1 && CeilingsAtMost(steps, e, m)
    ensures Top(Run(START, steps, windows), Key(e, b)) <= m
  {
    if steps != [] {
      var earlier := steps[..|steps| - 1];
      TopWasRead(earlier, windows, e, m, b);
      TopWasRead(earlier, windows, e, m, CurrentKey(Run(START, earlier, windows), windows, e).bucket);
      TopAfter(Run(START, earlier, windows), steps[|steps| - 1], windows, e);
    }
  }

  /** With ceilings of at most m throughout, as a static one of m, no window counts more than
      m + n - 1 and its unseen admissions. */
  lemma CeilingBoundsEveryWindow(steps: seq<Step>, windows: Windows, e: EndpointId, n: nat, m: int, b: int)
    requires Positive(windows) && e in windows && n >= 1 && m >= 1
    requires AtMostWaiting(START, steps, windows, e, n) && CeilingsAtMost(steps, e, m)
    ensures
      var w := Run(START, steps, windows);
      Count(w, Key(e, b)) <= m + n - 1 + Unseen(w, Key(e, b))
  {
    OvershootIsBounded(steps, windows, e, n);
    TopWasRead(steps, windows, e, m, b);
  }

  // ---- The bound is attained ------------------------------------------------------------

  /** A run with at most n requests waiting whose gated checks all read the static ceiling m. */
  ghost predicate Plays(steps: seq<Step>, windows: Windows, e: EndpointId, n: nat, m: int)
    requires Positive(windows)
  {
    && AtMostWaiting(START, steps, windows, e, n)
    && forall k :: 0 <= k < |steps| && steps[k].Check? && steps[k].ceiling.Some? ==> steps[k].ceiling.value == m
  }

  lemma Extend(steps: seq<Step>, s: Step, windows: Windows, e: EndpointId, n: nat, m: int) returns (longer: seq<Step>)
    requires Positive(windows) && Plays(steps, windows, e, n, m)
    requires |Waiting(Next(Run(START, steps, windows), s, windows), e)| <= n
    requires s.Check? && s.ceiling.Some? ==> s.ceiling.value == m
    ensures longer == steps + [s] && Plays(longer, windows, e, n, m)
    ensures Run(START, longer, windows) == Next(Run(START, steps, windows), s, windows)
  {
    longer := steps + [s];
    assert longer[..|steps|] == steps;
    forall k | 0 <= k <= |longer| ensures |Waiting(Run(START, longer[..k], windows), e)| <= n {
      if k <= |steps| {
        assert longer[..k] == steps[..k];
      } else {
        assert longer[..k] == longer;
      }
    }
  }

  /** Exactly the requests first..first+k-1 wait for this endpoint, in the first window. */
  ghost predicate Queue(w: World, e: EndpointId, first: nat, k: nat, count: nat, unseen: nat) {
    && w.clock == 0 && Unseen(w, Key(e, 0)) == unseen
    && Count(w, Key(e, 0)) == count
    && (forall r: nat :: e in PendingOf(w, r) <==> first <= r < first + k)
  }

  lemma QueueSize(w: World, e: EndpointId, first: nat, k: nat, count: nat, unseen: nat)
    requires Queue(w, e, first, k, count, unseen)
    ensures |Waiting(w, e)| == k
  {
    IntervalSize(first, k);
    forall r: nat ensures r in Waiting(w, e) <==> r in Interval(first, k) {
      assert e in PendingOf(w, r) <==> first <= r < first + k;
    }
    assert Waiting(w, e) == Interval(first, k);
  }

  lemma QueueGrows(w: World, windows: Windows, e: EndpointId, first: nat, k: nat, count: nat, unseen: nat, m: int,
                   seen: bool)
    requires Positive(windows) && e in windows && (seen ==> count < m)
    requires Queue(w, e, first, k, count, unseen)
    ensures Queue(Next(w, Check(first + k, e, if seen then Some(m) else None), windows), e, first, k + 1, count,
                  if seen then unseen else unseen + 1)
  {
    var r := first + k;
    var after := Next(w, Check(r, e, if seen then Some(m) else None), windows);
    assert after.pending == Admit(w, r, e).pending;
    forall q: nat ensures e in PendingOf(after, q) <==> first <= q < first + k + 1 {
      assert e in PendingOf(w, q) <==> first <= q < first + k;
      assert q == r || PendingOf(after, q) == PendingOf(w, q);
    }
  }

  lemma QueueShrinks(w: World, windows: Windows, e: EndpointId, first: nat, k: nat, count: nat, unseen: nat)
    requires Positive(windows) && e in windows && k >= 1
    requires Queue(w, e, first, k, count, unseen)
    ensures Queue(Next(w, Dispatch(first, e), windows), e, first + 1, k - 1, count + 1, unseen)
  {
    assert e in PendingOf(w, first);
    var after := Next(w, Dispatch(first, e), windows);
    forall q: nat ensures e in PendingOf(after, q) <==> first + 1 <= q < first + k {
      assert e in PendingOf(w, q) <==> first <= q < first + k;
      assert q == first || PendingOf(after, q) == PendingOf(w, q);
    }
  }

  ghost function Interval(first: nat, k: nat): set<RequestId> {
    if k == 0 then {} else Interval(first, k - 1) + {first + k - 1}
  }

  lemma {:induction false} IntervalSize(first: nat, k: nat)
    ensures |Interval(first, k)| == k
    ensures forall r: nat :: r in Interval(first, k) <==> first <= r < first + k
  {
    if k > 0 {
      IntervalSize(first, k - 1);
    }
  }

  lemma Enqueue(steps: seq<Step>, windows: Windows, e: EndpointId, n: nat, first: nat, k: nat,
                count: nat, unseen: nat, m: int, seen: bool) returns (longer: seq<Step>)
    requires Positive(windows) && e in windows && (seen ==> count < m) && k < n
    requires Plays(steps, windows, e, n, m) && Queue(Run(START, steps, windows), e, first, k, count, unseen)
    ensures Plays(longer, windows, e, n, m)
    ensures Queue(Run(START, longer, windows), e, first, k + 1, count, if seen then unseen else unseen + 1)
  {
    var s := Check(first + k, e, if seen then Some(m) else None);
    QueueGrows(Run(START, steps, windows), windows, e, first, k, count, unseen, m, seen);
    QueueSize(Next(Run(START, steps, windows), s, windows), e, first, k + 1, count,
              if seen then unseen else unseen + 1);
    longer := Extend(steps, s, windows, e, n, m);
  }

  lemma Dequeue(steps: seq<Step>, windows: Windows, e: EndpointId, n: nat, first: nat, k: nat, count: nat,
                unseen: nat, m: int)
    returns (longer: seq<Step>)
    requires Positive(windows) && e in windows && 1 <= k <= n
    requires Plays(steps, windows, e, n, m) && Queue(Run(START, steps, windows), e, first, k, count, unseen)
    ensures Plays(longer, windows, e, n, m)
    ensures Queue(Run(START, longer, windows), e, first + 1, k - 1, count + 1, unseen)
  {
    var s := Dispatch(first, e);
    QueueShrinks(Run(START, steps, windows), windows, e, first, k, count, unseen);
    QueueSize(Next(Run(START, steps, windows), s, windows), e, first + 1, k - 1, count + 1, unseen);
    longer := Extend(steps, s, windows, e, n, m);
  }

  /** One request after the other fills the window up to `count`. */
  lemma {:induction false} FillOneByOne(windows: Windows, e: EndpointId, m: int, n: nat, count: nat)
    returns (steps: seq<Step>)
    requires Positive(windows) && e in windows && m >= 1 && n >= 1 && count <= m
    ensures Plays(steps, windows, e, n, m) && Queue(Run(START, steps, windows), e, count, 0, count, 0)
    decreases count
  {
    if count == 0 {
      steps := [];
      QueueSize(START, e, 0, 0, 0, 0);
    } else {
      steps := FillOneByOne(windows, e, m, n, count - 1);
      steps := Enqueue(steps, windows, e, n, count - 1, 0, count - 1, 0, m, true);
      steps := Dequeue(steps, windows, e, n, count - 1, 1, count - 1, 0, m);
    }
  }

  /** With one unit left, k requests pass the check before any of them dispatches. */
  lemma {:induction false} QueueUp(windows: Windows, e: EndpointId, m: int, n: nat, k: nat) returns (steps: seq<Step>)
    requires Positive(windows) && e in windows && m >= 1 && n >= 1 && k <= n
    ensures Plays(steps, windows, e, n, m)
    ensures var last := m - 1; Queue(Run(START, steps, windows), e, last, k, last, 0)
    decreases k
  {
    var last := m - 1;
    if k == 0 {
      steps := FillOneByOne(windows, e, m, n, last);
    } else {
      steps := QueueUp(windows, e, m, n, k - 1);
      steps := Enqueue(steps, windows, e, n, last, k - 1, last, 0, m, true);
    }
  }

  /** The first j of the n waiting requests dispatch. */
  lemma {:induction false} Drain(windows: Windows, e: EndpointId, m: int, n: nat, j: nat) returns (steps: seq<Step>)
    requires Positive(windows) && e in windows && m >= 1 && n >= 1 && j <= n
    ensures Plays(steps, windows, e, n, m)
    ensures var last := m - 1; Queue(Run(START, steps, windows), e, last + j, n - j, last + j, 0)
    decreases j
  {
    var last := m - 1;
    if j == 0 {
      steps := QueueUp(windows, e, m, n, n);
    } else {
      steps := Drain(windows, e, m, n, j - 1);
      steps := Dequeue(steps, windows, e, n, last + j - 1, n - j + 1, last + j - 1, 0, m);
    }
  }

  /** For every static ceiling m, every n and every number u of unseen admissions some
      interleaving within one window reaches the bound, so it cannot be improved. */
  lemma {:induction false} OvershootIsAttained(windows: Windows, e: EndpointId, m: int, n: nat, u: nat)
    returns (steps: seq<Step>)
    requires Positive(windows) && e in windows && m >= 1 && n >= 1
    ensures Plays(steps, windows, e, n, m)
    ensures
      var w, total := Run(START, steps, windows), m + n - 1 + u;
      Unseen(w, Key(e, 0)) == u && Count(w, Key(e, 0)) == total && Queue(w, e, total, 0, total, u)
    decreases u
  {
    if u == 0 {
      steps := Drain(windows, e, m, n, n);
    } else {
      var total := m + n - 1 + u - 1;
      steps := OvershootIsAttained(windows, e, m, n, u - 1);
      steps := Enqueue(steps, windows, e, n, total, 0, total, u - 1, m, false);
      steps := Dequeue(steps, windows, e, n, total, 1, total, u, m);
    }
  }
}
