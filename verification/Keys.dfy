/** Store keys and the cleanup of endpoints that left the configuration
    (internal/store/valkey.go). */
module Keys {
  import opened Prelude

  const HEALTH := "health:"
  const METRICS := "metrics:"
  const RATE_LIMIT := "rate_limit:"
  const CAPACITY_ESTIMATE := "capacity_estimate:"
  const CUSTOM_PROBE := "custom_probe:"
  const CUSTOM_PROBE_GATE := "custom_probe_gate:"

  /** The prefixes the cleanup scans. */
  const PREFIXES := [HEALTH, METRICS, RATE_LIMIT, CAPACITY_ESTIMATE, CUSTOM_PROBE, CUSTOM_PROBE_GATE]

  datatype Owner = Owner(chain: string, endpoint: string)

  predicate ColonFree(s: string) {
    ':' !in s
  }

  /** The position of the first colon, |s| if there is none. */
  function FirstColon(s: string): nat
    ensures FirstColon(s) <= |s|
  {
    if s == [] || s[0] == ':' then 0 else 1 + FirstColon(s[1..])
  }

  /** The position just after the last colon, 0 if there is none. */
  function AfterLastColon(s: string): nat
    ensures AfterLastColon(s) <= |s|
    ensures AfterLastColon(s) > 0 ==> s[AfterLastColon(s) - 1] == ':'
  {
    if s == [] then 0 else if s[|s| - 1] == ':' then |s| else AfterLastColon(s[..|s| - 1])
  }

  function ParseChainEndpointFromKey(key: string, prefix: string): Option<Owner>
    requires prefix <= key
  {
    var withoutPrefix := key[|prefix|..];
    var cut := FirstColon(withoutPrefix);
    if cut == |withoutPrefix| then None
    else
      var chain, rest := withoutPrefix[..cut], withoutPrefix[cut + 1..];
      if prefix != METRICS then Some(Owner(chain, rest))
      else
        var after := AfterLastColon(rest);
        if after == 0 then None else Some(Owner(chain, rest[..after - 1]))
  }

  function OwnerText(o: Owner): string {
    o.chain + ":" + o.endpoint
  }

  function EndpointKey(prefix: string, o: Owner): string {
    prefix + OwnerText(o)
  }

  /** The metrics keys as documented, and as IncrementRequestCount writes them. */
  function DocumentedMetricsKey(o: Owner, requestType: string): string {
    METRICS + OwnerText(o) + ":" + requestType
  }

  function WrittenMetricsKey(o: Owner, requestType: string, period: string): string {
    METRICS + OwnerText(o) + ":" + requestType + ":" + period
  }

  // ---- Round trips ----------------------------------------------------------------------

  lemma {:induction false} FirstColonAfter(chain: string, rest: string)
    requires ColonFree(chain)
    ensures FirstColon(chain + ":" + rest) == |chain|
  {
    if chain != [] {
      assert (chain + ":" + rest)[1..] == chain[1..] + ":" + rest;
      FirstColonAfter(chain[1..], rest);
    }
  }

  lemma {:induction false} LastColonBefore(rest: string, tail: string)
    requires ColonFree(tail)
    ensures AfterLastColon(rest + ":" + tail) == |rest| + 1
  {
    if tail != [] {
      var init := tail[..|tail| - 1];
      assert (rest + ":" + tail)[..|rest + ":" + tail| - 1] == rest + ":" + init;
      LastColonBefore(rest, init);
    }
  }

  lemma CutBeforeType(endpoint: string, requestType: string)
    requires ColonFree(requestType)
    ensures
      var rest := endpoint + ":" + requestType;
      AfterLastColon(rest) == |endpoint| + 1 && rest[..|endpoint|] == endpoint
  {
    LastColonBefore(endpoint, requestType);
  }

  lemma CutAtChain(key: string, prefix: string, chain: string, rest: string)
    requires ColonFree(chain) && key == prefix + (chain + ":" + rest)
    ensures prefix <= key
    ensures
      var withoutPrefix := key[|prefix|..];
      && FirstColon(withoutPrefix) == |chain| < |withoutPrefix|
      && withoutPrefix[..|chain|] == chain && withoutPrefix[|chain| + 1..] == rest
  {
    assert key[|prefix|..] == chain + ":" + rest;
    FirstColonAfter(chain, rest);
  }

  /** Whatever the endpoint's id, colons included, its keys parse back to it. */
  lemma KeyRoundTrip(prefix: string, o: Owner)
    requires ColonFree(o.chain) && prefix != METRICS
    ensures prefix <= EndpointKey(prefix, o)
    ensures ParseChainEndpointFromKey(EndpointKey(prefix, o), prefix) == Some(o)
  {
    CutAtChain(EndpointKey(prefix, o), prefix, o.chain, o.endpoint);
  }

  lemma MetricsKeyText(o: Owner, requestType: string)
    ensures DocumentedMetricsKey(o, requestType) == METRICS + (o.chain + ":" + (o.endpoint + ":" + requestType))
  {
    assert OwnerText(o) + ":" + requestType == o.chain + ":" + (o.endpoint + ":" + requestType);
    assert METRICS + OwnerText(o) + ":" + requestType == METRICS + (OwnerText(o) + ":" + requestType);
  }

  lemma MetricsParse(key: string, o: Owner, rest: string)
    requires ColonFree(o.chain) && key == METRICS + (o.chain + ":" + rest)
    requires AfterLastColon(rest) == |o.endpoint| + 1 && rest[..|o.endpoint|] == o.endpoint
    ensures METRICS <= key && ParseChainEndpointFromKey(key, METRICS) == Some(o)
  {
    CutAtChain(key, METRICS, o.chain, rest);
  }

  lemma MetricsRoundTrip(o: Owner, requestType: string)
    requires ColonFree(o.chain) && ColonFree(requestType)
    ensures METRICS <= DocumentedMetricsKey(o, requestType)
    ensures ParseChainEndpointFromKey(DocumentedMetricsKey(o, requestType), METRICS) == Some(o)
  {
    MetricsKeyText(o, requestType);
    CutBeforeType(o.endpoint, requestType);
    MetricsParse(DocumentedMetricsKey(o, requestType), o, o.endpoint + ":" + requestType);
  }

  /** The keys actually written carry one segment more, and parse to a different endpoint. */
  lemma WrittenMetricsKeysParseWrong(o: Owner, requestType: string, period: string)
    requires ColonFree(o.chain) && ColonFree(period)
    ensures METRICS <= WrittenMetricsKey(o, requestType, period)
    ensures ParseChainEndpointFromKey(WrittenMetricsKey(o, requestType, period), METRICS)
         == Some(Owner(o.chain, o.endpoint + ":" + requestType))
    ensures ParseChainEndpointFromKey(WrittenMetricsKey(o, requestType, period), METRICS) != Some(o)
  {
    var longer := Owner(o.chain, o.endpoint + ":" + requestType);
    assert WrittenMetricsKey(o, requestType, period) == DocumentedMetricsKey(longer, period);
    MetricsRoundTrip(longer, period);
    assert |longer.endpoint| > |o.endpoint|;
  }

  // ---- Cleanup --------------------------------------------------------------------------

  type Active = map<string, seq<string>>

  ghost predicate IsActive(active: Active, o: Owner) {
    o.chain in active && o.endpoint in active[o.chain]
  }

  /** The lookup set the cleanup builds. */
  ghost predicate ActiveTexts(active: Active, texts: set<string>) {
    forall t :: t in texts <==> exists o :: IsActive(active, o) && OwnerText(o) == t
  }

  /** The rule for one key under one prefix. */
  predicate StaleUnder(key: string, prefix: string, texts: set<string>) {
    && prefix <= key
    && var owner := ParseChainEndpointFromKey(key, prefix);
       owner.Some? && OwnerText(owner.value) !in texts
  }

  predicate Stale(key: string, texts: set<string>) {
    exists i :: 0 <= i < |PREFIXES| && StaleUnder(key, PREFIXES[i], texts)
  }

  lemma PrefixesAreDistinct(key: string, i: nat, j: nat)
    requires i < |PREFIXES| && j < |PREFIXES| && PREFIXES[i] <= key && PREFIXES[j] <= key
    ensures i == j
  {
    var p, q := PREFIXES[i], PREFIXES[j];
    assert HEALTH[0] == 'h' && METRICS[0] == 'm' && RATE_LIMIT[0] == 'r';
    assert CAPACITY_ESTIMATE[0] == 'c' && CUSTOM_PROBE[0] == 'c' && CUSTOM_PROBE_GATE[0] == 'c';
    assert CAPACITY_ESTIMATE[1] == 'a' && CUSTOM_PROBE[1] == 'u' && CUSTOM_PROBE_GATE[1] == 'u';
    assert CUSTOM_PROBE[12] == ':' && CUSTOM_PROBE_GATE[12] == '_';
    assert p[0] == key[0] == q[0];
    assert p[1] == key[1] == q[1];
  }

  /** Owners with colon-free chains have distinct texts. */
  lemma OwnerTextIsInjective(a: Owner, b: Owner)
    requires ColonFree(a.chain) && ColonFree(b.chain) && OwnerText(a) == OwnerText(b)
    ensures a == b
  {
    FirstColonAfter(a.chain, a.endpoint);
    FirstColonAfter(b.chain, b.endpoint);
    assert a.chain == OwnerText(a)[..|a.chain|] && b.chain == OwnerText(b)[..|b.chain|];
    assert a.endpoint == OwnerText(a)[|a.chain| + 1..] && b.endpoint == OwnerText(b)[|b.chain| + 1..];
  }

  lemma ActiveTextLookup(active: Active, texts: set<string>, o: Owner)
    requires ActiveTexts(active, texts) && ColonFree(o.chain) && forall c :: c in active ==> ColonFree(c)
    ensures OwnerText(o) in texts <==> IsActive(active, o)
  {
    if OwnerText(o) in texts {
      var a :| IsActive(active, a) && OwnerText(a) == OwnerText(o);
      OwnerTextIsInjective(a, o);
    }
  }

  /** With colon-free chain names the cleanup deletes an endpoint's key exactly when the
      endpoint is no longer configured. */
  lemma CleanupIsExact(active: Active, texts: set<string>, i: nat, o: Owner)
    requires ActiveTexts(active, texts) && ColonFree(o.chain) && forall c :: c in active ==> ColonFree(c)
    requires i < |PREFIXES| && PREFIXES[i] != METRICS
    ensures Stale(EndpointKey(PREFIXES[i], o), texts) <==> !IsActive(active, o)
  {
    var key := EndpointKey(PREFIXES[i], o);
    KeyRoundTrip(PREFIXES[i], o);
    ActiveTextLookup(active, texts, o);
    assert StaleUnder(key, PREFIXES[i], texts) <==> !IsActive(active, o);
    forall j | 0 <= j < |PREFIXES| && PREFIXES[j] <= key ensures j == i {
      PrefixesAreDistinct(key, i, j);
    }
  }

  /** The same kind by kind: whatever an inactive endpoint left under any of the five prefixes
      goes, and what an active one has stays. */
  lemma CleanupByKind(active: Active, texts: set<string>, o: Owner)
    requires ActiveTexts(active, texts) && ColonFree(o.chain) && forall c :: c in active ==> ColonFree(c)
    ensures
      var gone := !(o.chain in active && o.endpoint in active[o.chain]);
      var owner := o.chain + ":" + o.endpoint;
      && (Stale("health:" + owner, texts) <==> gone)
      && (Stale("rate_limit:" + owner, texts) <==> gone)
      && (Stale("capacity_estimate:" + owner, texts) <==> gone)
      && (Stale("custom_probe:" + owner, texts) <==> gone)
      && (Stale("custom_probe_gate:" + owner, texts) <==> gone)
  {
    assert PREFIXES[0] == "health:" && PREFIXES[2] == "rate_limit:" && PREFIXES[3] == "capacity_estimate:";
    assert PREFIXES[4] == "custom_probe:" && PREFIXES[5] == "custom_probe_gate:";
    CleanupIsExact(active, texts, 0, o);
    CleanupIsExact(active, texts, 2, o);
    CleanupIsExact(active, texts, 3, o);
    CleanupIsExact(active, texts, 4, o);
    CleanupIsExact(active, texts, 5, o);
  }

  /** No other key is touched: the usage counters, whose prefix is not scanned, and keys of a
      scanned prefix that name no endpoint. */
  lemma CleanupSparesOtherKeys(texts: set<string>, rest: string, i: nat)
    ensures !Stale("capacity:" + rest, texts)
    ensures i < |PREFIXES| && ColonFree(rest) ==> !Stale(PREFIXES[i] + rest, texts)
  {
    var key := "capacity:" + rest;
    forall j | 0 <= j < |PREFIXES| ensures !(PREFIXES[j] <= key) {
      assert key[0] == 'c' && key[1] == 'a' && key[8] == ':';
      assert HEALTH[0] == 'h' && METRICS[0] == 'm' && RATE_LIMIT[0] == 'r' && CAPACITY_ESTIMATE[8] == '_';
      assert CUSTOM_PROBE[1] == 'u' && CUSTOM_PROBE_GATE[1] == 'u';
    }
    if i < |PREFIXES| && ColonFree(rest) {
      var bare := PREFIXES[i] + rest;
      NoColonNoCut(rest);
      assert bare[|PREFIXES[i]|..] == rest;
      forall j | 0 <= j < |PREFIXES| ensures !StaleUnder(bare, PREFIXES[j], texts) {
        if PREFIXES[j] <= bare {
          PrefixesAreDistinct(bare, i, j);
        }
      }
    }
  }

  lemma {:induction false} NoColonNoCut(s: string)
    requires ColonFree(s)
    ensures FirstColon(s) == |s|
  {
    if s != [] {
      NoColonNoCut(s[1..]);
    }
  }

  /** A written metrics key is deleted exactly when no endpoint is called by the endpoint's id
      extended with the request type, whether or not the endpoint itself is active. */
  lemma WrittenMetricsAreDeleted(active: Active, texts: set<string>, o: Owner, requestType: string, period: string)
    requires ActiveTexts(active, texts) && ColonFree(o.chain) && ColonFree(period)
    requires forall c :: c in active ==> ColonFree(c)
    ensures Stale(WrittenMetricsKey(o, requestType, period), texts)
       <==> !IsActive(active, Owner(o.chain, o.endpoint + ":" + requestType))
  {
    var key := WrittenMetricsKey(o, requestType, period);
    WrittenMetricsKeysParseWrong(o, requestType, period);
    ActiveTextLookup(active, texts, Owner(o.chain, o.endpoint + ":" + requestType));
    assert PREFIXES[1] == METRICS;
    assert StaleUnder(key, PREFIXES[1], texts) <==> !IsActive(active, Owner(o.chain, o.endpoint + ":" + requestType));
    forall j | 0 <= j < |PREFIXES| && PREFIXES[j] <= key ensures j == 1 {
      PrefixesAreDistinct(key, 1, j);
    }
  }

  function Flatten(lists: seq<seq<string>>): seq<string> {
    if lists == [] then [] else Flatten(lists[..|lists| - 1]) + lists[|lists| - 1]
  }

  /** What SCAN returns per prefix, page by page, None if it fails: only keys of the prefix,
      every stored one at least once, possibly more than once. */
  ghost predicate Scanned(keys: set<string>, scans: seq<Option<seq<seq<string>>>>) {
    && |scans| == |PREFIXES|
    && forall i :: 0 <= i < |PREFIXES| && scans[i].Some? ==>
         && (forall k :: k in Flatten(scans[i].value) ==> PREFIXES[i] <= k)
         && (forall k :: k in keys && PREFIXES[i] <= k ==> k in Flatten(scans[i].value))
  }

  predicate AllScanned(scans: seq<Option<seq<seq<string>>>>) {
    forall i :: 0 <= i < |scans| ==> scans[i].Some?
  }

  /** The keys left after one DEL, which has no effect if it fails, and after a list of them. */
  function AfterDelete(keys: set<string>, key: string, failing: set<string>): set<string> {
    if key in failing then keys else keys - {key}
  }

  function Surviving(keys: set<string>, list: seq<string>, failing: set<string>): set<string> {
    if list == [] then keys
    else AfterDelete(Surviving(keys, list[..|list| - 1], failing), list[|list| - 1], failing)
  }

  predicate NoneFails(list: seq<string>, failing: set<string>) {
    forall k :: k in list ==> k !in failing
  }

  lemma {:induction false} SurvivingMeans(keys: set<string>, list: seq<string>, failing: set<string>)
    ensures forall k :: k in Surviving(keys, list, failing) <==> k in keys && (k !in list || k in failing)
  {
    if list != [] {
      var init := list[..|list| - 1];
      SurvivingMeans(keys, init, failing);
      assert list == init + [list[|list| - 1]];
    }
  }

  lemma SurvivingNext(keys: set<string>, list: seq<string>, n: nat, failing: set<string>)
    requires n < |list|
    ensures Surviving(keys, list[..n + 1], failing) ==
      AfterDelete(Surviving(keys, list[..n], failing), list[n], failing)
  {
    assert list[..n + 1][..n] == list[..n];
  }

  lemma {:induction false} SurvivingJoin(keys: set<string>, a: seq<string>, b: seq<string>, failing: set<string>)
    ensures Surviving(keys, a + b, failing) == Surviving(Surviving(keys, a, failing), b, failing)
    decreases |b|
  {
    if b == [] {
      assert a + b == a;
    } else {
      assert (a + b)[..|a + b| - 1] == a + b[..|b| - 1];
      SurvivingJoin(keys, a, b[..|b| - 1], failing);
    }
  }

  lemma SliceSurvives(keys: set<string>, list: seq<string>, start: nat, end: nat, failing: set<string>)
    requires start <= end <= |list|
    ensures list[..end] == list[..start] + list[start..end]
    ensures Surviving(keys, list[..end], failing) ==
      Surviving(Surviving(keys, list[..start], failing), list[start..end], failing)
    ensures NoneFails(list[..end], failing) <==>
      NoneFails(list[..start], failing) && NoneFails(list[start..end], failing)
  {
    assert list[..end] == list[..start] + list[start..end];
    SurvivingJoin(keys, list[..start], list[start..end], failing);
  }

  lemma DeleteCounts(keys: set<string>, key: string, failing: set<string>)
    ensures |keys| == |AfterDelete(keys, key, failing)| + if key in keys && key !in failing then 1 else 0
  {
    if key !in keys {
      assert keys - {key} == keys;
    }
  }

  lemma PrefixFails(list: seq<string>, n: nat, failing: set<string>)
    requires n <= |list| && NoneFails(list, failing)
    ensures NoneFails(list[..n], failing)
  {
    forall k | k in list[..n] ensures k !in failing {
      assert k in list;
    }
  }

  /** What the commands that went through report, added up. */
  function Sum(results: seq<Option<nat>>): nat {
    if results == [] then 0
    else
      var last := results[|results| - 1];
      Sum(results[..|results| - 1]) + if last.Some? then last.value else 0
  }

  lemma SumAppend(results: seq<Option<nat>>, last: Option<nat>)
    ensures Sum(results + [last]) == Sum(results) + if last.Some? then last.value else 0
  {
    assert (results + [last])[..|results|] == results;
  }

  lemma {:induction false} SumPrefix(results: seq<Option<nat>>, n: nat)
    requires n <= |results|
    ensures Sum(results[..n]) <= Sum(results)
    decreases |results|
  {
    if n < |results| {
      var init := results[..|results| - 1];
      SumPrefix(init, n);
      assert init[..n] == results[..n];
    } else {
      assert results[..n] == results;
    }
  }

  /** Every key listed is stale, and every stored key stale under the first n prefixes is listed. */
  ghost predicate Gathered(listed: seq<string>, keys: set<string>, n: nat, texts: set<string>)
    requires n <= |PREFIXES|
  {
    && (forall k :: k in listed ==> Stale(k, texts))
    && (forall k, i :: 0 <= i < n && k in keys && StaleUnder(k, PREFIXES[i], texts) ==> k in listed)
  }

  lemma GatherNext(listed: seq<string>, found: seq<string>, scanned: seq<string>, keys: set<string>, n: nat,
                   texts: set<string>)
    requires n < |PREFIXES| && Gathered(listed, keys, n, texts)
    requires forall k :: k in found <==> k in scanned && StaleUnder(k, PREFIXES[n], texts)
    requires forall k :: k in keys && PREFIXES[n] <= k ==> k in scanned
    ensures Gathered(listed + found, keys, n + 1, texts)
  {
  }

  lemma GatheredAll(listed: seq<string>, keys: set<string>, texts: set<string>)
    requires Gathered(listed, keys, |PREFIXES|, texts)
    ensures forall k :: k in keys ==> (k in listed <==> Stale(k, texts))
  {
  }

  predicate SmallBatches(batches: seq<seq<string>>) {
    forall i :: 0 <= i < |batches| ==> 0 < |batches[i]| <= DELETE_BATCH_SIZE
  }

  lemma AddBatch(batches: seq<seq<string>>, batch: seq<string>)
    requires SmallBatches(batches) && 0 < |batch| <= DELETE_BATCH_SIZE
    ensures SmallBatches(batches + [batch]) && Flatten(batches + [batch]) == Flatten(batches) + batch
  {
    assert (batches + [batch])[..|batches|] == batches;
  }

  const DELETE_BATCH_SIZE := 500

  class KeyStore {
    var keys: set<string>

    /** DEL: returns 1 if the key was there, and fails without effect on the failing keys. */
    method Delete(key: string, failing: set<string>) returns (n: Option<nat>)
      modifies this
      ensures keys == AfterDelete(old(keys), key, failing)
      ensures n == if key in failing then None else Some(if key in old(keys) then 1 else 0)
    {
      if key in failing {
        return None;
      }
      n := Some(if key in keys then 1 else 0);
      keys := keys - {key};
    }

    /** One round trip of DEL commands: all of them are carried out. */
    method DoMulti(batch: seq<string>, failing: set<string>) returns (results: seq<Option<nat>>)
      modifies this
      ensures keys == Surviving(old(keys), batch, failing)
      ensures |results| == |batch| && forall i :: 0 <= i < |batch| ==> (results[i].None? <==> batch[i] in failing)
      ensures Sum(results) + |keys| == |old(keys)|
    {
      results := [];
      while |results| < |batch|
        invariant |results| <= |batch|
        invariant keys == Surviving(old(keys), batch[..|results|], failing)
        invariant forall k :: 0 <= k < |results| ==> (results[k].None? <==> batch[k] in failing)
        invariant Sum(results) + |keys| == |old(keys)|
      {
        var key := batch[|results|];
        SurvivingNext(old(keys), batch, |results|, failing);
        DeleteCounts(keys, key, failing);
        var n := Delete(key, failing);
        SumAppend(results, n);
        results := results + [n];
      }
      assert batch[..|results|] == batch;
    }

    /** Add up one round trip's results, up to the first failure. */
    method DeleteBatch(batch: seq<string>, failing: set<string>) returns (deleted: nat, ok: bool)
      modifies this
      ensures keys == Surviving(old(keys), batch, failing)
      ensures ok <==> NoneFails(batch, failing)
      ensures deleted + |keys| <= |old(keys)| && (ok ==> deleted + |keys| == |old(keys)|)
    {
      var results := DoMulti(batch, failing);
      deleted, ok := CountResults(results);
    }

    method CountResults(results: seq<Option<nat>>) returns (deleted: nat, ok: bool)
      ensures ok <==> forall i :: 0 <= i < |results| ==> results[i].Some?
      ensures deleted <= Sum(results) && (ok ==> deleted == Sum(results))
    {
      deleted := 0;
      var i := 0;
      while i < |results|
        invariant 0 <= i <= |results|
        invariant deleted == Sum(results[..i])
        invariant forall k :: 0 <= k < i ==> results[k].Some?
      {
        SumPrefix(results, i);
        if results[i].None? {
          return deleted, false;
        }
        assert results[..i + 1][..i] == results[..i];
        deleted := deleted + results[i].value;
        i := i + 1;
      }
      assert results[..i] == results;
      return deleted, true;
    }

    /** The stale list is sent in consecutive slices of at most 500 that make up the list, or
        the part of it up to the slice with the first failing key. */
    method DeleteInBatches(staleKeys: seq<string>, failing: set<string>)
      returns (deleted: nat, ok: bool, ghost batches: seq<seq<string>>)
      modifies this
      ensures SmallBatches(batches) && Flatten(batches) <= staleKeys
      ensures forall i :: 0 <= i < |batches| ==> |batches[i]| <= 500
      ensures keys == Surviving(old(keys), Flatten(batches), failing)
      ensures ok <==> NoneFails(staleKeys, failing)
      ensures ok ==> Flatten(batches) == staleKeys
      ensures deleted + |keys| <= |old(keys)| && (ok ==> deleted + |keys| == |old(keys)|)
    {
      deleted, batches := 0, [];
      var start := 0;
      while start < |staleKeys|
        invariant 0 <= start <= |staleKeys|
        invariant keys == Surviving(old(keys), staleKeys[..start], failing)
        invariant deleted + |keys| == |old(keys)|
        invariant NoneFails(staleKeys[..start], failing)
        invariant Flatten(batches) == staleKeys[..start] && SmallBatches(batches)
      {
        var end := Min(start + DELETE_BATCH_SIZE, |staleKeys|);
        var batch := staleKeys[start..end];
        SliceSurvives(old(keys), staleKeys, start, end, failing);
        AddBatch(batches, batch);
        var n, fine := DeleteBatch(batch, failing);
        deleted := deleted + n;
        batches := batches + [batch];
        if !fine {
          if NoneFails(staleKeys, failing) {
            PrefixFails(staleKeys, end, failing);
            assert false;
          }
          return deleted, false, batches;
        }
        start := end;
      }
      assert staleKeys[..start] == staleKeys;
      return deleted, true, batches;
    }

    /** The lookup set, filled chain by chain in an arbitrary order. */
    method BuildActiveTexts(active: Active) returns (texts: set<string>)
      ensures ActiveTexts(active, texts)
    {
      texts := {};
      var todo := active.Keys;
      while todo != {}
        invariant todo <= active.Keys
        invariant forall t :: t in texts <==> exists o :: IsActive(active, o) && o.chain !in todo && OwnerText(o) == t
        decreases |todo|
      {
        var chain :| chain in todo;
        ghost var filled := texts;
        var i := 0;
        while i < |active[chain]|
          invariant 0 <= i <= |active[chain]|
          invariant forall t :: t in texts <==>
            t in filled || exists k :: 0 <= k < i && OwnerText(Owner(chain, active[chain][k])) == t
        {
          texts := texts + {OwnerText(Owner(chain, active[chain][i]))};
          i := i + 1;
        }
        forall t ensures t in texts <==>
          exists o :: IsActive(active, o) && o.chain !in todo - {chain} && OwnerText(o) == t {
          if k :| 0 <= k < i && OwnerText(Owner(chain, active[chain][k])) == t {
            assert IsActive(active, Owner(chain, active[chain][k]));
          }
          if o :| IsActive(active, o) && o.chain !in todo - {chain} && OwnerText(o) == t {
            if o.chain == chain {
              var k :| 0 <= k < |active[chain]| && active[chain][k] == o.endpoint;
              assert OwnerText(Owner(chain, active[chain][k])) == t;
            }
          }
        }
        todo := todo - {chain};
      }
    }

    /** Collect the stale keys of one prefix from its scan. */
    method CollectStale(scan: seq<seq<string>>, prefix: string, texts: set<string>) returns (stale: seq<string>)
      requires forall k :: k in Flatten(scan) ==> prefix <= k
      ensures forall k :: k in stale <==> k in Flatten(scan) && StaleUnder(k, prefix, texts)
    {
      stale := [];
      var page := 0;
      while page < |scan|
        invariant 0 <= page <= |scan|
        invariant forall k :: k in stale <==> k in Flatten(scan[..page]) && StaleUnder(k, prefix, texts)
      {
        assert scan[..page + 1][..page] == scan[..page];
        FlattenContains(scan, page);
        ghost var before := stale;
        var i := 0;
        while i < |scan[page]|
          invariant 0 <= i <= |scan[page]|
          invariant forall k :: k in stale <==> k in before || (k in scan[page][..i] && StaleUnder(k, prefix, texts))
        {
          var key := scan[page][i];
          assert scan[page][..i + 1] == scan[page][..i] + [key];
          assert key in Flatten(scan);
          var owner := ParseChainEndpointFromKey(key, prefix);
          if owner.Some? && OwnerText(owner.value) !in texts {
            stale := stale + [key];
          }
          i := i + 1;
        }
        assert scan[page][..i] == scan[page];
        page := page + 1;
      }
      assert scan[..page] == scan;
    }

    /** Without a failure exactly the stale keys are gone afterwards, and the result says how
        many there were. A failed scan deletes nothing; a failed DEL leaves some of the stale
        keys, but never takes another key. */
    method CleanupStaleEndpoints(active: Active, scans: seq<Option<seq<seq<string>>>>, failing: set<string>)
        returns (deleted: nat, ok: bool, ghost texts: set<string>)
      requires Scanned(keys, scans)
      modifies this
      ensures ActiveTexts(active, texts)
      ensures keys <= old(keys) && forall k :: k in old(keys) && k !in keys ==> Stale(k, texts)
      ensures ok ==> AllScanned(scans) && deleted + |keys| == |old(keys)|
      ensures ok ==> forall k :: k in keys ==> !Stale(k, texts)
      ensures !ok ==> deleted + |keys| <= |old(keys)|
      ensures !AllScanned(scans) ==> !ok && keys == old(keys) && deleted == 0
      ensures AllScanned(scans) && failing == {} ==> ok
    {
      var lookup := BuildActiveTexts(active);
      texts := lookup;
      var staleKeys: seq<string> := [];
      var p := 0;
      while p < |PREFIXES|
        invariant 0 <= p <= |PREFIXES| && keys == old(keys)
        invariant Gathered(staleKeys, keys, p, lookup)
        invariant forall i :: 0 <= i < p ==> scans[i].Some?
      {
        if scans[p].None? {
          return 0, false, lookup;
        }
        var stale := CollectStale(scans[p].value, PREFIXES[p], lookup);
        GatherNext(staleKeys, stale, Flatten(scans[p].value), keys, p, lookup);
        staleKeys := staleKeys + stale;
        p := p + 1;
      }
      GatheredAll(staleKeys, keys, lookup);
      if |staleKeys| == 0 {
        return 0, true, lookup;
      }
      ghost var batches;
      deleted, ok, batches := DeleteInBatches(staleKeys, failing);
      SurvivingMeans(old(keys), Flatten(batches), failing);
    }
  }

  lemma {:induction false} FlattenContains(lists: seq<seq<string>>, n: nat)
    requires n < |lists|
    ensures forall k :: k in lists[n] ==> k in Flatten(lists)
    decreases |lists|
  {
    if n < |lists| - 1 {
      FlattenContains(lists[..|lists| - 1], n);
    }
  }
}
