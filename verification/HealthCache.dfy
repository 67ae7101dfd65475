/** The TTL cache of endpoint statuses (internal/cache/health_cache.go). */
module HealthCache {
  import opened Prelude
  import Keys

  datatype Entry<V> = Entry(status: V, timestamp: nat)

  /** What callers asked for; evictions of expired entries are not part of it. */
  datatype Op<V> = Stored(key: string, status: V, at: nat) | Dropped(key: string) | Cleared

  predicate Concerns<V>(op: Op<V>, key: string) {
    op.Cleared? || op.key == key
  }

  /** The entry a key has under the operations so far. */
  function Latest<V>(log: seq<Op<V>>, key: string): Option<Entry<V>> {
    if log == [] then None
    else
      var op := log[|log| - 1];
      if !Concerns(op, key) then Latest(log[..|log| - 1], key)
      else if op.Stored? then Some(Entry(op.status, op.at)) else None
  }

  predicate Fresh<V>(entry: Entry<V>, ttl: nat, now: nat) {
    now - entry.timestamp <= ttl
  }

  /** The simple view of the cache: no evictions, only the operations and the time. */
  function View<V>(log: seq<Op<V>>, key: string, ttl: nat, now: nat): Option<V> {
    match Latest(log, key)
    case Some(entry) => if Fresh(entry, ttl, now) then Some(entry.status) else None
    case None => None
  }

  /** Operation i stored the status and nothing touched the key since. */
  ghost predicate StoredLast<V>(log: seq<Op<V>>, i: nat, key: string, entry: Entry<V>)
    requires i < |log|
  {
    && log[i] == Stored(key, entry.status, entry.timestamp)
    && forall j :: i < j < |log| ==> !Concerns(log[j], key)
  }

  lemma {:induction false} LatestIsStoredLast<V>(log: seq<Op<V>>, key: string, entry: Entry<V>)
    ensures Latest(log, key) == Some(entry) <==> exists i :: 0 <= i < |log| && StoredLast(log, i, key, entry)
  {
    if log != [] {
      var n := |log| - 1;
      LatestIsStoredLast(log[..n], key, entry);
      if Concerns(log[n], key) {
        assert log[n] == Stored(key, entry.status, entry.timestamp) <==> StoredLast(log, n, key, entry);
      } else {
        if i :| 0 <= i < |log[..n]| && StoredLast(log[..n], i, key, entry) {
          assert StoredLast(log, i, key, entry);
        }
        if i :| 0 <= i < |log| && StoredLast(log, i, key, entry) {
          assert StoredLast(log[..n], i, key, entry);
        }
      }
    }
  }

  /** A status is served exactly while the last operation on its key stored it and is at most
      the TTL ago; so a miss stays a miss until the next store. */
  lemma ServedExactlyWhileFresh<V>(log: seq<Op<V>>, key: string, ttl: nat, now: nat, later: nat, status: V)
    requires now <= later
    ensures View(log, key, ttl, now) == Some(status)
       <==> exists at, i :: 0 <= i < |log| && StoredLast(log, i, key, Entry(status, at)) && now - at <= ttl
    ensures View(log, key, ttl, later) == Some(status) ==> View(log, key, ttl, now) == Some(status)
  {
    if View(log, key, ttl, now) == Some(status) {
      var entry := Latest(log, key).value;
      LatestIsStoredLast(log, key, entry);
      assert entry == Entry(status, entry.timestamp);
    }
    if at, i :| 0 <= i < |log| && StoredLast(log, i, key, Entry(status, at)) && now - at <= ttl {
      LatestIsStoredLast(log, key, Entry(status, at));
    }
  }

  /** An operation on one endpoint leaves every other endpoint's view alone, given chain names
      without colons. */
  lemma EndpointsDoNotCollide<V>(log: seq<Op<V>>, op: Op<V>, a: Keys.Owner, b: Keys.Owner, ttl: nat, now: nat)
    requires Keys.ColonFree(a.chain) && Keys.ColonFree(b.chain) && a != b
    requires !op.Cleared? && op.key == Keys.OwnerText(a)
    ensures View(log + [op], Keys.OwnerText(b), ttl, now) == View(log, Keys.OwnerText(b), ttl, now)
  {
    if Keys.OwnerText(a) == Keys.OwnerText(b) {
      Keys.OwnerTextIsInjective(a, b);
    }
    assert (log + [op])[..|log|] == log;
  }

  class Cache<V> {
    var entries: map<string, Entry<V>>
    const ttl: nat
    var clock: nat
    ghost var log: seq<Op<V>>

    /** Every entry is the one its key should have. Every locked section keeps this, in any
        interleaving. */
    ghost predicate Valid()
      reads this
    {
      forall key :: key in entries ==> Latest(log, key) == Some(entries[key])
    }

    /** No fresh entry is missing. */
    ghost predicate Complete()
      reads this
    {
      forall key :: Latest(log, key).Some? && Fresh(Latest(log, key).value, ttl, clock) ==> key in entries
    }

    constructor (ttl: nat, clock: nat)
      ensures Valid() && Complete() && log == [] && this.ttl == ttl && this.clock == clock
    {
      entries := map[];
      this.ttl := ttl;
      this.clock := clock;
      log := [];
    }

    method Advance(d: nat)
      requires Valid()
      modifies this`clock
      ensures Valid() && clock == old(clock) + d
      ensures old(Complete()) ==> Complete()
    {
      clock := clock + d;
    }

    /** The read section of Get: a hit is always the view's answer, whatever ran in between. */
    method Lookup(key: string) returns (hit: Option<V>, expired: bool)
      requires Valid()
      ensures hit.Some? ==> hit == View(log, key, ttl, clock)
      ensures Complete() ==> hit == View(log, key, ttl, clock)
      ensures expired <==> key in entries && !Fresh(entries[key], ttl, clock)
      ensures expired ==> hit.None?
    {
      if key !in entries {
        return None, false;
      }
      if clock - entries[key].timestamp > ttl {
        return None, true;
      }
      return Some(entries[key].status), false;
    }

    /** The deferred removal of Get, which takes whatever entry it finds by then. It costs a
        hit exactly if that entry is fresh, one stored after the read section. */
    method Evict(key: string)
      requires Valid()
      modifies this`entries
      ensures Valid() && entries == old(entries) - {key}
      ensures old(Complete()) ==> (Complete() <==> (key in old(entries) ==> !Fresh(old(entries)[key], ttl, clock)))
    {
      entries := entries - {key};
    }

    /** Uninterrupted, the cache answers as the view does: evictions are invisible. */
    method Get(chain: string, endpoint: string) returns (hit: Option<V>)
      requires Valid() && Complete()
      modifies this`entries
      ensures Valid() && Complete()
      ensures hit == View(log, Keys.OwnerText(Keys.Owner(chain, endpoint)), ttl, clock)
    {
      var key := chain + ":" + endpoint;
      var expired;
      hit, expired := Lookup(key);
      if expired {
        Evict(key);
      }
    }

    method Set(chain: string, endpoint: string, status: V)
      requires Valid()
      modifies this`entries, this`log
      ensures Valid() && (old(Complete()) ==> Complete())
      ensures log == old(log) + [Stored(Keys.OwnerText(Keys.Owner(chain, endpoint)), status, clock)]
    {
      var key := chain + ":" + endpoint;
      entries := entries[key := Entry(status, clock)];
      log := log + [Stored(key, status, clock)];
    }

    method Invalidate(chain: string, endpoint: string)
      requires Valid()
      modifies this`entries, this`log
      ensures Valid() && (old(Complete()) ==> Complete())
      ensures log == old(log) + [Dropped(Keys.OwnerText(Keys.Owner(chain, endpoint)))]
    {
      var key := chain + ":" + endpoint;
      entries := entries - {key};
      log := log + [Dropped(key)];
    }

    method Clear()
      requires Valid()
      modifies this`entries, this`log
      ensures Valid() && (old(Complete()) ==> Complete())
      ensures log == old(log) + [Cleared]
    {
      entries := map[];
      log := log + [Cleared];
    }
  }
}
