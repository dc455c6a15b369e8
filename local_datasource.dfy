/**
 * The two-tier in-memory spell store: `cache` keeps every batch until LRU
 * eviction, `timeCache` keeps the same batches under a time-to-live. Both
 * have the same capacity. A missing key always means key 0.
 */
module LocalDatasources {
  import opened Wrappers
  import opened LruTimeCache

  class LocalDatasource<T> {
    var cache: Cache<seq<T>>
    var timeCache: Cache<seq<T>>

    ghost predicate Valid()
      reads this
    {
      && LruTimeCache.Valid(cache) && LruTimeCache.Valid(timeCache)
      && cache.ttl.None? && timeCache.ttl.Some?
      && cache.capacity == timeCache.capacity
    }

    /** `new(capacity, duration)`: both caches empty, the timed one with a TTL of `duration` ms. */
    constructor (capacity: nat, duration: nat)
      requires capacity >= 1
      ensures Valid()
      ensures cache == Empty(capacity, None) && timeCache == Empty(capacity, Some(duration))
    {
      cache := Empty(capacity, None);
      timeCache := Empty(capacity, Some(duration));
    }

    /** `insert`: the same batch under the same key in both caches. */
    method Insert(value: seq<T>, key: Option<u8>, now: nat)
      requires Valid()
      modifies this
      ensures Valid()
      ensures cache == LruTimeCache.Insert(old(cache), key.GetOr(0), value, now)
      ensures timeCache == LruTimeCache.Insert(old(timeCache), key.GetOr(0), value, now)
      ensures Lookup(cache, key.GetOr(0), now) == Some(value)
      ensures Lookup(timeCache, key.GetOr(0), now) == Some(value)
    {
      var k := key.GetOr(0);
      cache := LruTimeCache.Insert(cache, k, value, now);
      timeCache := LruTimeCache.Insert(timeCache, k, value, now);
    }

    /**
     * `get`: the permanent read; on a miss the fresh batch, if any, is
     * returned and copied back into the permanent cache.
     */
    method Get(key: Option<u8>, now: nat) returns (r: Option<seq<T>>)
      requires Valid()
      modifies this
      ensures Valid()
      ensures var k := key.GetOr(0);
        r == if Lookup(old(cache), k, now).Some? then Lookup(old(cache), k, now)
             else Lookup(old(timeCache), k, now)
      ensures Lookup(cache, key.GetOr(0), now) == r
      ensures var k := key.GetOr(0);
        var afterRead := LruTimeCache.Get(old(cache), k, now).0;
        if Lookup(old(cache), k, now).Some? then
          cache == afterRead && timeCache == old(timeCache)
        else
          && timeCache == LruTimeCache.Get(old(timeCache), k, now).0
          && cache == (if r.Some? then LruTimeCache.Insert(afterRead, k, r.value, now) else afterRead)
    {
      var k := key.GetOr(0);
      var read := LruTimeCache.Get(cache, k, now);
      cache := read.0;
      match read.1
      case Some(value) =>
        r := Some(value);
      case None =>
        var timed := LruTimeCache.Get(timeCache, k, now);
        timeCache := timed.0;
        match timed.1
        case Some(value) =>
          cache := LruTimeCache.Insert(cache, k, value, now);
          r := Some(value);
        case None =>
          r := None;
    }

    /** `get_recent`: the fresh read; the permanent cache is not touched. */
    method GetRecent(key: Option<u8>, now: nat) returns (r: Option<seq<T>>)
      requires Valid()
      modifies this
      ensures Valid()
      ensures r == Lookup(old(timeCache), key.GetOr(0), now)
      ensures cache == old(cache)
      ensures timeCache == LruTimeCache.Get(old(timeCache), key.GetOr(0), now).0
    {
      var read := LruTimeCache.Get(timeCache, key.GetOr(0), now);
      timeCache := read.0;
      r := read.1;
    }
  }

  /**
   * After `insert(v, k)` at time `t`: the permanent read of `k` gives `v` at
   * any later time, the fresh read gives `v` until `t + ttl` and nothing after.
   */
  lemma InsertThenRead<T>(cache: Cache<seq<T>>, timeCache: Cache<seq<T>>, k: u8, v: seq<T>, t: nat, now: nat)
    requires LruTimeCache.Valid(cache) && LruTimeCache.Valid(timeCache)
    requires cache.ttl.None? && timeCache.ttl.Some?
    ensures Lookup(LruTimeCache.Insert(cache, k, v, t), k, now) == Some(v)
    ensures Lookup(LruTimeCache.Insert(timeCache, k, v, t), k, now) ==
              if t + timeCache.ttl.value < now then None else Some(v)
  {
    InsertThenLookup(cache, k, v, t, now);
    InsertThenLookup(timeCache, k, v, t, now);
  }

  /** The `test_insert` and `test_get` scenario: insert under `None`, read under `None` and `Some(0)`. */
  method InsertThenGetScenario() returns (byNone: Option<seq<string>>, byZero: Option<seq<string>>)
    ensures byNone == Some(["test"]) && byZero == Some(["test"])
  {
    var ds := new LocalDatasource<string>(1, 1000);
    ds.Insert(["test"], None, 0);
    byNone := ds.Get(None, 0);
    byZero := ds.Get(Some(0), 0);
  }

  /** The `test_get_recent` scenario: a fresh read straight after the insert. */
  method GetRecentScenario() returns (r: Option<seq<string>>)
    ensures r == Some(["test"])
  {
    var ds := new LocalDatasource<string>(1, 1000);
    ds.Insert(["test"], None, 0);
    r := ds.GetRecent(Some(0), 0);
  }

  /**
   * The `test_get_recent_expires` scenario: with a TTL of 2 ms, the fresh read
   * 3 ms after the insert finds nothing while the permanent read still succeeds.
   */
  method GetRecentExpiresScenario() returns (recent: Option<seq<string>>, permanent: Option<seq<string>>)
    ensures recent == None && permanent == Some(["test"])
  {
    var ds := new LocalDatasource<string>(1, 2);
    ghost var c0, t0 := ds.cache, ds.timeCache;
    ds.Insert(["test"], None, 0);
    InsertThenRead(c0, t0, 0, ["test"], 0, 3);
    recent := ds.GetRecent(Some(0), 3);
    permanent := ds.Get(Some(0), 3);
  }
}
