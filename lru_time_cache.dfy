/**
 * An abstract model of the `LruCache<u8, V>` that the local datasource keeps
 * twice: a bounded store with least-recently-used eviction and an optional
 * time-to-live. Time is an explicit clock reading `now` in milliseconds.
 * A slot's stamp is the time it was last written or read; a slot with a TTL
 * has expired once `now` is past `stamp + ttl`.
 */
module LruTimeCache {
  import opened Wrappers
  import Seqs

  newtype u8 = x: int | 0 <= x < 0x100

  datatype Slot<V> = Slot(key: u8, value: V, stamp: nat)

  /** `slots` runs from the least to the most recently used entry. */
  datatype Cache<V> = Cache(capacity: nat, ttl: Option<nat>, slots: seq<Slot<V>>)

  predicate DistinctKeys<V>(slots: seq<Slot<V>>) {
    forall i, j :: 0 <= i < j < |slots| ==> slots[i].key != slots[j].key
  }

  /** At most `capacity` entries, one per key. */
  predicate Valid<V>(c: Cache<V>) {
    c.capacity >= 1 && |c.slots| <= c.capacity && DistinctKeys(c.slots)
  }

  predicate Expired<V>(ttl: Option<nat>, s: Slot<V>, now: nat) {
    ttl.Some? && s.stamp + ttl.value < now
  }

  /** `with_capacity` (no TTL) and `with_expiry_duration_and_capacity`. */
  function Empty<V>(capacity: nat, ttl: Option<nat>): (c: Cache<V>)
    requires capacity >= 1
    ensures Valid(c) && c.capacity == capacity && c.ttl == ttl
    ensures forall k: u8, now: nat :: Lookup(c, k, now) == None
  {
    Cache(capacity, ttl, [])
  }

  function IndexOf<V>(slots: seq<Slot<V>>, k: u8): (r: Option<nat>)
    ensures r.Some? ==> r.value < |slots| && slots[r.value].key == k
    ensures r.None? ==> forall i :: 0 <= i < |slots| ==> slots[i].key != k
  {
    if |slots| == 0 then None
    else if slots[0].key == k then Some(0)
    else match IndexOf(slots[1..], k)
      case None => None
      case Some(i) => Some(i + 1)
  }

  /** What a read of `k` at time `now` sees: the stored value, unless it has expired. */
  function Lookup<V>(c: Cache<V>, k: u8, now: nat): Option<V> {
    match IndexOf(c.slots, k)
    case None => None
    case Some(i) => if Expired(c.ttl, c.slots[i], now) then None else Some(c.slots[i].value)
  }

  /** With distinct keys, a lookup succeeds exactly when a live slot for the key exists. */
  lemma LookupSome<V>(c: Cache<V>, k: u8, now: nat, s: Slot<V>)
    requires DistinctKeys(c.slots) && s in c.slots && s.key == k
    ensures Lookup(c, k, now) == if Expired(c.ttl, s, now) then None else Some(s.value)
  {
    var i :| 0 <= i < |c.slots| && c.slots[i] == s;
    var j := IndexOf(c.slots, k).value;
    assert i == j;
  }

  lemma LookupNone<V>(c: Cache<V>, k: u8, now: nat)
    requires forall s :: s in c.slots ==> s.key != k
    ensures Lookup(c, k, now) == None
  {
  }

  lemma {:induction false} FilterKeepsDistinct<V>(slots: seq<Slot<V>>, p: Slot<V> -> bool)
    requires DistinctKeys(slots)
    ensures DistinctKeys(Seqs.Filter(slots, p))
  {
    if |slots| > 0 {
      FilterKeepsDistinct(slots[1..], p);
      var rest := Seqs.Filter(slots[1..], p);
      if p(slots[0]) {
        var r := Seqs.Filter(slots, p);
        assert r == [slots[0]] + rest;
        forall j | 0 < j < |r| ensures r[0].key != r[j].key {
          assert r[j] == rest[j - 1];
          assert rest[j - 1] in slots[1..];
        }
      }
    }
  }

  /** The slots that have not expired at `now`, in the same order. */
  function Live<V>(ttl: Option<nat>, slots: seq<Slot<V>>, now: nat): seq<Slot<V>> {
    Seqs.Filter(slots, (s: Slot<V>) => !Expired(ttl, s, now))
  }

  /** The slots for every key but `k`, in the same order. */
  function Drop<V>(slots: seq<Slot<V>>, k: u8): seq<Slot<V>> {
    Seqs.Filter(slots, (s: Slot<V>) => s.key != k)
  }

  /** Taking out the expired slots changes no read at the same instant. */
  lemma LiveSameLookups<V>(c: Cache<V>, now: nat)
    requires Valid(c)
    ensures Valid(c.(slots := Live(c.ttl, c.slots, now)))
    ensures forall k :: Lookup(c.(slots := Live(c.ttl, c.slots, now)), k, now) == Lookup(c, k, now)
  {
    var live := Live(c.ttl, c.slots, now);
    FilterKeepsDistinct(c.slots, (s: Slot<V>) => !Expired(c.ttl, s, now));
    var c' := c.(slots := live);
    forall k ensures Lookup(c', k, now) == Lookup(c, k, now) {
      if i :| 0 <= i < |c.slots| && c.slots[i].key == k {
        LookupSome(c, k, now, c.slots[i]);
        if !Expired(c.ttl, c.slots[i], now) {
          LookupSome(c', k, now, c.slots[i]);
        } else {
          LookupNone(c', k, now);
        }
      } else {
        LookupNone(c, k, now);
        LookupNone(c', k, now);
      }
    }
  }

  /**
   * `insert`: expired slots go first; the new value replaces any slot for `k`
   * and becomes the most recently used; when the cache is full and `k` is new,
   * the least recently used slot is evicted.
   */
  function Insert<V>(c: Cache<V>, k: u8, v: V, now: nat): (r: Cache<V>)
    requires Valid(c)
    ensures Valid(r) && r.capacity == c.capacity && r.ttl == c.ttl
    ensures Lookup(r, k, now) == Some(v)
    ensures forall k' :: k' != k && Lookup(r, k', now).Some? ==> Lookup(r, k', now) == Lookup(c, k', now)
    ensures Lookup(c, k, now).Some? || |Live(c.ttl, c.slots, now)| < c.capacity ==>
              forall k' :: k' != k ==> Lookup(r, k', now) == Lookup(c, k', now)
    ensures Lookup(c, k, now).None? && |Live(c.ttl, c.slots, now)| >= c.capacity ==>
              var victim := Live(c.ttl, c.slots, now)[0].key;
              && victim != k && Lookup(r, victim, now).None?
              && forall k' :: k' != k && k' != victim ==> Lookup(r, k', now) == Lookup(c, k', now)
  {
    var live := Live(c.ttl, c.slots, now);
    var rest := Drop(live, k);
    var kept := if |rest| >= c.capacity then rest[1..] else rest;
    InsertFacts(c, k, v, now, live, rest, kept);
    c.(slots := kept + [Slot(k, v, now)])
  }

  /**
   * Recency after `insert`: the written slot is the last, stamped `now`; the
   * slots before it keep their old relative order; none has expired.
   */
  lemma InsertOrder<V>(c: Cache<V>, k: u8, v: V, now: nat)
    requires Valid(c)
    ensures var r := Insert(c, k, v, now);
      && |r.slots| > 0 && r.slots[|r.slots| - 1] == Slot(k, v, now)
      && Seqs.IsSubsequence(r.slots[..|r.slots| - 1], c.slots)
      && forall i :: 0 <= i < |r.slots| ==> !Expired(r.ttl, r.slots[i], now)
  {
    var live := Live(c.ttl, c.slots, now);
    var rest := Drop(live, k);
    var kept := if |rest| >= c.capacity then rest[1..] else rest;
    InsertRecency(c, k, v, now, live, rest, kept);
  }

  /** What `Insert` builds, before the lemmas about it. */
  ghost predicate InsertParts<V>(c: Cache<V>, k: u8, now: nat, live: seq<Slot<V>>, rest: seq<Slot<V>>, kept: seq<Slot<V>>) {
    && Valid(c)
    && live == Live(c.ttl, c.slots, now) && rest == Drop(live, k)
    && kept == (if |rest| >= c.capacity then rest[1..] else rest)
  }

  lemma InsertFacts<V>(c: Cache<V>, k: u8, v: V, now: nat, live: seq<Slot<V>>, rest: seq<Slot<V>>, kept: seq<Slot<V>>)
    requires InsertParts(c, k, now, live, rest, kept)
    ensures var r := c.(slots := kept + [Slot(k, v, now)]);
      && Valid(r)
      && Lookup(r, k, now) == Some(v)
      && (forall k' :: k' != k && Lookup(r, k', now).Some? ==> Lookup(r, k', now) == Lookup(c, k', now))
      && (Lookup(c, k, now).Some? || |live| < c.capacity ==>
            forall k' :: k' != k ==> Lookup(r, k', now) == Lookup(c, k', now))
      && (Lookup(c, k, now).None? && |live| >= c.capacity ==>
            && live[0].key != k && Lookup(r, live[0].key, now).None?
            && forall k' :: k' != k && k' != live[0].key ==> Lookup(r, k', now) == Lookup(c, k', now))
  {
    InsertValid(c, k, v, now, live, rest, kept);
    var r := c.(slots := kept + [Slot(k, v, now)]);
    LookupSome(r, k, now, Slot(k, v, now));
    InsertOthersKept(c, k, v, now, live, rest, kept);
    if Lookup(c, k, now).Some? || |live| < c.capacity {
      InsertNoEviction(c, k, v, now, live, rest, kept);
    } else {
      InsertEviction(c, k, v, now, live, rest, kept);
    }
  }

  /**
   * The written slot comes last, the slots kept before it are in their old
   * order, and none of them has expired.
   */
  lemma InsertRecency<V>(c: Cache<V>, k: u8, v: V, now: nat, live: seq<Slot<V>>, rest: seq<Slot<V>>, kept: seq<Slot<V>>)
    requires InsertParts(c, k, now, live, rest, kept)
    ensures var slots := kept + [Slot(k, v, now)];
      && slots[..|slots| - 1] == kept
      && Seqs.IsSubsequence(kept, c.slots)
      && forall i :: 0 <= i < |slots| ==> !Expired(c.ttl, slots[i], now)
  {
    var slots := kept + [Slot(k, v, now)];
    assert slots[..|slots| - 1] == kept;
    Seqs.FilterIsSubsequence(c.slots, (s: Slot<V>) => !Expired(c.ttl, s, now));
    Seqs.FilterIsSubsequence(live, (s: Slot<V>) => s.key != k);
    if |rest| >= c.capacity {
      Seqs.TailIsSubsequence(rest);
      Seqs.SubsequenceTrans(kept, rest, live);
    }
    Seqs.SubsequenceTrans(kept, live, c.slots);
    forall i | 0 <= i < |slots| ensures !Expired(c.ttl, slots[i], now) {
      if i < |kept| {
        assert slots[i] in rest;
        assert slots[i] in live;
      }
    }
  }

  lemma InsertValid<V>(c: Cache<V>, k: u8, v: V, now: nat, live: seq<Slot<V>>, rest: seq<Slot<V>>, kept: seq<Slot<V>>)
    requires InsertParts(c, k, now, live, rest, kept)
    ensures Valid(c.(slots := kept + [Slot(k, v, now)]))
    ensures forall s :: s in kept ==> s in rest
  {
    FilterKeepsDistinct(c.slots, (s: Slot<V>) => !Expired(c.ttl, s, now));
    FilterKeepsDistinct(live, (s: Slot<V>) => s.key != k);
    var r := c.(slots := kept + [Slot(k, v, now)]);
    assert forall s :: s in kept ==> s in rest;
    forall i, j | 0 <= i < j < |r.slots| ensures r.slots[i].key != r.slots[j].key {
      if j == |r.slots| - 1 {
        assert r.slots[i] in kept;
      } else {
        assert r.slots[i] == kept[i] && r.slots[j] == kept[j];
        if |rest| >= c.capacity {
          assert kept[i] == rest[i + 1] && kept[j] == rest[j + 1];
        }
      }
    }
    assert |rest| <= |live| <= |c.slots|;
  }

  lemma InsertOthersKept<V>(c: Cache<V>, k: u8, v: V, now: nat, live: seq<Slot<V>>, rest: seq<Slot<V>>, kept: seq<Slot<V>>)
    requires InsertParts(c, k, now, live, rest, kept)
    requires Valid(c.(slots := kept + [Slot(k, v, now)])) && forall s :: s in kept ==> s in rest
    ensures var r := c.(slots := kept + [Slot(k, v, now)]);
      forall k' :: k' != k && Lookup(r, k', now).Some? ==> Lookup(r, k', now) == Lookup(c, k', now)
  {
    LiveSameLookups(c, now);
    var cl := c.(slots := live);
    var r := c.(slots := kept + [Slot(k, v, now)]);
    forall k' | k' != k && Lookup(r, k', now).Some?
      ensures Lookup(r, k', now) == Lookup(c, k', now)
    {
      var i := IndexOf(r.slots, k').value;
      var s := r.slots[i];
      assert s in kept;
      assert s in live;
      LookupSome(cl, k', now, s);
    }
  }

  lemma InsertNoEviction<V>(c: Cache<V>, k: u8, v: V, now: nat, live: seq<Slot<V>>, rest: seq<Slot<V>>, kept: seq<Slot<V>>)
    requires InsertParts(c, k, now, live, rest, kept)
    requires Valid(c.(slots := kept + [Slot(k, v, now)]))
    requires Lookup(c, k, now).Some? || |live| < c.capacity
    ensures var r := c.(slots := kept + [Slot(k, v, now)]);
      forall k' :: k' != k ==> Lookup(r, k', now) == Lookup(c, k', now)
  {
    LiveSameLookups(c, now);
    var cl := c.(slots := live);
    var r := c.(slots := kept + [Slot(k, v, now)]);
    if Lookup(c, k, now).Some? {
      var s := cl.slots[IndexOf(cl.slots, k).value];
      assert s in live && !(s in rest);
      assert |rest| < |live| by { NotAllKept(live, (s: Slot<V>) => s.key != k, s); }
    }
    assert kept == rest;
    forall k' | k' != k ensures Lookup(r, k', now) == Lookup(c, k', now) {
      if s :| s in live && s.key == k' {
        assert s in rest;
        LookupSome(cl, k', now, s);
        LookupSome(r, k', now, s);
      } else {
        LookupNone(cl, k', now);
        LookupNone(r, k', now);
      }
    }
  }

  /** A new key in a full cache evicts the least recently used live slot and nothing else. */
  lemma InsertEviction<V>(c: Cache<V>, k: u8, v: V, now: nat, live: seq<Slot<V>>, rest: seq<Slot<V>>, kept: seq<Slot<V>>)
    requires InsertParts(c, k, now, live, rest, kept)
    requires Lookup(c, k, now).None? && |live| >= c.capacity
    ensures var r := c.(slots := kept + [Slot(k, v, now)]);
      && live[0].key != k && Lookup(r, live[0].key, now).None?
      && forall k' :: k' != k && k' != live[0].key ==> Lookup(r, k', now) == Lookup(c, k', now)
  {
    LiveSameLookups(c, now);
    var cl := c.(slots := live);
    NewKeyNotLive(cl, k, now);
    FilterAll(live, (s: Slot<V>) => s.key != k);
    assert kept == live[1..];
    EvictFirst(cl, k, v, now);
    assert c.(slots := kept + [Slot(k, v, now)]) == cl.(slots := live[1..] + [Slot(k, v, now)]);
  }

  /** Dropping the first slot and appending a new key loses exactly the first key. */
  lemma EvictFirst<V>(cl: Cache<V>, k: u8, v: V, now: nat)
    requires |cl.slots| > 0 && DistinctKeys(cl.slots)
    requires forall i :: 0 <= i < |cl.slots| ==> cl.slots[i].key != k
    ensures var r := cl.(slots := cl.slots[1..] + [Slot(k, v, now)]);
      && Lookup(r, cl.slots[0].key, now).None?
      && forall k' :: k' != k && k' != cl.slots[0].key ==> Lookup(r, k', now) == Lookup(cl, k', now)
  {
    var live := cl.slots;
    var r := cl.(slots := live[1..] + [Slot(k, v, now)]);
    var victim := live[0].key;
    EvictedKeyGone(live, Slot(k, v, now));
    LookupNone(r, victim, now);
    forall k' | k' != k && k' != victim ensures Lookup(r, k', now) == Lookup(cl, k', now) {
      if s :| s in live && s.key == k' {
        assert s in live[1..];
        LookupSome(cl, k', now, s);
        LookupSome(r, k', now, s);
      } else {
        LookupNone(cl, k', now);
        LookupNone(r, k', now);
      }
    }
  }

  /** A key that reads as absent has no slot among the live ones. */
  lemma NewKeyNotLive<V>(cl: Cache<V>, k: u8, now: nat)
    requires DistinctKeys(cl.slots) && Lookup(cl, k, now).None?
    requires forall s :: s in cl.slots ==> !Expired(cl.ttl, s, now)
    ensures forall i :: 0 <= i < |cl.slots| ==> cl.slots[i].key != k
  {
    forall i | 0 <= i < |cl.slots| ensures cl.slots[i].key != k {
      LookupSome(cl, cl.slots[i].key, now, cl.slots[i]);
    }
  }

  /** With distinct keys, the first key occurs nowhere after it. */
  lemma EvictedKeyGone<V>(live: seq<Slot<V>>, added: Slot<V>)
    requires |live| > 0 && DistinctKeys(live) && added.key != live[0].key
    ensures forall s :: s in live[1..] + [added] ==> s.key != live[0].key
  {
    forall s | s in live[1..] + [added] ensures s.key != live[0].key {
      if s in live[1..] {
        var i :| 0 <= i < |live| - 1 && live[1..][i] == s;
        assert live[i + 1] == s;
      }
    }
  }

  /** A filter that rejects some element is strictly shorter. */
  lemma {:induction false} NotAllKept<T>(s: seq<T>, p: T -> bool, x: T)
    requires x in s && !p(x)
    ensures |Seqs.Filter(s, p)| < |s|
  {
    if s[0] != x {
      NotAllKept(s[1..], p, x);
    }
  }

  /**
   * `get`: expired slots go first; a live slot for `k` is returned, marked
   * most recently used and re-stamped with `now`.
   */
  function Get<V>(c: Cache<V>, k: u8, now: nat): (r: (Cache<V>, Option<V>))
    requires Valid(c)
    ensures Valid(r.0) && r.0.capacity == c.capacity && r.0.ttl == c.ttl
    ensures r.1 == Lookup(c, k, now)
    ensures forall k' :: Lookup(r.0, k', now) == Lookup(c, k', now)
  {
    var live := Live(c.ttl, c.slots, now);
    var cl := c.(slots := live);
    match IndexOf(live, k)
    case None =>
      GetMiss(c, k, now);
      (cl, None)
    case Some(i) =>
      GetHit(c, k, now, i);
      (Insert(cl, k, live[i].value, now), Some(live[i].value))
  }

  lemma GetMiss<V>(c: Cache<V>, k: u8, now: nat)
    requires Valid(c) && IndexOf(Live(c.ttl, c.slots, now), k).None?
    ensures var cl := c.(slots := Live(c.ttl, c.slots, now));
      && Valid(cl) && Lookup(c, k, now) == None
      && (forall k' :: Lookup(cl, k', now) == Lookup(c, k', now))
      && Seqs.IsSubsequence(cl.slots, c.slots)
      && forall i :: 0 <= i < |cl.slots| ==> !Expired(cl.ttl, cl.slots[i], now)
  {
    LiveSameLookups(c, now);
    Seqs.FilterIsSubsequence(c.slots, (s: Slot<V>) => !Expired(c.ttl, s, now));
    LookupNone(c.(slots := Live(c.ttl, c.slots, now)), k, now);
  }

  lemma GetHit<V>(c: Cache<V>, k: u8, now: nat, i: nat)
    requires Valid(c) && IndexOf(Live(c.ttl, c.slots, now), k) == Some(i)
    ensures var live := Live(c.ttl, c.slots, now);
      var cl := c.(slots := live);
      && Valid(cl)
      && Lookup(c, k, now) == Some(live[i].value)
      && forall k' :: Lookup(Insert(cl, k, live[i].value, now), k', now) == Lookup(c, k', now)
  {
    var live := Live(c.ttl, c.slots, now);
    LiveSameLookups(c, now);
    var cl := c.(slots := live);
    LookupSome(cl, k, now, live[i]);
  }

  lemma GetHitOrder<V>(c: Cache<V>, k: u8, now: nat, i: nat)
    requires Valid(c) && IndexOf(Live(c.ttl, c.slots, now), k) == Some(i)
    ensures var live := Live(c.ttl, c.slots, now);
      && Valid(c.(slots := live))
      && var r := Insert(c.(slots := live), k, live[i].value, now);
      Seqs.IsSubsequence(r.slots[..|r.slots| - 1], c.slots)
  {
    var live := Live(c.ttl, c.slots, now);
    LiveSameLookups(c, now);
    Seqs.FilterIsSubsequence(c.slots, (s: Slot<V>) => !Expired(c.ttl, s, now));
    var r := Insert(c.(slots := live), k, live[i].value, now);
    InsertOrder(c.(slots := live), k, live[i].value, now);
    Seqs.SubsequenceTrans(r.slots[..|r.slots| - 1], live, c.slots);
  }

  /**
   * Recency after `get`: a hit moves the key to the last slot, re-stamped
   * `now`, the other slots keeping their order; a miss only drops slots;
   * either way no slot left has expired.
   */
  lemma GetOrder<V>(c: Cache<V>, k: u8, now: nat)
    requires Valid(c)
    ensures var r := Get(c, k, now);
      && (r.1.Some? ==> |r.0.slots| > 0 && r.0.slots[|r.0.slots| - 1] == Slot(k, r.1.value, now))
      && (r.1.Some? ==> Seqs.IsSubsequence(r.0.slots[..|r.0.slots| - 1], c.slots))
      && (r.1.None? ==> Seqs.IsSubsequence(r.0.slots, c.slots))
      && forall i :: 0 <= i < |r.0.slots| ==> !Expired(r.0.ttl, r.0.slots[i], now)
  {
    var live := Live(c.ttl, c.slots, now);
    match IndexOf(live, k)
    case None =>
      GetMiss(c, k, now);
    case Some(i) =>
      GetHitOrder(c, k, now, i);
      InsertOrder(c.(slots := live), k, live[i].value, now);
  }

  /**
   * The most recently used slot survives the next insert of another key at
   * the same instant, once the cache holds at least two keys.
   */
  lemma NewestSurvives<V>(c: Cache<V>, k: u8, v: V, t: nat, k2: u8, v2: V)
    requires Valid(c) && c.capacity >= 2 && k2 != k
    requires |c.slots| > 0 && c.slots[|c.slots| - 1] == Slot(k, v, t)
    requires forall i :: 0 <= i < |c.slots| ==> !Expired(c.ttl, c.slots[i], t)
    ensures Lookup(Insert(c, k2, v2, t), k, t) == Some(v)
  {
    LookupSome(c, k, t, Slot(k, v, t));
    FilterAll(c.slots, (s: Slot<V>) => !Expired(c.ttl, s, t));
    var live := Live(c.ttl, c.slots, t);
    assert live == c.slots;
    if Lookup(c, k2, t).None? && |live| >= c.capacity {
      assert c.slots[0].key != k by {
        assert c.slots[0].key != c.slots[|c.slots| - 1].key;
      }
    }
  }

  /** A key just written is not the next one evicted. */
  lemma WrittenKeySurvives<V>(c: Cache<V>, k: u8, v: V, t: nat, k2: u8, v2: V)
    requires Valid(c) && c.capacity >= 2 && k2 != k
    ensures Lookup(Insert(Insert(c, k, v, t), k2, v2, t), k, t) == Some(v)
  {
    InsertOrder(c, k, v, t);
    NewestSurvives(Insert(c, k, v, t), k, v, t, k2, v2);
  }

  /** A key just read is not the next one evicted. */
  lemma ReadKeySurvives<V>(c: Cache<V>, k: u8, t: nat, k2: u8, v2: V)
    requires Valid(c) && c.capacity >= 2 && k2 != k && Lookup(c, k, t).Some?
    ensures Lookup(Insert(Get(c, k, t).0, k2, v2, t), k, t) == Lookup(c, k, t)
  {
    var g := Get(c, k, t);
    GetOrder(c, k, t);
    NewestSurvives(g.0, k, g.1.value, t, k2, v2);
  }

  /** A value written at `t` is read back at any later `now` up to `t + ttl`, and not after. */
  lemma InsertThenLookup<V>(c: Cache<V>, k: u8, v: V, t: nat, now: nat)
    requires Valid(c)
    ensures Lookup(Insert(c, k, v, t), k, now) ==
              if c.ttl.Some? && t + c.ttl.value < now then None else Some(v)
  {
    var r := Insert(c, k, v, t);
    assert r.slots[|r.slots| - 1] == Slot(k, v, t);
    LookupSome(r, k, now, Slot(k, v, t));
  }

  /** A successful read re-stamps the entry: it stays readable for another `ttl`. */
  lemma GetThenLookup<V>(c: Cache<V>, k: u8, t: nat, now: nat)
    requires Valid(c) && Lookup(c, k, t).Some?
    ensures Lookup(Get(c, k, t).0, k, now) ==
              if c.ttl.Some? && t + c.ttl.value < now then None else Lookup(c, k, t)
  {
    var live := Live(c.ttl, c.slots, t);
    LiveSameLookups(c, t);
    var cl := c.(slots := live);
    var i := IndexOf(live, k).value;
    LookupSome(cl, k, t, live[i]);
    InsertThenLookup(cl, k, live[i].value, t, now);
  }

  /** Without a TTL nothing expires: a read does not depend on the clock. */
  lemma {:induction false} NoTtlTimeless<V>(c: Cache<V>, k: u8, t: nat, now: nat)
    requires c.ttl.None?
    ensures Lookup(c, k, t) == Lookup(c, k, now)
  {
  }

  /** Without a TTL a read or a write drops nothing but what eviction drops. */
  lemma NoTtlNothingExpires<V>(c: Cache<V>, now: nat)
    requires c.ttl.None?
    ensures Live(c.ttl, c.slots, now) == c.slots
  {
    FilterAll(c.slots, (s: Slot<V>) => !Expired(c.ttl, s, now));
  }

  lemma {:induction false} FilterAll<T>(s: seq<T>, p: T -> bool)
    requires forall i :: 0 <= i < |s| ==> p(s[i])
    ensures Seqs.Filter(s, p) == s
  {
    if |s| > 0 {
      FilterAll(s[1..], p);
    }
  }
}
