/**
 * The in-memory result cache of backend/server.py (`cache`,
 * `CACHE_TTL_HOURS`, `get_cached_result`, `set_cached_result`).
 *
 * The cache maps an image hash to the stored result, its result id and the
 * time it was stored. A lookup serves a stored result while it is at most 24
 * hours old; a lookup that finds an older entry deletes it and misses. There
 * is no other removal and no size bound.
 *
 * `datetime.now()` is a parameter: time is an integer count of microseconds,
 * the resolution of Python's `datetime`, and nothing requires it to be
 * monotone. The result payload (a Python dict) is the type parameter `R`.
 */
module ResultCache {
  import opened Wrappers

  const CacheTtlHours: nat := 24

  /** `timedelta(hours=CACHE_TTL_HOURS)` in microseconds. */
  const Ttl: nat := CacheTtlHours * 3600 * 1000000

  /** One cache record: `{result, result_id, timestamp}`. */
  datatype Entry<R> = Entry(result: R, resultId: string, timestamp: int)

  type Store<R> = map<string, Entry<R>>

  /** `datetime.now() - timestamp > timedelta(hours=24)`: strictly older than the TTL. */
  predicate Expired<R>(e: Entry<R>, now: int) {
    now - e.timestamp > Ttl
  }

  /** What `get_cached_result(key)` returns at time `now`. */
  function Lookup<R>(m: Store<R>, key: string, now: int): (r: Option<R>)
    ensures r.Some? <==> key in m && now <= m[key].timestamp + Ttl
    ensures r.Some? ==> r.value == m[key].result
  {
    if key !in m then None
    else if Expired(m[key], now) then None
    else Some(m[key].result)
  }

  /** The cache after `get_cached_result(key)` at time `now`: only an expired `key` goes. */
  function AfterLookup<R>(m: Store<R>, key: string, now: int): (m': Store<R>)
    ensures m'.Keys <= m.Keys
    ensures forall k :: k in m' ==> m'[k] == m[k]
    ensures key in m && Expired(m[key], now) ==> m'.Keys == m.Keys - {key}
    ensures !(key in m && Expired(m[key], now)) ==> m' == m
  {
    if key in m && Expired(m[key], now) then m - {key} else m
  }

  /** The cache after `set_cached_result(key, resultId, result)` at time `now`. */
  function Put<R>(m: Store<R>, key: string, resultId: string, result: R, now: int): (m': Store<R>)
    ensures m'.Keys == m.Keys + {key}
    ensures m'[key] == Entry(result, resultId, now)
    ensures forall k :: k in m && k != key ==> k in m' && m'[k] == m[k]
  {
    m[key := Entry(result, resultId, now)]
  }

  /** The module-level `cache` dict and the two functions that use it. */
  class Cache<R> {
    var entries: Store<R>

    /** `cache = {}` at process start. */
    constructor ()
      ensures entries == map[]
    {
      entries := map[];
    }

    /** `get_cached_result(key)` called at time `now`. */
    method Get(key: string, now: int) returns (r: Option<R>)
      modifies this
      ensures r == Lookup(old(entries), key, now)
      ensures entries == AfterLookup(old(entries), key, now)
      ensures key !in old(entries) ==> r.None? && entries == old(entries)
      ensures key in old(entries) && Expired(old(entries)[key], now) ==>
                r.None? && entries == old(entries) - {key}
      ensures key in old(entries) && !Expired(old(entries)[key], now) ==>
                r == Some(old(entries)[key].result) && entries == old(entries)
    {
      if key !in entries {
        return None;
      }
      var item := entries[key];
      if now - item.timestamp > Ttl {
        entries := entries - {key};
        return None;
      }
      r := Some(item.result);
    }

    /** `set_cached_result(key, resultId, result)` called at time `now`. */
    method Set(key: string, resultId: string, result: R, now: int)
      modifies this
      ensures entries == Put(old(entries), key, resultId, result, now)
      ensures forall k :: k != key ==> (k in entries <==> k in old(entries))
      ensures forall k :: k != key && k in entries ==> entries[k] == old(entries)[k]
    {
      entries := entries[key := Entry(result, resultId, now)];
    }
  }

  /** A lookup of a key that is not stored misses and changes nothing. */
  lemma LookupMissing<R>(m: Store<R>, key: string, now: int)
    requires key !in m
    ensures Lookup(m, key, now) == None && AfterLookup(m, key, now) == m
  {
  }

  /** A lookup of an entry older than the TTL misses and removes that key alone. */
  lemma LookupExpired<R>(m: Store<R>, key: string, now: int)
    requires key in m && now > m[key].timestamp + Ttl
    ensures Lookup(m, key, now) == None
    ensures AfterLookup(m, key, now) == m - {key}
    ensures forall k :: k != key ==> (k in AfterLookup(m, key, now) <==> k in m)
  {
  }

  /** A lookup of an entry at most the TTL old, exactly 24 hours included, serves it. */
  lemma LookupFresh<R>(m: Store<R>, key: string, now: int)
    requires key in m && now - m[key].timestamp <= Ttl
    ensures Lookup(m, key, now) == Some(m[key].result)
    ensures AfterLookup(m, key, now) == m
  {
  }

  /** A result stored at `t` is served by every lookup up to `t` + 24 hours. */
  lemma PutThenLookup<R>(m: Store<R>, key: string, resultId: string, result: R, t: int, now: int)
    requires now <= t + Ttl
    ensures Lookup(Put(m, key, resultId, result, t), key, now) == Some(result)
    ensures AfterLookup(Put(m, key, resultId, result, t), key, now) == Put(m, key, resultId, result, t)
  {
  }

  /** After more than 24 hours the same lookup misses and evicts the entry. */
  lemma PutThenLateLookup<R>(m: Store<R>, key: string, resultId: string, result: R, t: int, now: int)
    requires now > t + Ttl
    ensures Lookup(Put(m, key, resultId, result, t), key, now) == None
    ensures AfterLookup(Put(m, key, resultId, result, t), key, now) == m - {key}
  {
  }

  /** A second store on the same key replaces the first: one entry per key. */
  lemma PutOverwrites<R>(m: Store<R>, key: string, id1: string, r1: R, t1: int,
                         id2: string, r2: R, t2: int)
    ensures Put(Put(m, key, id1, r1, t1), key, id2, r2, t2) == Put(m, key, id2, r2, t2)
  {
  }

  /** Storing one key does not change what a lookup of another key sees. */
  lemma PutOtherKey<R>(m: Store<R>, key: string, resultId: string, result: R, t: int,
                       other: string, now: int)
    requires other != key
    ensures Lookup(Put(m, key, resultId, result, t), other, now) == Lookup(m, other, now)
  {
  }

  /** Repeating a lookup at the same time answers the same and changes nothing more. */
  lemma LookupRepeat<R>(m: Store<R>, key: string, now: int)
    ensures Lookup(AfterLookup(m, key, now), key, now) == Lookup(m, key, now)
    ensures AfterLookup(AfterLookup(m, key, now), key, now) == AfterLookup(m, key, now)
  {
  }

  // ---------------------------------------------------------------------------
  // Traces of calls: lazy eviction against the cache's logical meaning
  // ---------------------------------------------------------------------------

  /** A call of `set_cached_result` or `get_cached_result` at a given time. */
  datatype Call<R> = SetCall(key: string, resultId: string, result: R, time: int)
                   | GetCall(key: string, time: int)

  /** The cache after a sequence of calls, and the answers of its lookups in order. */
  function Replay<R>(m: Store<R>, calls: seq<Call<R>>): (Store<R>, seq<Option<R>>)
    decreases |calls|
  {
    if calls == [] then (m, [])
    else match calls[0]
      case SetCall(k, id, r, t) => Replay(Put(m, k, id, r, t), calls[1..])
      case GetCall(k, t) =>
        var (m', answers) := Replay(AfterLookup(m, k, t), calls[1..]);
        (m', [Lookup(m, k, t)] + answers)
  }

  /**
   * The cache's logical meaning: entries are never deleted, and one is served
   * exactly while it is at most 24 hours old.
   */
  function LogicalReplay<R>(m: Store<R>, calls: seq<Call<R>>): (Store<R>, seq<Option<R>>)
    decreases |calls|
  {
    if calls == [] then (m, [])
    else match calls[0]
      case SetCall(k, id, r, t) => LogicalReplay(Put(m, k, id, r, t), calls[1..])
      case GetCall(k, t) =>
        var (m', answers) := LogicalReplay(m, calls[1..]);
        (m', [Lookup(m, k, t)] + answers)
  }

  /** Every call happens at `t0` or later, in nondecreasing time order. */
  predicate TimesFrom<R>(calls: seq<Call<R>>, t0: int) {
    forall i :: 0 <= i < |calls| ==>
      (t0 <= calls[i].time && (i + 1 < |calls| ==> calls[i].time <= calls[i + 1].time))
  }

  /**
   * The physical store agrees with the logical one at time `t`: it keeps a
   * subset of the logical entries unchanged, and every entry it has dropped
   * was already expired at `t`.
   */
  ghost predicate Agrees<R>(phys: Store<R>, logical: Store<R>, t: int) {
    && phys.Keys <= logical.Keys
    && (forall k :: k in phys ==> phys[k] == logical[k])
    && (forall k :: k in logical && k !in phys ==> Expired(logical[k], t))
  }

  lemma {:induction false} TimesFromTail<R>(calls: seq<Call<R>>, t0: int)
    requires calls != [] && TimesFrom(calls, t0)
    ensures TimesFrom(calls[1..], calls[0].time)
  {
    forall i | 0 <= i < |calls[1..]|
      ensures calls[0].time <= calls[1..][i].time
    {
      var j := 0;
      while j < i + 1
        invariant j <= i + 1
        invariant calls[0].time <= calls[j].time
      {
        j := j + 1;
      }
    }
  }

  /**
   * With a clock that never goes back, lazy eviction is invisible: every
   * lookup of a trace answers as the never-evicting logical cache does.
   */
  lemma {:induction false} LazyEvictionIsInvisible<R>(phys: Store<R>, logical: Store<R>,
                                                      calls: seq<Call<R>>, t0: int)
    requires TimesFrom(calls, t0) && Agrees(phys, logical, t0)
    ensures Replay(phys, calls).1 == LogicalReplay(logical, calls).1
    decreases |calls|
  {
    if calls != [] {
      TimesFromTail(calls, t0);
      var t := calls[0].time;
      match calls[0]
      case SetCall(k, id, r, _) =>
        LazyEvictionIsInvisible(Put(phys, k, id, r, t), Put(logical, k, id, r, t), calls[1..], t);
      case GetCall(k, _) =>
        assert Lookup(phys, k, t) == Lookup(logical, k, t);
        LazyEvictionIsInvisible(AfterLookup(phys, k, t), logical, calls[1..], t);
    }
  }

  /** From the empty cache created at start-up, lazy eviction is invisible. */
  lemma LazyEvictionFromStart<R>(calls: seq<Call<R>>)
    requires calls != [] && TimesFrom(calls, calls[0].time)
    ensures Replay(map[], calls).1 == LogicalReplay(map[], calls).1
  {
    LazyEvictionIsInvisible(map[], map[], calls, calls[0].time);
  }

  /**
   * When the clock goes back, lazy eviction becomes visible: an entry evicted
   * at a late time is gone, although at the earlier time it would be fresh.
   */
  lemma EvictionVisibleWhenClockGoesBack(r: int)
    ensures var calls := [SetCall("k", "id", r, 0), GetCall("k", Ttl + 1), GetCall("k", 0)];
            Replay(map[], calls).1 == [None, None] &&
            LogicalReplay(map[], calls).1 == [None, Some(r)]
  {
    var calls := [SetCall("k", "id", r, 0), GetCall("k", Ttl + 1), GetCall("k", 0)];
    var stored := Put(map[], "k", "id", r, 0);
    assert calls[1..][1..] == [GetCall("k", 0)];
    assert calls[1..][1..][1..] == [];
    assert Replay(stored, calls[1..]).1 == [None] + Replay(map[], calls[1..][1..]).1;
    assert Replay(map[], calls[1..][1..]).1 == [None];
    assert LogicalReplay(stored, calls[1..]).1 == [None] + LogicalReplay(stored, calls[1..][1..]).1;
    assert LogicalReplay(stored, calls[1..][1..]).1 == [Some(r)];
  }
}
