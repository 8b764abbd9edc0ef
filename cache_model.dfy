/**
 * The behaviour of `core/cache_manager.py` as functions on values: cache entries,
 * the memory cache's dictionary and counters, the file cache's directory, and the
 * two-level manager. The classes in module `Cache` are proved to follow these
 * functions; the lemmas here state what the layers promise.
 *
 * Time is an integer clock reading passed in as `now`.
 * Python's `dict` keeps insertion order, and that order decides ties in the LRU
 * choice, so the memory cache's dictionary is a sequence of entries with
 * pairwise distinct keys; `Lookup` gives its key -> entry view.
 */
module CacheModel {
  import opened Wrappers

  // ================================================================ entries

  /** `CacheEntry`: a value with its creation time, access statistics and optional ttl. */
  datatype Entry<V> = Entry(key: string, value: V, timestamp: int, accessCount: nat, lastAccessed: int, ttl: Option<int>)
  {
    /** `is_expired`: strictly more than `ttl` has passed since creation; never without a ttl. */
    predicate IsExpired(now: int) {
      ttl.Some? && now - timestamp > ttl.value
    }

    /** The bookkeeping of a successful read: one more access, stamped `now`. */
    function Touch(now: int): (e: Entry<V>)
      ensures e.key == key && e.value == value && e.timestamp == timestamp && e.ttl == ttl
      ensures e.accessCount == accessCount + 1 && e.lastAccessed == now
    {
      this.(accessCount := accessCount + 1, lastAccessed := now)
    }
  }

  /** A fresh entry, as `CacheEntry(key=..., value=..., ttl=...)` builds it at time `now`. */
  function NewEntry<V>(key: string, value: V, ttl: Option<int>, now: int): (e: Entry<V>)
    ensures e.key == key && e.value == value && e.ttl == ttl
    ensures e.accessCount == 0 && e.timestamp == now && e.lastAccessed == now
  {
    Entry(key, value, now, 0, now, ttl)
  }

  /** Without a ttl an entry never expires; with one, expiry is the strict comparison. */
  lemma ExpiryRule<V>(e: Entry<V>, now: int)
    ensures e.ttl.None? ==> !e.IsExpired(now)
    ensures e.ttl.Some? ==> (e.IsExpired(now) <==> now - e.timestamp > e.ttl.value)
  {
  }

  /** Reads never extend an entry's life: expiry is measured from creation, not last access. */
  lemma TouchKeepsExpiry<V>(e: Entry<V>, readAt: int, now: int)
    ensures e.Touch(readAt).IsExpired(now) == e.IsExpired(now)
  {
  }

  /** Once expired, an entry stays expired. */
  lemma ExpiryIsPermanent<V>(e: Entry<V>, t: int, later: int)
    requires t <= later && e.IsExpired(t)
    ensures e.IsExpired(later)
  {
  }

  // ================================================================ the dictionary

  predicate DistinctKeys<V>(es: seq<Entry<V>>) {
    forall i, j :: 0 <= i < j < |es| ==> es[i].key != es[j].key
  }

  /** The position of `key`, or -1. */
  function IndexOf<V>(es: seq<Entry<V>>, key: string): (i: int)
    ensures -1 <= i < |es|
    ensures i >= 0 ==> es[i].key == key && forall j :: 0 <= j < i ==> es[j].key != key
    ensures i < 0 <==> forall j :: 0 <= j < |es| ==> es[j].key != key
  {
    if es == [] then -1
    else if es[0].key == key then 0
    else
      var j := IndexOf(es[1..], key);
      if j < 0 then -1 else j + 1
  }

  /** `self.cache.get(key)`: the entry stored under `key`. */
  function Lookup<V>(es: seq<Entry<V>>, key: string): Option<Entry<V>> {
    var i := IndexOf(es, key);
    if i < 0 then None else Some(es[i])
  }

  function RemoveAt<V>(es: seq<Entry<V>>, i: nat): (r: seq<Entry<V>>)
    requires i < |es|
    ensures |r| == |es| - 1
  {
    es[..i] + es[i + 1..]
  }

  /** The set of keys of the dictionary. */
  function KeySet<V>(es: seq<Entry<V>>): set<string> {
    set i | 0 <= i < |es| :: es[i].key
  }

  /** The keys of a non-empty dictionary: the first key and the keys of the rest. */
  lemma KeySetCons<V>(es: seq<Entry<V>>)
    requires es != []
    ensures KeySet(es) == KeySet(es[1..]) + {es[0].key}
  {
    forall k ensures k in KeySet(es) <==> k in KeySet(es[1..]) + {es[0].key} {
      if k in KeySet(es) {
        var j :| 0 <= j < |es| && es[j].key == k;
        if j > 0 { assert es[1..][j - 1].key == k; }
      }
      if k in KeySet(es[1..]) {
        var j :| 0 <= j < |es[1..]| && es[1..][j].key == k;
        assert es[j + 1].key == k;
      }
    }
  }

  /** With distinct keys, `Lookup` finds exactly the stored entry carrying the key. */
  lemma LookupIff<V>(es: seq<Entry<V>>, key: string, x: Entry<V>)
    requires DistinctKeys(es)
    ensures Lookup(es, key) == Some(x) <==> x in es && x.key == key
  {
    if x in es && x.key == key {
      var k :| 0 <= k < |es| && es[k] == x;
      var i := IndexOf(es, key);
      assert i >= 0;
    }
  }

  lemma LookupNone<V>(es: seq<Entry<V>>, key: string)
    ensures Lookup(es, key).None? <==> key !in KeySet(es)
  {
    if key in KeySet(es) {
      var x :| x in es && x.key == key;
      var k :| 0 <= k < |es| && es[k] == x;
    }
  }

  /** Removing the entry at `i` removes its key and keeps every other key's entry. */
  lemma LookupRemoveAt<V>(es: seq<Entry<V>>, i: nat, key: string)
    requires DistinctKeys(es) && i < |es|
    ensures DistinctKeys(RemoveAt(es, i))
    ensures Lookup(RemoveAt(es, i), key) == if key == es[i].key then None else Lookup(es, key)
  {
    var r := RemoveAt(es, i);
    assert forall x :: x in r <==> x in es && x != es[i] by {
      forall x ensures x in r <==> x in es && x != es[i] {
        if x in r {
          var k :| 0 <= k < |r| && r[k] == x;
          if k < i { assert r[k] == es[k]; } else { assert r[k] == es[k + 1]; }
        }
        if x in es && x != es[i] {
          var k :| 0 <= k < |es| && es[k] == x;
          if k < i { assert r[k] == x; } else { assert k > i && r[k - 1] == x; }
        }
      }
    }
    assert DistinctKeys(r) by {
      forall a, b | 0 <= a < b < |r| ensures r[a].key != r[b].key {
        var a' := if a < i then a else a + 1;
        var b' := if b < i then b else b + 1;
        assert r[a] == es[a'] && r[b] == es[b'];
      }
    }
    LookupNone(r, key);
    LookupNone(es, key);
    match Lookup(r, key)
    case Some(x) =>
      LookupIff(r, key, x);
      LookupIff(es, key, x);
    case None =>
      if key != es[i].key && Lookup(es, key).Some? {
        var y := Lookup(es, key).value;
        LookupIff(es, key, y);
      }
  }

  /** Replacing the entry at `i` by one with the same key changes only that key's entry. */
  lemma LookupUpdate<V>(es: seq<Entry<V>>, i: nat, e: Entry<V>, key: string)
    requires DistinctKeys(es) && i < |es| && e.key == es[i].key
    ensures DistinctKeys(es[i := e])
    ensures Lookup(es[i := e], key) == if key == e.key then Some(e) else Lookup(es, key)
  {
    var r := es[i := e];
    assert DistinctKeys(r);
    if key == e.key {
      assert r[i] == e;
      LookupIff(r, key, e);
    } else {
      LookupNone(r, key);
      LookupNone(es, key);
      assert KeySet(r) == KeySet(es) by {
        forall k ensures k in KeySet(r) <==> k in KeySet(es) {
          if k in KeySet(r) {
            var j :| 0 <= j < |r| && r[j].key == k;
            assert es[j].key == k;
          }
          if k in KeySet(es) {
            var j :| 0 <= j < |es| && es[j].key == k;
            assert r[j].key == k;
          }
        }
      }
      match Lookup(es, key)
      case Some(y) =>
        LookupIff(es, key, y);
        var j :| 0 <= j < |es| && es[j] == y;
        assert j != i && r[j] == y;
        LookupIff(r, key, y);
      case None =>
    }
  }

  /** Appending an entry under a new key adds that key and keeps every other. */
  lemma LookupAppend<V>(es: seq<Entry<V>>, e: Entry<V>, key: string)
    requires DistinctKeys(es) && e.key !in KeySet(es)
    ensures DistinctKeys(es + [e])
    ensures Lookup(es + [e], key) == if key == e.key then Some(e) else Lookup(es, key)
  {
    var r := es + [e];
    assert DistinctKeys(r) by {
      forall a, b | 0 <= a < b < |r| ensures r[a].key != r[b].key {
        if b == |es| { assert r[a] in es; }
      }
    }
    if key == e.key {
      LookupIff(r, key, e);
    } else {
      LookupNone(r, key);
      LookupNone(es, key);
      assert KeySet(r) == KeySet(es) + {e.key} by {
        forall k ensures k in KeySet(r) <==> k in KeySet(es) + {e.key} {
          if k in KeySet(r) {
            var j :| 0 <= j < |r| && r[j].key == k;
            if j < |es| { assert es[j].key == k; }
          }
          if k in KeySet(es) {
            var j :| 0 <= j < |es| && es[j].key == k;
            assert r[j].key == k;
          }
          if k == e.key { assert r[|es|].key == k; }
        }
      }
      match Lookup(es, key)
      case Some(y) =>
        LookupIff(es, key, y);
        LookupIff(r, key, y);
      case None =>
    }
  }

  /** With distinct keys the dictionary's size is its number of keys. */
  lemma {:induction false} KeySetSize<V>(es: seq<Entry<V>>)
    requires DistinctKeys(es)
    ensures |KeySet(es)| == |es|
  {
    if es != [] {
      var rest := es[1..];
      assert DistinctKeys(rest);
      KeySetSize(rest);
      KeySetCons(es);
      assert es[0].key !in KeySet(rest) by {
        forall j | 0 <= j < |rest| ensures rest[j].key != es[0].key {
          assert rest[j] == es[j + 1];
        }
      }
    }
  }

  // ================================================================ memory cache

  /** The most entries a `MemoryCache` of this `max_size` can ever hold (one gets in even at 0). */
  function Capacity(maxSize: int): nat {
    if maxSize >= 1 then maxSize else 1
  }

  /** The mutable part of a `MemoryCache`: the dictionary and the two counters. */
  datatype MemState<V> = MemState(cache: seq<Entry<V>>, hits: nat, misses: nat)

  predicate MemValid<V>(s: MemState<V>, maxSize: int) {
    DistinctKeys(s.cache) && |s.cache| <= Capacity(maxSize)
  }

  /** The new state and the returned value of one call. */
  datatype GetOutcome<V> = GetOutcome(state: MemState<V>, value: Option<V>)

  /** `MemoryCache.get(key)` at time `now`; `None` is the `None` it returns for a miss. */
  function MemGet<V>(s: MemState<V>, key: string, now: int): GetOutcome<V> {
    var i := IndexOf(s.cache, key);
    if i < 0 then GetOutcome(s.(misses := s.misses + 1), None)
    else if s.cache[i].IsExpired(now) then
      GetOutcome(MemState(RemoveAt(s.cache, i), s.hits, s.misses + 1), None)
    else
      GetOutcome(MemState(s.cache[i := s.cache[i].Touch(now)], s.hits + 1, s.misses), Some(s.cache[i].value))
  }

  /** The key `_evict_lru` minimises: `(access_count, last_accessed)`, compared lexicographically. */
  predicate Before<V>(a: Entry<V>, b: Entry<V>) {
    a.accessCount < b.accessCount || (a.accessCount == b.accessCount && a.lastAccessed < b.lastAccessed)
  }

  /**
   * The entry `min(...)` picks: a minimal one, and the first of the minimal ones
   * in dictionary order (a later entry replaces the candidate only when strictly smaller).
   */
  function LruIndex<V>(es: seq<Entry<V>>): (i: nat)
    requires |es| > 0
    ensures i < |es|
    ensures forall j :: 0 <= j < |es| ==> !Before(es[j], es[i])
    ensures forall j :: 0 <= j < i ==> Before(es[i], es[j])
  {
    if |es| == 1 then 0
    else
      var b := LruIndex(es[..|es| - 1]);
      if Before(es[|es| - 1], es[b]) then |es| - 1 else b
  }

  /** `_evict_lru`: nothing on an empty dictionary, otherwise the LRU entry removed. */
  function Evicted<V>(es: seq<Entry<V>>): seq<Entry<V>> {
    if es == [] then [] else RemoveAt(es, LruIndex(es))
  }

  /** `MemoryCache.set(key, value, ttl)`: evict first only for a new key at capacity. */
  function MemSet<V>(s: MemState<V>, maxSize: int, defaultTtl: Option<int>,
                     key: string, value: V, ttl: Option<int>, now: int): MemState<V>
  {
    var e := NewEntry(key, value, if ttl.Some? then ttl else defaultTtl, now);
    var i := IndexOf(s.cache, key);
    if i >= 0 then s.(cache := s.cache[i := e])
    else
      var kept := if |s.cache| >= maxSize then Evicted(s.cache) else s.cache;
      s.(cache := kept + [e])
  }

  datatype DeleteOutcome<V> = DeleteOutcome(state: MemState<V>, deleted: bool)

  /** `MemoryCache.delete(key)`. */
  function MemDelete<V>(s: MemState<V>, key: string): DeleteOutcome<V> {
    var i := IndexOf(s.cache, key);
    if i < 0 then DeleteOutcome(s, false) else DeleteOutcome(s.(cache := RemoveAt(s.cache, i)), true)
  }

  /** `MemoryCache.clear()`: the entries go, the counters stay. */
  function MemClear<V>(s: MemState<V>): MemState<V> {
    s.(cache := [])
  }

  /** The entries that have not expired at `now`, in dictionary order. */
  function Live<V>(es: seq<Entry<V>>, now: int): (r: seq<Entry<V>>)
    ensures |r| <= |es|
    ensures forall i :: 0 <= i < |r| ==> r[i] in es && !r[i].IsExpired(now)
    ensures forall i :: 0 <= i < |es| && !es[i].IsExpired(now) ==> es[i] in r
  {
    if es == [] then []
    else (if es[0].IsExpired(now) then [] else [es[0]]) + Live(es[1..], now)
  }

  datatype CleanupOutcome<V> = CleanupOutcome(state: MemState<V>, removed: nat)

  /** `MemoryCache.cleanup_expired()`. */
  function MemCleanup<V>(s: MemState<V>, now: int): CleanupOutcome<V> {
    var live := Live(s.cache, now);
    CleanupOutcome(s.(cache := live), |s.cache| - |live|)
  }

  /** `get_stats()`; `hitRate` is the ratio the source renders as a percentage. */
  datatype MemStats = MemStats(size: nat, maxSize: int, hitCount: nat, missCount: nat, totalRequests: nat, hitRate: real)

  function MemStatsOf<V>(s: MemState<V>, maxSize: int): (st: MemStats)
    requires DistinctKeys(s.cache)
    ensures st.size == |KeySet(s.cache)|
    ensures st.totalRequests == st.hitCount + st.missCount && st.hitCount == s.hits && st.missCount == s.misses
    ensures 0.0 <= st.hitRate <= 1.0
    ensures st.totalRequests == 0 ==> st.hitRate == 0.0
    ensures st.totalRequests > 0 ==> st.hitRate * (st.totalRequests as real) == st.hitCount as real
  {
    KeySetSize(s.cache);
    var total := s.hits + s.misses;
    MemStats(|s.cache|, maxSize, s.hits, s.misses, total,
             if total > 0 then (s.hits as real) / (total as real) else 0.0)
  }

  // ---------------------------------------------------------------- memory cache properties

  /** A read of an absent or expired key: a miss, the key gone, nothing else changed. */
  lemma GetMiss<V>(s: MemState<V>, key: string, now: int)
    requires DistinctKeys(s.cache)
    requires Lookup(s.cache, key).None? || Lookup(s.cache, key).value.IsExpired(now)
    ensures MemGet(s, key, now).value == None
    ensures MemGet(s, key, now).state.misses == s.misses + 1
    ensures MemGet(s, key, now).state.hits == s.hits
    ensures Lookup(MemGet(s, key, now).state.cache, key) == None
    ensures forall k :: k != key ==> Lookup(MemGet(s, key, now).state.cache, k) == Lookup(s.cache, k)
    ensures DistinctKeys(MemGet(s, key, now).state.cache)
  {
    var i := IndexOf(s.cache, key);
    if i >= 0 {
      forall k ensures Lookup(RemoveAt(s.cache, i), k) == if k == key then None else Lookup(s.cache, k) {
        LookupRemoveAt(s.cache, i, k);
      }
    }
  }

  /** A read keeps the keys distinct and the size within capacity. */
  lemma GetKeepsValid<V>(s: MemState<V>, maxSize: int, key: string, now: int)
    requires MemValid(s, maxSize)
    ensures MemValid(MemGet(s, key, now).state, maxSize)
  {
    var i := IndexOf(s.cache, key);
    if i >= 0 {
      LookupRemoveAt(s.cache, i, key);
      LookupUpdate(s.cache, i, s.cache[i].Touch(now), key);
    }
  }

  /** A read of a live key: a hit returning the stored value, that entry touched, nothing else changed. */
  lemma GetHit<V>(s: MemState<V>, key: string, now: int, e: Entry<V>)
    requires DistinctKeys(s.cache)
    requires Lookup(s.cache, key) == Some(e) && !e.IsExpired(now)
    ensures MemGet(s, key, now).value == Some(e.value)
    ensures MemGet(s, key, now).state.hits == s.hits + 1
    ensures MemGet(s, key, now).state.misses == s.misses
    ensures Lookup(MemGet(s, key, now).state.cache, key) == Some(e.Touch(now))
    ensures forall k :: k != key ==> Lookup(MemGet(s, key, now).state.cache, k) == Lookup(s.cache, k)
    ensures |MemGet(s, key, now).state.cache| == |s.cache|
    ensures DistinctKeys(MemGet(s, key, now).state.cache)
  {
    var i := IndexOf(s.cache, key);
    forall k ensures Lookup(s.cache[i := e.Touch(now)], k) == if k == key then Some(e.Touch(now)) else Lookup(s.cache, k) {
      LookupUpdate(s.cache, i, e.Touch(now), k);
    }
  }

  /** `set` installs a fresh entry (count 0, stamped now, ttl defaulted) and keeps the bound. */
  lemma SetInstallsFresh<V>(s: MemState<V>, maxSize: int, defaultTtl: Option<int>,
                            key: string, value: V, ttl: Option<int>, now: int)
    requires MemValid(s, maxSize)
    ensures MemValid(MemSet(s, maxSize, defaultTtl, key, value, ttl, now), maxSize)
    ensures Lookup(MemSet(s, maxSize, defaultTtl, key, value, ttl, now).cache, key)
            == Some(NewEntry(key, value, if ttl.Some? then ttl else defaultTtl, now))
    ensures MemSet(s, maxSize, defaultTtl, key, value, ttl, now).hits == s.hits
    ensures MemSet(s, maxSize, defaultTtl, key, value, ttl, now).misses == s.misses
  {
    var e := NewEntry(key, value, if ttl.Some? then ttl else defaultTtl, now);
    var i := IndexOf(s.cache, key);
    if i >= 0 {
      LookupUpdate(s.cache, i, e, key);
    } else {
      var kept := if |s.cache| >= maxSize then Evicted(s.cache) else s.cache;
      if |s.cache| >= maxSize && s.cache != [] {
        LookupRemoveAt(s.cache, LruIndex(s.cache), key);
      }
      LookupNone(kept, key);
      LookupNone(s.cache, key);
      LookupAppend(kept, e, key);
    }
  }

  /** Overwriting an existing key never evicts: every other key keeps its entry. */
  lemma SetOverwriteKeepsOthers<V>(s: MemState<V>, maxSize: int, defaultTtl: Option<int>,
                                   key: string, value: V, ttl: Option<int>, now: int, k: string)
    requires MemValid(s, maxSize) && Lookup(s.cache, key).Some? && k != key
    ensures Lookup(MemSet(s, maxSize, defaultTtl, key, value, ttl, now).cache, k) == Lookup(s.cache, k)
    ensures |MemSet(s, maxSize, defaultTtl, key, value, ttl, now).cache| == |s.cache|
  {
    var e := NewEntry(key, value, if ttl.Some? then ttl else defaultTtl, now);
    LookupUpdate(s.cache, IndexOf(s.cache, key), e, k);
  }

  /**
   * A new key at capacity evicts exactly one entry, the one minimising
   * `(access_count, last_accessed)`, the first such in dictionary order.
   */
  lemma SetEvictsLru<V>(s: MemState<V>, maxSize: int, defaultTtl: Option<int>,
                        key: string, value: V, ttl: Option<int>, now: int)
    requires MemValid(s, maxSize) && Lookup(s.cache, key).None?
    requires |s.cache| >= maxSize && s.cache != []
    ensures var v := LruIndex(s.cache);
      var r := MemSet(s, maxSize, defaultTtl, key, value, ttl, now).cache;
      && Lookup(r, s.cache[v].key) == None
      && (forall j :: 0 <= j < |s.cache| && j != v ==> Lookup(r, s.cache[j].key) == Some(s.cache[j]))
      && (forall j :: 0 <= j < |s.cache| ==> !Before(s.cache[j], s.cache[v]))
      && (forall j :: 0 <= j < v ==> Before(s.cache[v], s.cache[j]))
      && |r| == |s.cache|
  {
    var v := LruIndex(s.cache);
    var kept := Evicted(s.cache);
    var e := NewEntry(key, value, if ttl.Some? then ttl else defaultTtl, now);
    LookupNone(s.cache, key);
    LookupRemoveAt(s.cache, v, key);
    LookupNone(kept, key);
    assert key != s.cache[v].key by { assert s.cache[v] in s.cache; }
    LookupRemoveAt(s.cache, v, s.cache[v].key);
    LookupAppend(kept, e, s.cache[v].key);
    forall j | 0 <= j < |s.cache| && j != v
      ensures Lookup(kept + [e], s.cache[j].key) == Some(s.cache[j])
    {
      assert s.cache[j] in s.cache;
      LookupIff(s.cache, s.cache[j].key, s.cache[j]);
      LookupRemoveAt(s.cache, v, s.cache[j].key);
      LookupAppend(kept, e, s.cache[j].key);
    }
  }

  /** After `set`, a `get` before the entry's ttl runs out returns the value. */
  lemma SetThenGet<V>(s: MemState<V>, maxSize: int, defaultTtl: Option<int>,
                      key: string, value: V, ttl: Option<int>, now: int, later: int)
    requires MemValid(s, maxSize)
    requires var t := if ttl.Some? then ttl else defaultTtl; t.None? || later - now <= t.value
    ensures MemGet(MemSet(s, maxSize, defaultTtl, key, value, ttl, now), key, later).value == Some(value)
  {
    SetInstallsFresh(s, maxSize, defaultTtl, key, value, ttl, now);
    var s1 := MemSet(s, maxSize, defaultTtl, key, value, ttl, now);
    GetHit(s1, key, later, NewEntry(key, value, if ttl.Some? then ttl else defaultTtl, now));
  }

  /** `delete` reports whether the key was there, and afterwards it is not; other keys stay. */
  lemma DeleteSpec<V>(s: MemState<V>, key: string)
    requires DistinctKeys(s.cache)
    ensures MemDelete(s, key).deleted <==> key in KeySet(s.cache)
    ensures Lookup(MemDelete(s, key).state.cache, key) == None
    ensures forall k :: k != key ==> Lookup(MemDelete(s, key).state.cache, k) == Lookup(s.cache, k)
    ensures MemDelete(s, key).state.hits == s.hits && MemDelete(s, key).state.misses == s.misses
    ensures DistinctKeys(MemDelete(s, key).state.cache)
  {
    LookupNone(s.cache, key);
    var i := IndexOf(s.cache, key);
    if i >= 0 {
      forall k ensures Lookup(RemoveAt(s.cache, i), k) == if k == key then None else Lookup(s.cache, k) {
        LookupRemoveAt(s.cache, i, k);
      }
    }
  }

  /** `clear` empties the dictionary and keeps both counters. */
  lemma ClearKeepsCounters<V>(s: MemState<V>)
    ensures KeySet(MemClear(s).cache) == {}
    ensures MemClear(s).hits == s.hits && MemClear(s).misses == s.misses
  {
  }

  /** `cleanup_expired` removes exactly the expired entries and returns how many it removed. */
  lemma CleanupRemovesExpired<V>(s: MemState<V>, now: int, k: string)
    requires DistinctKeys(s.cache)
    ensures DistinctKeys(MemCleanup(s, now).state.cache)
    ensures Lookup(MemCleanup(s, now).state.cache, k)
            == if Lookup(s.cache, k).Some? && !Lookup(s.cache, k).value.IsExpired(now) then Lookup(s.cache, k) else None
    ensures MemCleanup(s, now).removed + |MemCleanup(s, now).state.cache| == |s.cache|
    ensures MemCleanup(s, now).state.hits == s.hits && MemCleanup(s, now).state.misses == s.misses
  {
    var live := Live(s.cache, now);
    LiveDistinct(s.cache, now);
    LookupNone(live, k);
    LookupNone(s.cache, k);
    match Lookup(live, k)
    case Some(x) =>
      LookupIff(live, k, x);
      LookupIff(s.cache, k, x);
    case None =>
      if Lookup(s.cache, k).Some? {
        var y := Lookup(s.cache, k).value;
        LookupIff(s.cache, k, y);
        var j :| 0 <= j < |s.cache| && s.cache[j] == y;
      }
  }

  lemma {:induction false} LiveDistinct<V>(es: seq<Entry<V>>, now: int)
    requires DistinctKeys(es)
    ensures DistinctKeys(Live(es, now))
  {
    if es != [] {
      LiveDistinct(es[1..], now);
      var rest := Live(es[1..], now);
      forall x | x in rest ensures x.key != es[0].key {
        var j :| 0 <= j < |es[1..]| && es[1..][j] == x;
        assert es[j + 1] == x;
      }
    }
  }

  /** The keys of the expired entries, in dictionary order (the source's `expired_keys`). */
  function ExpiredKeys<V>(es: seq<Entry<V>>, now: int): seq<string> {
    if es == [] then []
    else (if es[0].IsExpired(now) then [es[0].key] else []) + ExpiredKeys(es[1..], now)
  }

  /** Every entry is either live or has its key listed as expired. */
  lemma {:induction false} ExpiredKeysCount<V>(es: seq<Entry<V>>, now: int)
    ensures |ExpiredKeys(es, now)| + |Live(es, now)| == |es|
  {
    if es != [] {
      ExpiredKeysCount(es[1..], now);
    }
  }

  /** The entries whose key is not in `ks`, in dictionary order. */
  function Without<V>(es: seq<Entry<V>>, ks: set<string>): seq<Entry<V>> {
    if es == [] then []
    else (if es[0].key in ks then [] else [es[0]]) + Without(es[1..], ks)
  }

  lemma {:induction false} WithoutNothing<V>(es: seq<Entry<V>>)
    ensures Without(es, {}) == es
  {
    if es != [] {
      WithoutNothing(es[1..]);
    }
  }

  lemma {:induction false} WithoutIgnoresAbsent<V>(es: seq<Entry<V>>, ks: set<string>, k: string)
    requires k !in KeySet(es)
    ensures Without(es, ks + {k}) == Without(es, ks)
  {
    if es != [] {
      assert es[0].key != k by { assert es[0].key in KeySet(es); }
      assert k !in KeySet(es[1..]) by {
        forall j | 0 <= j < |es[1..]| ensures es[1..][j].key != k {
          assert es[1..][j] == es[j + 1];
        }
      }
      WithoutIgnoresAbsent(es[1..], ks, k);
    }
  }

  lemma {:induction false} WithoutKeys<V>(es: seq<Entry<V>>, ks: set<string>)
    ensures KeySet(Without(es, ks)) == KeySet(es) - ks
  {
    if es != [] {
      WithoutKeys(es[1..], ks);
      if es[0].key !in ks {
        var r := Without(es, ks);
        assert r[0] == es[0] && r[1..] == Without(es[1..], ks);
        KeySetCons(r);
      } else {
        assert Without(es, ks) == Without(es[1..], ks);
      }
      KeySetCons(es);
    }
  }

  /** Deleting key `k` from the dictionary that lacks `ks` gives the dictionary that lacks `ks + {k}`. */
  lemma {:induction false} WithoutStep<V>(es: seq<Entry<V>>, ks: set<string>, k: string)
    requires DistinctKeys(es)
    ensures var w := Without(es, ks);
      var i := IndexOf(w, k);
      (if i >= 0 then RemoveAt(w, i) else w) == Without(es, ks + {k})
  {
    if es != [] {
      var rest := es[1..];
      assert DistinctKeys(rest);
      var wr := Without(rest, ks);
      if es[0].key in ks {
        assert Without(es, ks) == wr;
        assert Without(es, ks + {k}) == Without(rest, ks + {k});
        WithoutStep(rest, ks, k);
      } else if es[0].key == k {
        assert k !in KeySet(rest) by {
          forall j | 0 <= j < |rest| ensures rest[j].key != k {
            assert rest[j] == es[j + 1];
          }
        }
        WithoutIgnoresAbsent(rest, ks, k);
        assert Without(es, ks) == [es[0]] + wr;
        assert Without(es, ks + {k}) == Without(rest, ks + {k});
        assert IndexOf([es[0]] + wr, k) == 0;
        assert RemoveAt([es[0]] + wr, 0) == wr;
      } else {
        WithoutStep(rest, ks, k);
        var w := [es[0]] + wr;
        assert Without(es, ks) == w;
        assert Without(es, ks + {k}) == [es[0]] + Without(rest, ks + {k});
        StepUnderHead(es[0], wr, k);
      }
    }
  }

  lemma StepUnderHead<V>(e: Entry<V>, wr: seq<Entry<V>>, k: string)
    requires e.key != k
    ensures var w := [e] + wr;
      var i := IndexOf(w, k);
      var ir := IndexOf(wr, k);
      (if i >= 0 then RemoveAt(w, i) else w) == [e] + (if ir >= 0 then RemoveAt(wr, ir) else wr)
  {
    var w := [e] + wr;
    assert w[1..] == wr;
    var ir := IndexOf(wr, k);
    if ir >= 0 {
      assert IndexOf(w, k) == ir + 1;
      assert RemoveAt(w, ir + 1) == [e] + RemoveAt(wr, ir);
    }
  }

  /** The set of strings listed in `ks`. */
  function SetOf(ks: seq<string>): set<string> {
    if ks == [] then {} else SetOf(ks[..|ks| - 1]) + {ks[|ks| - 1]}
  }

  /** `SetOf(ks)` holds exactly the strings listed in `ks`. */
  lemma {:induction false} SetOfMembers(ks: seq<string>)
    ensures forall k :: k in SetOf(ks) <==> k in ks
  {
    if ks != [] {
      var init := ks[..|ks| - 1];
      SetOfMembers(init);
      assert ks == init + [ks[|ks| - 1]];
    }
  }

  /** The keys of a prefix one longer: one key more. */
  lemma SetOfSnoc(ks: seq<string>, j: nat)
    requires j < |ks|
    ensures SetOf(ks[..j + 1]) == SetOf(ks[..j]) + {ks[j]}
  {
    assert ks[..j + 1] == ks[..j] + [ks[j]];
  }

  /** Deleting every expired key leaves exactly the live entries, in order. */
  lemma {:induction false} WithoutExpiredIsLive<V>(es: seq<Entry<V>>, now: int)
    requires DistinctKeys(es)
    ensures Without(es, SetOf(ExpiredKeys(es, now))) == Live(es, now)
  {
    if es != [] {
      var rest := es[1..];
      assert DistinctKeys(rest);
      WithoutExpiredIsLive(rest, now);
      var ksRest := SetOf(ExpiredKeys(rest, now));
      var ks := SetOf(ExpiredKeys(es, now));
      assert es[0].key !in KeySet(rest) by {
        forall j | 0 <= j < |rest| ensures rest[j].key != es[0].key {
          assert rest[j] == es[j + 1];
        }
      }
      ExpiredKeysAreKeys(rest, now);
      SetOfMembers(ExpiredKeys(rest, now));
      SetOfMembers(ExpiredKeys(es, now));
      assert es[0].key !in ksRest;
      if es[0].IsExpired(now) {
        assert ks == ksRest + {es[0].key};
        WithoutIgnoresAbsent(rest, ksRest, es[0].key);
        assert Without(es, ks) == Without(rest, ks);
        assert Live(es, now) == Live(rest, now);
      } else {
        assert ks == ksRest;
        assert Without(es, ks) == [es[0]] + Without(rest, ks);
        assert Live(es, now) == [es[0]] + Live(rest, now);
      }
    }
  }

  lemma {:induction false} ExpiredKeysAreKeys<V>(es: seq<Entry<V>>, now: int)
    ensures forall k :: k in ExpiredKeys(es, now) ==> k in KeySet(es)
  {
    if es != [] {
      ExpiredKeysAreKeys(es[1..], now);
      forall k | k in ExpiredKeys(es[1..], now) ensures k in KeySet(es) {
        var j :| 0 <= j < |es[1..]| && es[1..][j].key == k;
        assert es[j + 1].key == k;
      }
      assert es[0].key in KeySet(es);
    }
  }

  /** Reading or writing one key leaves another key that memory does not hold still absent. */
  lemma MemKeepsAbsent<V>(s: MemState<V>, maxSize: int, defaultTtl: Option<int>, key: string, value: V,
                          ttl: Option<int>, now: int, k: string)
    requires DistinctKeys(s.cache) && k != key && Lookup(s.cache, k).None?
    ensures Lookup(MemGet(s, key, now).state.cache, k).None? && DistinctKeys(MemGet(s, key, now).state.cache)
    ensures Lookup(MemSet(s, maxSize, defaultTtl, key, value, ttl, now).cache, k).None?
  {
    var e := NewEntry(key, value, if ttl.Some? then ttl else defaultTtl, now);
    var i := IndexOf(s.cache, key);
    if i >= 0 {
      LookupRemoveAt(s.cache, i, k);
      LookupUpdate(s.cache, i, s.cache[i].Touch(now), k);
      LookupUpdate(s.cache, i, e, k);
    } else {
      var kept := if |s.cache| >= maxSize then Evicted(s.cache) else s.cache;
      if |s.cache| >= maxSize && s.cache != [] {
        LookupRemoveAt(s.cache, LruIndex(s.cache), key);
        LookupRemoveAt(s.cache, LruIndex(s.cache), k);
      }
      LookupNone(kept, key);
      LookupAppend(kept, e, k);
    }
  }

  /**
   * A `get` of one key at level "all" leaves another key absent from both layers
   * when it was absent before and the two keys' file names differ.
   */
  lemma ManagerGetKeepsAbsent<V>(c: Config, l: Layers<V>, key: string, now: int, k: string)
    requires MemValid(l.mem, c.maxSize) && k != key && Lookup(l.mem.cache, k).None?
    requires c.useFileCache ==> c.fileName(k) != c.fileName(key) && c.fileName(k) !in l.dir
    ensures var g := ManagerGet(c, l, key, "all", now).layers;
      && MemValid(g.mem, c.maxSize) && Lookup(g.mem.cache, k).None?
      && (c.useFileCache ==> c.fileName(k) !in g.dir)
  {
    assert ReadsMemory("all") && ReadsFile("all");
    var g := ManagerGet(c, l, key, "all", now).layers;
    var m := MemGet(l.mem, key, now);
    MemKeepsAbsent(l.mem, c.maxSize, c.defaultTtl, key, None, None, now, k);
    GetKeepsValid(l.mem, c.maxSize, key, now);
    if m.value.Some? && m.value.value.Some? {
      assert g == Layers(m.state, l.dir);
    } else if c.useFileCache {
      var f := FileGet(l.dir, c.fileName(key), now);
      assert c.fileName(k) !in f.dir;
      if f.value.Some? && f.value.value.Some? {
        MemKeepsAbsent(m.state, c.maxSize, c.defaultTtl, key, f.value.value, c.defaultTtl, now, k);
        SetInstallsFresh(m.state, c.maxSize, c.defaultTtl, key, f.value.value, c.defaultTtl, now);
        assert g == Layers(MemSet(m.state, c.maxSize, c.defaultTtl, key, f.value.value, c.defaultTtl, now), f.dir);
      } else {
        assert g == Layers(m.state, f.dir);
      }
    } else {
      assert g == Layers(m.state, l.dir);
    }
  }

  /**
   * A `set` of one key at level "all" leaves another key absent from both layers
   * when it was absent before and the two keys' file names differ.
   */
  lemma ManagerSetKeepsAbsent<V>(c: Config, l: Layers<V>, key: string, value: Option<V>, now: int,
                                 outcome: WriteOutcome, k: string)
    requires DistinctKeys(l.mem.cache) && k != key && Lookup(l.mem.cache, k).None?
    requires c.useFileCache ==> c.fileName(k) != c.fileName(key) && c.fileName(k) !in l.dir
    ensures var w := ManagerSet(c, l, key, value, None, "all", now, outcome);
      && Lookup(w.mem.cache, k).None? && (c.useFileCache ==> c.fileName(k) !in w.dir)
  {
    MemKeepsAbsent(l.mem, c.maxSize, c.defaultTtl, key, value, None, now, k);
  }

  /** At level "all", a `get` right after a `set` is answered by memory with the value. */
  lemma ManagerSetThenGet<V>(c: Config, l: Layers<V>, key: string, v: V, ttl: Option<int>,
                             now: int, later: int, outcome: WriteOutcome)
    requires MemValid(l.mem, c.maxSize)
    requires var t := if ttl.Some? then ttl else c.defaultTtl; t.None? || later - now <= t.value
    ensures ManagerGet(c, ManagerSet(c, l, key, Some(v), ttl, "all", now, outcome), key, "all", later).value == Some(v)
  {
    var l1 := ManagerSet(c, l, key, Some(v), ttl, "all", now, outcome);
    SetThenGet(l.mem, c.maxSize, c.defaultTtl, key, Some(v), ttl, now, later);
  }

  /** Example: with `max_size` 2, set a, set b, get a, set c evicts b and keeps a. */
  lemma EvictionExample(va: int, vb: int, vc: int)
    ensures var s0: MemState<int> := MemState([], 0, 0);
      var s1 := MemSet(s0, 2, None, "a", va, None, 0);
      var s2 := MemSet(s1, 2, None, "b", vb, None, 1);
      var g := MemGet(s2, "a", 2);
      var s3 := MemSet(g.state, 2, None, "c", vc, None, 3);
      && g.value == Some(va)
      && Lookup(s3.cache, "b") == None
      && Lookup(s3.cache, "a").Some? && Lookup(s3.cache, "a").value.value == va
      && Lookup(s3.cache, "c").Some? && Lookup(s3.cache, "c").value.value == vc
  {
    var s0: MemState<int> := MemState([], 0, 0);
    var ea := NewEntry("a", va, None, 0);
    var eb := NewEntry("b", vb, None, 1);
    var s1 := MemSet(s0, 2, None, "a", va, None, 0);
    assert s1.cache == [ea];
    var s2 := MemSet(s1, 2, None, "b", vb, None, 1);
    assert IndexOf([ea], "b") == -1;
    assert s2.cache == [ea, eb];
    var g := MemGet(s2, "a", 2);
    assert g.state.cache == [ea.Touch(2), eb];
    var ec := NewEntry("c", vc, None, 3);
    assert IndexOf(g.state.cache, "c") == -1;
    assert LruIndex(g.state.cache) == 1 by {
      assert g.state.cache[..1] == [ea.Touch(2)];
    }
    var s3 := MemSet(g.state, 2, None, "c", vc, None, 3);
    assert s3.cache == [ea.Touch(2), ec];
    assert IndexOf(s3.cache, "a") == 0;
    assert IndexOf(s3.cache, "c") == 1;
  }

  // ================================================================ file cache

  /** A cache file's content: a readable pickled entry, or bytes that do not unpickle. */
  datatype Record<V> = Stored(entry: Entry<V>) | Corrupt

  /** The cache directory: file name -> content. */
  type Dir<V> = map<string, Record<V>>

  /** How a write ends: written, `open` failed (nothing changed), or `pickle.dump` failed part-way. */
  datatype WriteOutcome = Written | OpenFailed | DumpFailed

  predicate ExpiredRecord<V>(r: Record<V>, now: int) {
    r.Stored? && r.entry.IsExpired(now)
  }

  datatype FileGetOutcome<V> = FileGetOutcome(dir: Dir<V>, value: Option<V>)

  /** `FileCache.get` of the file named `name`: no file or a corrupt one gives None; an expired one is deleted. */
  function FileGet<V>(d: Dir<V>, name: string, now: int): FileGetOutcome<V> {
    if name !in d then FileGetOutcome(d, None)
    else match d[name]
      case Corrupt => FileGetOutcome(d, None)
      case Stored(e) =>
        if e.IsExpired(now) then FileGetOutcome(d - {name}, None) else FileGetOutcome(d, Some(e.value))
  }

  datatype FileSetOutcome<V> = FileSetOutcome(dir: Dir<V>, ok: bool)

  /** `FileCache.set`: a fresh entry written to the file named `name`, or the failure `outcome` describes. */
  function FileSet<V>(d: Dir<V>, name: string, defaultTtl: Option<int>, key: string, value: V,
                      ttl: Option<int>, now: int, outcome: WriteOutcome): FileSetOutcome<V>
  {
    match outcome
    case Written =>
      FileSetOutcome(d[name := Stored(NewEntry(key, value, if ttl.Some? then ttl else defaultTtl, now))], true)
    case OpenFailed => FileSetOutcome(d, false)
    case DumpFailed => FileSetOutcome(d[name := Corrupt], false)
  }

  /** `FileCache.delete`: true iff the file existed; it is gone afterwards. */
  function FileDelete<V>(d: Dir<V>, name: string): (r: FileSetOutcome<V>)
    ensures r.ok <==> name in d
    ensures name !in r.dir && forall n :: n != name ==> (n in r.dir <==> n in d)
  {
    if name in d then FileSetOutcome(d - {name}, true) else FileSetOutcome(d, false)
  }

  /** The files `cleanup_expired` keeps: corrupt ones and unexpired ones. */
  function Unexpired<V>(d: Dir<V>, now: int): (r: Dir<V>)
    ensures forall n :: n in r <==> n in d && !ExpiredRecord(d[n], now)
    ensures forall n :: n in r ==> r[n] == d[n]
  {
    map n | n in d && !ExpiredRecord(d[n], now) :: d[n]
  }

  /** A `Stored` record written and read back before its ttl runs out returns the value. */
  lemma FileSetThenGet<V>(d: Dir<V>, name: string, defaultTtl: Option<int>, key: string, value: V,
                          ttl: Option<int>, now: int, later: int)
    requires var t := if ttl.Some? then ttl else defaultTtl; t.None? || later - now <= t.value
    ensures var w := FileSet(d, name, defaultTtl, key, value, ttl, now, Written);
      w.ok && FileGet(w.dir, name, later).value == Some(value)
  {
  }

  /** Reading an expired record deletes the file; reading a corrupt one changes nothing. */
  lemma FileGetFailures<V>(d: Dir<V>, name: string, now: int)
    requires name in d && (d[name].Corrupt? || d[name].entry.IsExpired(now))
    ensures FileGet(d, name, now).value == None
    ensures d[name].Corrupt? ==> FileGet(d, name, now).dir == d
    ensures d[name].Stored? ==> FileGet(d, name, now).dir == d - {name}
  {
  }

  /** `cleanup_expired` removes exactly the expired readable files, skipping corrupt ones. */
  lemma FileCleanupCount<V>(d: Dir<V>, now: int)
    ensures var r := Unexpired(d, now);
      && (forall n :: n in d && d[n].Corrupt? ==> n in r)
      && |d| - |r| == |set n | n in d && ExpiredRecord(d[n], now)|
  {
    var r := Unexpired(d, now);
    var gone := set n | n in d && ExpiredRecord(d[n], now);
    assert d.Keys == r.Keys + gone;
    assert r.Keys !! gone;
  }

  // ================================================================ cache manager

  /** The fixed configuration of a `CacheManager`. */
  datatype Config = Config(maxSize: int, defaultTtl: Option<int>, useFileCache: bool, fileName: string -> string)

  /** The memory and file layers' state; Python's `None` is storable, hence `Option<V>` values. */
  datatype Layers<V> = Layers(mem: MemState<Option<V>>, dir: Dir<Option<V>>)

  datatype ManagerGetOutcome<V> = ManagerGetOutcome(layers: Layers<V>, value: Option<V>)

  predicate ReadsMemory(level: string) { level == "memory" || level == "all" }
  predicate ReadsFile(level: string) { level == "file" || level == "all" }

  /**
   * `CacheManager.get(key, level)`: memory first, then the file layer (when enabled);
   * a file hit is written into memory with the manager's default ttl.
   * A stored `None` is indistinguishable from a miss.
   */
  function ManagerGet<V>(c: Config, l: Layers<V>, key: string, level: string, now: int): ManagerGetOutcome<V> {
    var m := if ReadsMemory(level) then MemGet(l.mem, key, now) else GetOutcome(l.mem, None);
    if m.value.Some? && m.value.value.Some? then ManagerGetOutcome(Layers(m.state, l.dir), m.value.value)
    else if ReadsFile(level) && c.useFileCache then
      var f := FileGet(l.dir, c.fileName(key), now);
      if f.value.Some? && f.value.value.Some? then
        ManagerGetOutcome(Layers(MemSet(m.state, c.maxSize, c.defaultTtl, key, f.value.value, c.defaultTtl, now), f.dir),
                          f.value.value)
      else ManagerGetOutcome(Layers(m.state, f.dir), None)
    else ManagerGetOutcome(Layers(m.state, l.dir), None)
  }

  /** `CacheManager.set(key, value, ttl, level)`; the file write ends as `outcome` says. */
  function ManagerSet<V>(c: Config, l: Layers<V>, key: string, value: Option<V>, ttl: Option<int>,
                         level: string, now: int, outcome: WriteOutcome): Layers<V>
  {
    var mem := if ReadsMemory(level) then MemSet(l.mem, c.maxSize, c.defaultTtl, key, value, ttl, now) else l.mem;
    var dir := if ReadsFile(level) && c.useFileCache
               then FileSet(l.dir, c.fileName(key), c.defaultTtl, key, value, ttl, now, outcome).dir
               else l.dir;
    Layers(mem, dir)
  }

  /** `CacheManager.delete(key)`. */
  function ManagerDelete<V>(c: Config, l: Layers<V>, key: string): Layers<V> {
    Layers(MemDelete(l.mem, key).state, if c.useFileCache then FileDelete(l.dir, c.fileName(key)).dir else l.dir)
  }

  /** `CacheManager.clear()`. */
  function ManagerClear<V>(c: Config, l: Layers<V>): Layers<V> {
    Layers(MemClear(l.mem), if c.useFileCache then map[] else l.dir)
  }

  /** `CacheManager.get_stats()`: the file count is present only with the file layer. */
  datatype ManagerStats = ManagerStats(memory: MemStats, useFileCache: bool, fileCount: Option<nat>)

  /** `CacheManager.cleanup_expired()`: the file figure is present only with the file layer. */
  datatype ManagerCleanup = ManagerCleanup(memoryCleaned: nat, fileCleaned: Option<nat>)

  // ---------------------------------------------------------------- manager properties

  /** Memory is tried first: a live non-None value there is returned and the file layer is untouched. */
  lemma ManagerMemoryFirst<V>(c: Config, l: Layers<V>, key: string, level: string, now: int, e: Entry<Option<V>>)
    requires DistinctKeys(l.mem.cache)
    requires ReadsMemory(level) && Lookup(l.mem.cache, key) == Some(e) && !e.IsExpired(now) && e.value.Some?
    ensures ManagerGet(c, l, key, level, now).value == e.value
    ensures ManagerGet(c, l, key, level, now).layers.dir == l.dir
    ensures ManagerGet(c, l, key, level, now).layers.mem.hits == l.mem.hits + 1
  {
    GetHit(l.mem, key, now, e);
  }

  /** A memory miss with a file hit returns the file's value and promotes it into memory with the default ttl. */
  lemma ManagerPromotes<V>(c: Config, l: Layers<V>, key: string, now: int, e: Entry<Option<V>>)
    requires MemValid(l.mem, c.maxSize) && c.useFileCache
    requires Lookup(l.mem.cache, key).None?
    requires c.fileName(key) in l.dir && l.dir[c.fileName(key)] == Stored(e)
    requires !e.IsExpired(now) && e.value.Some?
    ensures ManagerGet(c, l, key, "all", now).value == e.value
    ensures Lookup(ManagerGet(c, l, key, "all", now).layers.mem.cache, key) == Some(NewEntry(key, e.value, c.defaultTtl, now))
    ensures ManagerGet(c, l, key, "all", now).layers.mem.misses == l.mem.misses + 1
    ensures ManagerGet(c, l, key, "all", now).layers.dir == l.dir
  {
    GetMiss(l.mem, key, now);
    var m := MemGet(l.mem, key, now);
    assert m.state.cache == l.mem.cache;
    SetInstallsFresh(m.state, c.maxSize, c.defaultTtl, key, e.value, c.defaultTtl, now);
  }

  /**
   * A stored `None` counts as a miss although memory held the key (and counted a hit): without
   * the file layer the manager returns `None`; with it, the lookup falls through to the file.
   */
  lemma ManagerStoredNoneIsMiss<V>(c: Config, l: Layers<V>, key: string, now: int, e: Entry<Option<V>>)
    requires DistinctKeys(l.mem.cache)
    requires Lookup(l.mem.cache, key) == Some(e) && !e.IsExpired(now) && e.value.None?
    ensures !c.useFileCache ==> ManagerGet(c, l, key, "all", now).value == None
    ensures c.useFileCache ==>
              var f := FileGet(l.dir, c.fileName(key), now);
              && ManagerGet(c, l, key, "all", now).value == (if f.value.Some? then f.value.value else None)
              && ManagerGet(c, l, key, "all", now).layers.dir == f.dir
    ensures ManagerGet(c, l, key, "all", now).layers.mem.hits == l.mem.hits + 1
  {
    GetHit(l.mem, key, now, e);
  }

  /** An unrecognised level returns None and changes nothing. */
  lemma ManagerUnknownLevel<V>(c: Config, l: Layers<V>, key: string, level: string, now: int)
    requires !ReadsMemory(level) && !ReadsFile(level)
    ensures ManagerGet(c, l, key, level, now) == ManagerGetOutcome(l, None)
  {
  }

  /** Without the file layer, `set`, `delete` and `clear` leave the directory alone. */
  lemma ManagerWithoutFiles<V>(c: Config, l: Layers<V>, key: string, value: Option<V>, ttl: Option<int>,
                               level: string, now: int, outcome: WriteOutcome)
    requires !c.useFileCache
    ensures ManagerSet(c, l, key, value, ttl, level, now, outcome).dir == l.dir
    ensures ManagerDelete(c, l, key).dir == l.dir
    ensures ManagerClear(c, l).dir == l.dir
  {
  }

  /** A value set at level "all" and written to disk survives losing the memory layer. */
  lemma ManagerFileSurvivesMemoryLoss<V>(c: Config, l: Layers<V>, key: string, v: V, now: int, later: int)
    requires c.useFileCache && MemValid(l.mem, c.maxSize)
    requires c.defaultTtl.None? || later - now <= c.defaultTtl.value
    ensures var l1 := ManagerSet(c, l, key, Some(v), None, "all", now, Written);
      ManagerGet(c, Layers(MemClear(l1.mem), l1.dir), key, "all", later).value == Some(v)
  {
    var l1 := ManagerSet(c, l, key, Some(v), None, "all", now, Written);
    var m0 := MemClear(l1.mem);
    GetMiss(m0, key, later);
  }
}
