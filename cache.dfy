/**
 * The classes of `core/cache_manager.py`: `MemoryCache`, `FileCache` and
 * `CacheManager`. Each method updates its object's fields in place and is proved
 * to produce exactly the state the matching function of `CacheModel` describes.
 * The lock is left out: every method runs to completion before the next starts.
 */
module Cache {
  import opened Wrappers
  import opened CacheModel

  /** `MemoryCache`: a bounded dictionary of entries with hit and miss counters. */
  class MemoryCache<V> {
    const maxSize: int
    const defaultTtl: Option<int>
    /** The `cache` dict, in insertion order. */
    var cache: seq<Entry<V>>
    var hitCount: nat
    var missCount: nat

    function State(): MemState<V>
      reads this
    {
      MemState(cache, hitCount, missCount)
    }

    ghost predicate Valid()
      reads this
    {
      MemValid(State(), maxSize)
    }

    constructor (maxSize: int, defaultTtl: Option<int>)
      ensures this.maxSize == maxSize && this.defaultTtl == defaultTtl
      ensures State() == MemState([], 0, 0) && Valid()
    {
      this.maxSize := maxSize;
      this.defaultTtl := defaultTtl;
      cache := [];
      hitCount := 0;
      missCount := 0;
    }

    /** `get`: an absent or expired key is a miss (an expired entry is dropped); a live one is touched. */
    method Get(key: string, now: int) returns (value: Option<V>)
      requires Valid()
      modifies this
      ensures Valid()
      ensures State() == MemGet(old(State()), key, now).state
      ensures value == MemGet(old(State()), key, now).value
    {
      GetKeepsValid(State(), maxSize, key, now);
      var i := IndexOf(cache, key);
      if i < 0 {
        missCount := missCount + 1;
        return None;
      }
      var entry := cache[i];
      if entry.IsExpired(now) {
        cache := RemoveAt(cache, i);
        missCount := missCount + 1;
        return None;
      }
      cache := cache[i := entry.Touch(now)];
      hitCount := hitCount + 1;
      value := Some(entry.value);
    }

    /** `set`: a fresh entry under `key`, evicting the LRU entry first when a new key finds the cache full. */
    method Set(key: string, value: V, ttl: Option<int>, now: int)
      requires Valid()
      modifies this
      ensures Valid()
      ensures State() == MemSet(old(State()), maxSize, defaultTtl, key, value, ttl, now)
    {
      ghost var s0 := State();
      var t := if ttl.Some? then ttl else defaultTtl;
      if |cache| >= maxSize && IndexOf(cache, key) < 0 {
        if cache != [] {
          LookupNone(cache, key);
          LookupRemoveAt(cache, LruIndex(cache), key);
          LookupNone(RemoveAt(cache, LruIndex(cache)), key);
        }
        EvictLru();
      }
      var entry := NewEntry(key, value, t, now);
      var i := IndexOf(cache, key);
      if i >= 0 {
        cache := cache[i := entry];
      } else {
        cache := cache + [entry];
      }
      SetInstallsFresh(s0, maxSize, defaultTtl, key, value, ttl, now);
    }

    /** `_evict_lru`: the `min` over the keys by `(access_count, last_accessed)`, then its deletion. */
    method EvictLru()
      modifies this
      ensures cache == Evicted(old(cache))
      ensures hitCount == old(hitCount) && missCount == old(missCount)
    {
      if cache == [] {
        return;
      }
      var best := 0;
      var k := 1;
      while k < |cache|
        invariant 1 <= k <= |cache| && best < k
        invariant best == LruIndex(cache[..k])
      {
        assert cache[..k + 1][..k] == cache[..k];
        if Before(cache[k], cache[best]) {
          best := k;
        }
        k := k + 1;
      }
      assert cache[..k] == cache;
      cache := RemoveAt(cache, best);
    }

    /** `delete`: true iff the key was present. */
    method Delete(key: string) returns (deleted: bool)
      requires Valid()
      modifies this
      ensures Valid()
      ensures State() == MemDelete(old(State()), key).state
      ensures deleted == MemDelete(old(State()), key).deleted
    {
      var i := IndexOf(cache, key);
      if i >= 0 {
        LookupRemoveAt(cache, i, key);
        cache := RemoveAt(cache, i);
        return true;
      }
      return false;
    }

    /** `clear`: the entries go; the counters stay. */
    method Clear()
      requires Valid()
      modifies this
      ensures Valid()
      ensures State() == MemClear(old(State()))
    {
      cache := [];
    }

    /** `get_stats`. */
    method GetStats() returns (stats: MemStats)
      requires Valid()
      ensures stats == MemStatsOf(State(), maxSize)
    {
      var total := hitCount + missCount;
      stats := MemStats(|cache|, maxSize, hitCount, missCount, total,
                        if total > 0 then (hitCount as real) / (total as real) else 0.0);
    }

    /** The list comprehension of `cleanup_expired`: the expired keys, in dictionary order. */
    method ExpiredKeyList(now: int) returns (expiredKeys: seq<string>)
      ensures expiredKeys == ExpiredKeys(cache, now)
    {
      var es := cache;
      expiredKeys := [];
      var i := 0;
      while i < |es|
        invariant 0 <= i <= |es|
        invariant expiredKeys == ExpiredKeys(es[..i], now)
      {
        ExpiredKeysSnoc(es[..i + 1], now);
        assert es[..i + 1][..i] == es[..i];
        if es[i].IsExpired(now) {
          expiredKeys := expiredKeys + [es[i].key];
        }
        i := i + 1;
      }
      assert es[..i] == es;
    }

    /** One step of `cleanup_expired`'s deletion loop: `del self.cache[key]` for a key that may already be gone. */
    method RemoveKey(key: string)
      modifies this
      ensures var i := IndexOf(old(cache), key);
              cache == if i >= 0 then RemoveAt(old(cache), i) else old(cache)
      ensures hitCount == old(hitCount) && missCount == old(missCount)
    {
      var i := IndexOf(cache, key);
      if i >= 0 {
        cache := RemoveAt(cache, i);
      }
    }

    method DeleteKeys(keys: seq<string>)
      requires DistinctKeys(cache)
      modifies this
      ensures cache == Without(old(cache), SetOf(keys))
      ensures hitCount == old(hitCount) && missCount == old(missCount)
    {
      ghost var c0 := cache;
      WithoutNothing(c0);
      assert SetOf(keys[..0]) == {};
      var j := 0;
      while j < |keys|
        invariant 0 <= j <= |keys|
        invariant cache == Without(c0, SetOf(keys[..j]))
        invariant hitCount == old(hitCount) && missCount == old(missCount)
      {
        WithoutStep(c0, SetOf(keys[..j]), keys[j]);
        SetOfSnoc(keys, j);
        RemoveKey(keys[j]);
        j := j + 1;
      }
      assert keys[..j] == keys;
    }

    /** `cleanup_expired`: collect the expired keys, delete each, report how many. */
    method CleanupExpired(now: int) returns (removed: nat)
      requires Valid()
      modifies this
      ensures Valid()
      ensures State() == MemCleanup(old(State()), now).state
      ensures removed == MemCleanup(old(State()), now).removed
    {
      ghost var c0 := cache;
      var expiredKeys := ExpiredKeyList(now);
      DeleteKeys(expiredKeys);
      WithoutExpiredIsLive(c0, now);
      LiveDistinct(c0, now);
      ExpiredKeysCount(c0, now);
      removed := |expiredKeys|;
    }
  }

  /** `ExpiredKeys` read from the back, as the collecting loop builds it. */
  lemma {:induction false} ExpiredKeysSnoc<V>(es: seq<Entry<V>>, now: int)
    requires es != []
    ensures ExpiredKeys(es, now)
            == ExpiredKeys(es[..|es| - 1], now) + (if es[|es| - 1].IsExpired(now) then [es[|es| - 1].key] else [])
  {
    if |es| > 1 {
      ExpiredKeysSnoc(es[1..], now);
      assert es[1..][..|es[1..]| - 1] == es[..|es| - 1][1..];
    }
  }

  /** `FileCache`: one file per key, named by an abstract `fileName` (the md5 of the key). */
  class FileCache<V> {
    const fileName: string -> string
    const defaultTtl: Option<int>
    /** The cache directory's `*.cache` files. */
    var files: Dir<V>

    /** The directory may already hold files from earlier runs. */
    constructor (fileName: string -> string, defaultTtl: Option<int>, existing: Dir<V>)
      ensures this.fileName == fileName && this.defaultTtl == defaultTtl && files == existing
    {
      this.fileName := fileName;
      this.defaultTtl := defaultTtl;
      files := existing;
    }

    /** `get`: a missing or corrupt file gives None; an expired record's file is deleted. */
    method Get(key: string, now: int) returns (value: Option<V>)
      modifies this
      ensures files == FileGet(old(files), fileName(key), now).dir
      ensures value == FileGet(old(files), fileName(key), now).value
    {
      var name := fileName(key);
      if name !in files {
        return None;
      }
      match files[name]
      case Corrupt =>
        return None;
      case Stored(entry) =>
        if entry.IsExpired(now) {
          files := files - {name};
          return None;
        }
        return Some(entry.value);
    }

    /** `set`: the write succeeds, fails to open, or leaves a partly written file, as `outcome` says. */
    method Set(key: string, value: V, ttl: Option<int>, now: int, outcome: WriteOutcome) returns (ok: bool)
      modifies this
      ensures files == FileSet(old(files), fileName(key), defaultTtl, key, value, ttl, now, outcome).dir
      ensures ok == FileSet(old(files), fileName(key), defaultTtl, key, value, ttl, now, outcome).ok
    {
      var name := fileName(key);
      var t := if ttl.Some? then ttl else defaultTtl;
      match outcome
      case OpenFailed =>
        ok := false;
      case DumpFailed =>
        files := files[name := Corrupt];
        ok := false;
      case Written =>
        files := files[name := Stored(NewEntry(key, value, t, now))];
        ok := true;
    }

    /** `delete`: true iff the file existed. */
    method Delete(key: string) returns (ok: bool)
      modifies this
      ensures files == FileDelete(old(files), fileName(key)).dir
      ensures ok == FileDelete(old(files), fileName(key)).ok
    {
      var name := fileName(key);
      if name in files {
        files := files - {name};
        return true;
      }
      return false;
    }

    /** `clear`: every cache file removed and counted. */
    method Clear() returns (count: nat)
      modifies this
      ensures files == map[] && count == |old(files)|
    {
      count := |files|;
      files := map[];
    }

    /** `cleanup_expired`: every readable expired record removed and counted; corrupt files skipped. */
    method CleanupExpired(now: int) returns (count: nat)
      modifies this
      ensures files == Unexpired(old(files), now)
      ensures count + |files| == |old(files)|
    {
      var pending := files.Keys;
      count := 0;
      while pending != {}
        invariant pending <= old(files).Keys
        invariant forall n :: n in files <==> n in old(files) && (n in pending || !ExpiredRecord(old(files)[n], now))
        invariant forall n :: n in files ==> files[n] == old(files)[n]
        invariant count + |files| == |old(files)|
        decreases |pending|
      {
        var n :| n in pending;
        pending := pending - {n};
        if ExpiredRecord(files[n], now) {
          files := files - {n};
          count := count + 1;
        }
      }
      assert files == Unexpired(old(files), now);
    }
  }

  /** `CacheManager`: a memory layer in front of an optional file layer. */
  class CacheManager<V> {
    const memory: MemoryCache<Option<V>>
    const file: FileCache?<Option<V>>
    const useFileCache: bool
    const defaultTtl: Option<int>

    ghost predicate Valid()
      reads this, memory
    {
      memory.Valid() && (useFileCache <==> file != null) && memory.defaultTtl == defaultTtl
      && (file != null ==> file.defaultTtl == defaultTtl)
    }

    function Config(): Config
      reads this
    {
      CacheModel.Config(memory.maxSize, defaultTtl, useFileCache, if file != null then file.fileName else _ => "")
    }

    function Layers(): Layers<V>
      reads this, memory, file
    {
      CacheModel.Layers(memory.State(), if file != null then file.files else map[])
    }

    constructor (memorySize: int, defaultTtl: Option<int>, useFileCache: bool,
                 fileName: string -> string, existing: Dir<Option<V>>)
      ensures Valid() && fresh(memory) && (file != null ==> fresh(file))
      ensures this.useFileCache == useFileCache && this.defaultTtl == defaultTtl
      ensures memory.maxSize == memorySize && memory.State() == MemState([], 0, 0)
      ensures useFileCache ==> file.fileName == fileName && file.files == existing
    {
      memory := new MemoryCache(memorySize, defaultTtl);
      if useFileCache {
        file := new FileCache(fileName, defaultTtl, existing);
      } else {
        file := null;
      }
      this.useFileCache := useFileCache;
      this.defaultTtl := defaultTtl;
    }

    /** `get(key, level)`: memory first, then the file layer, promoting a file hit into memory. */
    method Get(key: string, level: string, now: int) returns (value: Option<V>)
      requires Valid()
      modifies memory, file
      ensures Valid()
      ensures Layers() == ManagerGet(Config(), old(Layers()), key, level, now).layers
      ensures value == ManagerGet(Config(), old(Layers()), key, level, now).value
    {
      if level == "memory" || level == "all" {
        var v := memory.Get(key, now);
        if v.Some? && v.value.Some? {
          return v.value;
        }
      }
      if (level == "file" || level == "all") && useFileCache {
        var v := file.Get(key, now);
        if v.Some? && v.value.Some? {
          memory.Set(key, v.value, defaultTtl, now);
          return v.value;
        }
      }
      return None;
    }

    /** `set(key, value, ttl, level)`; a stored `None` is allowed. */
    method Set(key: string, value: Option<V>, ttl: Option<int>, level: string, now: int, outcome: WriteOutcome)
      requires Valid()
      modifies memory, file
      ensures Valid()
      ensures Layers() == ManagerSet(Config(), old(Layers()), key, value, ttl, level, now, outcome)
    {
      if level == "memory" || level == "all" {
        memory.Set(key, value, ttl, now);
      }
      if (level == "file" || level == "all") && useFileCache {
        var _ := file.Set(key, value, ttl, now, outcome);
      }
    }

    /** `delete(key)`: from memory, and from the file layer when enabled. */
    method Delete(key: string)
      requires Valid()
      modifies memory, file
      ensures Valid()
      ensures Layers() == ManagerDelete(Config(), old(Layers()), key)
    {
      var _ := memory.Delete(key);
      if useFileCache {
        var _ := file.Delete(key);
      }
    }

    /** `clear()`: both layers emptied; the memory counters stay. */
    method Clear()
      requires Valid()
      modifies memory, file
      ensures Valid()
      ensures Layers() == ManagerClear(Config(), old(Layers()))
    {
      memory.Clear();
      if useFileCache {
        var _ := file.Clear();
      }
    }

    /** `get_stats()`: the file count only when the file layer is enabled. */
    method GetStats() returns (stats: ManagerStats)
      requires Valid()
      ensures stats.memory == MemStatsOf(memory.State(), memory.maxSize)
      ensures stats.useFileCache == useFileCache
      ensures stats.fileCount.Some? <==> useFileCache
      ensures useFileCache ==> stats.fileCount.value == |file.files|
    {
      var m := memory.GetStats();
      stats := ManagerStats(m, useFileCache, if useFileCache then Some(|file.files|) else None);
    }

    /** `cleanup_expired()`: the file figure only when the file layer is enabled. */
    method CleanupExpired(now: int) returns (result: ManagerCleanup)
      requires Valid()
      modifies memory, file
      ensures Valid()
      ensures memory.State() == MemCleanup(old(memory.State()), now).state
      ensures result.memoryCleaned == MemCleanup(old(memory.State()), now).removed
      ensures result.fileCleaned.Some? <==> useFileCache
      ensures useFileCache ==> file.files == Unexpired(old(file.files), now)
                               && result.fileCleaned.value + |file.files| == |old(file.files)|
    {
      var m := memory.CleanupExpired(now);
      if useFileCache {
        var f := file.CleanupExpired(now);
        result := ManagerCleanup(m, Some(f));
      } else {
        result := ManagerCleanup(m, None);
      }
    }
  }
}
