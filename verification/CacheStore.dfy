/** `CacheManager`: the cache in memory, its copy on disk, and what holds of them over whole runs. */
module CacheStore {
  import opened Common
  import opened Json
  import opened Cache

  /** What the loader can find: the legacy `rpc.json`, old split files beside it, and the directory
      of split files that saves replace. `flat` is only looked at when there is no directory. */
  datatype Disk = Disk(legacy: Entries, flat: Entries, dir: Option<Entries>)

  function SplitFiles(d: Disk): Entries {
    if d.dir.Some? then d.dir.value else d.flat
  }

  /** `load_existing_cache`. */
  function Load(d: Disk): Entries {
    Merge(d.legacy, SplitFiles(d))
  }

  /** `e` is what the files hold under `k`: the newer of the legacy entry and the split one, the split one if they
      are of the same age. */
  predicate IsNewest(d: Disk, k: string, e: CacheEntry) {
    if k !in SplitFiles(d) then k in d.legacy && e == d.legacy[k]
    else if k in d.legacy && d.legacy[k].accessedAt > SplitFiles(d)[k].accessedAt then e == d.legacy[k]
    else e == SplitFiles(d)[k]
  }

  lemma LoadsNewest(d: Disk)
    ensures forall k :: k in Load(d) ==> IsNewest(d, k, Load(d)[k])
  {
  }

  lemma SameSizeSameKeys(all: Entries, some: Entries)
    requires some.Keys <= all.Keys
    ensures |some| >= |all| ==> some.Keys == all.Keys
  {
    if |some| >= |all| {
      SubsetOfEqualSize(some.Keys, all.Keys);
    }
  }

  ghost predicate NoLegacy(d: Disk) {
    d.legacy == map[]
  }

  /** How writing the split files ended. A failed replacement has already tried to remove the
      directory: it may be gone, left unreadable (the loader then takes it as empty) or still be there. */
  datatype WriteOutcome = Written | FailedBefore | FailedGone | FailedDamaged | FailedKept

  function WriteFiles(d: Disk, content: Entries, o: WriteOutcome): Disk {
    match o
    case Written => d.(dir := Some(content))
    case FailedGone => d.(dir := None)
    case FailedDamaged => d.(dir := Some(map[]))
    case _ => d
  }

  datatype Store = Store(mem: Entries, disk: Disk, maxItems: nat)

  datatype Op =
    | Get(key: string, now: nat)
    | Set(key: string, value: Value, now: nat)
    | DeleteByKey(key: string, outcome: WriteOutcome)
    | DeleteByMethod(name: string, outcome: WriteOutcome)
    | Save(outcome: WriteOutcome)
    | Restart

  // ---------------------------------------------------------------- what one operation may do

  ghost predicate MakeRoom(mem: Entries, mid: Entries, maxItems: nat) {
    if |mem| >= maxItems then EvictedTo(mem, mid, Max(0, |mem| - Max(|mem| / 10, 1))) else mid == mem
  }

  /** `apply_size_management`. */
  ghost predicate Managed(merged: Entries, final: Entries, diskSize: nat, memSize: nat, maxItems: nat) {
    var target := if diskSize >= memSize then diskSize else Min(maxItems, |merged|);
    if |merged| <= target then final == merged else EvictedTo(merged, final, target)
  }

  ghost predicate Saves(s: Store, final: Entries) {
    Managed(Merge(Load(s.disk), s.mem), final, |Load(s.disk)|, |s.mem|, s.maxItems)
  }

  function MethodKeys(mem: Entries, name: string): (r: set<string>)
    ensures forall k :: k in r <==> k in mem && name + ":" <= k
  {
    set k | k in mem && name + ":" <= k
  }

  ghost predicate Step(s: Store, op: Op, t: Store) {
    && t.maxItems == s.maxItems
    && match op
       case Get(key, now) =>
         && t.disk == s.disk
         && t.mem == if key in s.mem then s.mem[key := s.mem[key].(accessedAt := now)] else s.mem
       case Set(key, value, now) =>
         && t.disk == s.disk
         && exists mid :: MakeRoom(s.mem, mid, s.maxItems) && t.mem == mid[key := CacheEntry(value, now)]
       case DeleteByKey(key, o) =>
         && t.mem == s.mem - {key}
         && t.disk == if key in s.mem then WriteFiles(s.disk, t.mem, o) else s.disk
       case DeleteByMethod(name, o) =>
         && t.mem == s.mem - MethodKeys(s.mem, name)
         && t.disk == if MethodKeys(s.mem, name) != {} then WriteFiles(s.disk, t.mem, o) else s.disk
       case Save(o) =>
         && t.mem == s.mem
         && exists final :: Saves(s, final) && t.disk == WriteFiles(s.disk, final, o)
       case Restart =>
         && t.disk == s.disk
         && Starts(s.disk, s.maxItems, t.mem)
  }

  /** `new`: the loaded cache, cut down to the capacity. */
  ghost predicate Starts(d: Disk, maxItems: nat, mem: Entries) {
    if |Load(d)| >= maxItems then EvictedTo(Load(d), mem, maxItems) else mem == Load(d)
  }

  // ---------------------------------------------------------------- the object itself

  class CacheManager {
    var cache: Entries
    var disk: Disk
    const maxItems: nat

    ghost function State(): Store
      reads this
    {
      Store(cache, disk, maxItems)
    }

    constructor (maxItems: nat, found: Disk)
      ensures disk == found && this.maxItems == maxItems
      ensures Starts(found, maxItems, cache)
      ensures |cache| == Min(|Load(found)|, maxItems) && forall k :: k in cache ==> IsNewest(found, k, cache[k])
      ensures |Load(found)| <= maxItems ==> cache.Keys == found.legacy.Keys + SplitFiles(found).Keys
    {
      this.maxItems := maxItems;
      disk := found;
      cache := map[];
      new;
      var loaded := LoadExistingCache();
      if |loaded| >= maxItems {
        loaded := EvictToSize(loaded, maxItems);
      }
      cache := loaded;
      LoadsNewest(found);
      SameSizeSameKeys(Load(found), cache);
    }

    method LoadExistingCache() returns (combined: Entries)
      ensures combined == Load(disk)
    {
      var legacyCache := disk.legacy;
      var splitCache := if disk.dir.Some? then disk.dir.value else disk.flat;
      combined := MergeCaches(legacyCache, splitCache);
    }

    method GetEntry(key: string, now: nat) returns (r: Option<Value>)
      modifies this`cache
      ensures r == if key in old(cache) then Some(old(cache)[key].data) else None
      ensures Step(old(State()), Get(key, now), State())
    {
      if key in cache {
        cache := cache[key := cache[key].(accessedAt := now)];
        return Some(cache[key].data);
      }
      return None;
    }

    method SetEntry(key: string, value: Value, now: nat)
      modifies this`cache
      ensures Step(old(State()), Set(key, value, now), State())
      ensures key in cache && cache[key] == CacheEntry(value, now)
      ensures |old(cache)| < maxItems ==> cache == old(cache)[key := CacheEntry(value, now)]
    {
      if |cache| >= maxItems {
        EvictOldest();
      }
      ghost var mid := cache;
      cache := cache[key := CacheEntry(value, now)];
      assert MakeRoom(old(cache), mid, maxItems);
    }

    method EvictOldest()
      modifies this`cache
      ensures EvictedTo(old(cache), cache, Max(0, |old(cache)| - Max(|old(cache)| / 10, 1)))
    {
      var toRemove := Max(|cache| / 10, 1);
      cache := EvictToSize(cache, Max(0, |cache| - toRemove));
    }

    /** Writes the split files; the outcome is the file system's. */
    method WriteSplitCacheFiles(content: Entries, outcome: WriteOutcome)
      modifies this`disk
      ensures disk == WriteFiles(old(disk), content, outcome)
    {
      match outcome
      case Written => disk := disk.(dir := Some(content));
      case FailedGone => disk := disk.(dir := None);
      case FailedDamaged => disk := disk.(dir := Some(map[]));
      case _ =>
    }

    method SaveToDisk(outcome: WriteOutcome)
      modifies this`disk
      ensures Step(old(State()), Save(outcome), State())
    {
      var existing := LoadExistingCache();
      var merged := MergeCaches(existing, cache);
      var final := ApplySizeManagement(merged, |existing|, |cache|);
      assert Saves(State(), final);
      WriteSplitCacheFiles(final, outcome);
    }

    method ApplySizeManagement(merged: Entries, diskSize: nat, memSize: nat) returns (final: Entries)
      ensures Managed(merged, final, diskSize, memSize, maxItems)
    {
      var target := if diskSize >= memSize then diskSize else Min(maxItems, |merged|);
      if |merged| <= target {
        return merged;
      }
      final := EvictToSize(merged, target);
    }

    method DeleteKey(key: string, outcome: WriteOutcome) returns (found: bool)
      modifies this
      ensures found == (key in old(cache)) && cache == old(cache) - {key}
      ensures Step(old(State()), DeleteByKey(key, outcome), State())
    {
      found := key in cache;
      cache := cache - {key};
      if found {
        WriteSplitCacheFiles(cache, outcome);
      }
    }

    method DeleteMethod(name: string, outcome: WriteOutcome) returns (deleted: nat)
      modifies this
      ensures deleted == |old(cache)| - |cache|
      ensures forall k :: k in cache <==> k in old(cache) && !(name + ":" <= k)
      ensures forall k :: k in cache ==> cache[k] == old(cache)[k]
      ensures Step(old(State()), DeleteByMethod(name, outcome), State())
    {
      var keys := MethodKeys(cache, name);
      deleted := |keys|;
      ghost var before := cache;
      var rest := keys;
      while rest != {}
        invariant rest <= keys && cache == before - (keys - rest)
        invariant disk == old(disk)
      {
        var key :| key in rest;
        assert before - (keys - rest) - {key} == before - (keys - (rest - {key}));
        cache := cache - {key};
        rest := rest - {key};
      }
      assert keys - rest == keys;
      if deleted > 0 {
        WriteSplitCacheFiles(cache, outcome);
      }
    }
  }
}
