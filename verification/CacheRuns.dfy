/** What holds of `CacheManager` over whole runs: capacity, the save policy, and that deletes last. */
module CacheRuns {
  import opened Common
  import opened Json
  import opened Cache
  import opened CacheStore
  import opened Runs

  /** The number of entries in memory never exceeds the capacity (a capacity of 0 still admits one). */
  ghost predicate WithinCapacity(s: Store) {
    |s.mem| <= Max(1, s.maxItems)
  }

  lemma SubmapSize(a: Entries, b: Entries)
    requires a.Keys <= b.Keys
    ensures |a| <= |b|
  {
    SubsetSize(a.Keys, b.Keys);
  }

  lemma InsertSize(m: Entries, k: string, e: CacheEntry)
    ensures |m[k := e]| == |m| + (if k in m then 0 else 1)
  {
    assert m[k := e].Keys == m.Keys + {k};
  }

  lemma SetKeepsCapacity(s: Store, op: Op, t: Store)
    requires WithinCapacity(s) && op.Set? && Step(s, op, t)
    ensures WithinCapacity(t)
  {
    var mid := RoomMade(s, op, t);
    InsertSize(mid, op.key, CacheEntry(op.value, op.now));
  }

  lemma RoomMade(s: Store, op: Op, t: Store) returns (mid: Entries)
    requires op.Set? && Step(s, op, t)
    ensures MakeRoom(s.mem, mid, s.maxItems) && t.mem == mid[op.key := CacheEntry(op.value, op.now)]
    ensures t.maxItems == s.maxItems
  {
    mid :| MakeRoom(s.mem, mid, s.maxItems) && t.mem == mid[op.key := CacheEntry(op.value, op.now)];
  }

  lemma StepKeepsCapacity(s: Store, op: Op, t: Store)
    requires WithinCapacity(s) && Step(s, op, t)
    ensures WithinCapacity(t)
  {
    match op
    case Get(key, now) =>
      if key in s.mem {
        InsertSize(s.mem, key, s.mem[key].(accessedAt := now));
      }
    case Set(_, _, _) => SetKeepsCapacity(s, op, t);
    case DeleteByKey(key, _) => SubmapSize(t.mem, s.mem);
    case DeleteByMethod(_, _) => SubmapSize(t.mem, s.mem);
    case _ =>
  }

  lemma RunKeepsCapacity(states: seq<Store>, ops: seq<Op>, n: nat)
    requires Run(Step, states, ops) && Starts(states[0].disk, states[0].maxItems, states[0].mem)
    requires n <= |ops|
    ensures WithinCapacity(states[n]) && states[n].maxItems == states[0].maxItems
  {
    var capacity := states[0].maxItems;
    forall s, op, t | WithinCapacity(s) && s.maxItems == capacity && Step(s, op, t)
      ensures WithinCapacity(t) && t.maxItems == capacity {
      StepKeepsCapacity(s, op, t);
    }
    Invariant(Step, s => WithinCapacity(s) && s.maxItems == capacity, states, ops, n);
  }

  // ---------------------------------------------------------------- least recently used

  /** A set below the capacity evicts nothing; at the capacity a tenth goes, but at least one entry. */
  lemma SetMakesRoom(s: Store, key: string, value: Value, now: nat, t: Store)
    requires Step(s, Set(key, value, now), t)
    ensures key in t.mem && t.mem[key] == CacheEntry(value, now)
    ensures forall k :: k in t.mem && k != key ==> k in s.mem && t.mem[k] == s.mem[k]
    ensures |s.mem| < s.maxItems ==> t.mem.Keys == s.mem.Keys + {key}
  {
    var mid := RoomMade(s, Set(key, value, now), t);
  }

  lemma SetEvictsTenth(s: Store, key: string, value: Value, now: nat, t: Store)
    requires Step(s, Set(key, value, now), t) && |s.mem| >= s.maxItems && key !in s.mem && s.mem != map[]
    ensures |t.mem| == |s.mem| + 1 - (if |s.mem| < 20 then 1 else |s.mem| / 10)
  {
    var mid := RoomMade(s, Set(key, value, now), t);
    InsertSize(mid, key, CacheEntry(value, now));
  }

  /** What it evicts was used no later than anything it keeps. */
  lemma OldestGoFirst(s: Store, op: Op, t: Store, kept: string, gone: string)
    requires op.Set? && Step(s, op, t)
    requires kept in s.mem && kept in t.mem && kept != op.key && gone in s.mem && gone !in t.mem
    ensures s.mem[gone].accessedAt <= s.mem[kept].accessedAt
  {
    var mid := RoomMade(s, op, t);
  }

  /** The operation uses the key: a get that finds it, or a set. */
  predicate Uses(s: Store, op: Op, key: string) {
    (op.Get? && op.key == key && key in s.mem) || (op.Set? && op.key == key)
  }

  function LastUse(states: seq<Store>, ops: seq<Op>, key: string, m: nat, n: nat): nat
    requires m < n <= |ops| < |states| && Uses(states[m], ops[m], key)
    decreases n
  {
    if Uses(states[n - 1], ops[n - 1], key) then ops[n - 1].now
    else LastUse(states, ops, key, m, n - 1)
  }

  /** The value of the last set of the key, or what it held before. */
  function LastValue(states: seq<Store>, ops: seq<Op>, key: string, m: nat, n: nat): Value
    requires m < n <= |ops| < |states| && Uses(states[m], ops[m], key)
    decreases n
  {
    if ops[n - 1].Set? && ops[n - 1].key == key then ops[n - 1].value
    else if n == m + 1 then states[m].mem[key].data
    else LastValue(states, ops, key, m, n - 1)
  }

  /** Without a restart since, and while it stays in memory. */
  ghost predicate StaysInMemory(states: seq<Store>, ops: seq<Op>, key: string, m: nat, n: nat)
    requires m < n <= |ops| < |states|
  {
    (forall k :: m < k <= n ==> key in states[k].mem) && (forall k :: m <= k < n ==> !ops[k].Restart?)
  }

  /** An entry that stays in memory has the time of its last use and the value of its last set. */
  lemma {:induction false} AgeIsLastUse(states: seq<Store>, ops: seq<Op>, key: string, m: nat, n: nat)
    requires Run(Step, states, ops) && m < n <= |ops| && Uses(states[m], ops[m], key)
    requires StaysInMemory(states, ops, key, m, n)
    ensures key in states[n].mem
    ensures states[n].mem[key] == CacheEntry(LastValue(states, ops, key, m, n), LastUse(states, ops, key, m, n))
    decreases n
  {
    var op := ops[n - 1];
    assert Step(states[n - 1], op, states[n]);
    if n > m + 1 {
      AgeIsLastUse(states, ops, key, m, n - 1);
    }
    if op.Set? {
      var mid := RoomMade(states[n - 1], op, states[n]);
    }
  }

  /** Of two entries in memory, the one used later is not evicted while the other stays. */
  lemma LeastRecentlyUsedFirst(
    states: seq<Store>, ops: seq<Op>, early: string, i: nat, late: string, j: nat, n: nat)
    requires Run(Step, states, ops) && i < n < |ops| && j < n && ops[n].Set? && ops[n].key != early
    requires Uses(states[i], ops[i], early) && StaysInMemory(states, ops, early, i, n)
    requires Uses(states[j], ops[j], late) && StaysInMemory(states, ops, late, j, n)
    requires LastUse(states, ops, early, i, n) < LastUse(states, ops, late, j, n)
    ensures early in states[n + 1].mem ==> late in states[n + 1].mem
  {
    AgeIsLastUse(states, ops, early, i, n);
    AgeIsLastUse(states, ops, late, j, n);
    var op := ops[n];
    assert Step(states[n], op, states[n + 1]);
    if early in states[n + 1].mem && late !in states[n + 1].mem {
      OldestGoFirst(states[n], op, states[n + 1], early, late);
    }
  }

  /** A run of a cache of this capacity, from its creation on. */
  ghost predicate CacheRun(states: seq<Store>, ops: seq<Op>, maxItems: nat) {
    && Run(Step, states, ops)
    && states[0].maxItems == maxItems && Starts(states[0].disk, maxItems, states[0].mem)
  }

  const EMPTY: Disk := Disk(map[], map[], None)

  /** Room is made before the entry is added, so a cache without capacity holds what was set last. */
  lemma ZeroAdmitsOne(key: string, value: Value, now: nat) returns (states: seq<Store>, ops: seq<Op>)
    ensures CacheRun(states, ops, 0) && ops == [Set(key, value, now)]
    ensures states[1].mem == map[key := CacheEntry(value, now)]
  {
    var none: Entries := map[];
    assert EvictedTo(none, none, 0);
    assert MakeRoom(none, none, 0);
    states := [Store(none, EMPTY, 0), Store(none[key := CacheEntry(value, now)], EMPTY, 0)];
    ops := [Set(key, value, now)];
    assert Step(states[0], ops[0], states[1]);
    assert Load(EMPTY) == none;
  }

  /** Memory stays within the capacity in every run exactly when that is positive. */
  lemma CapacityKeptExactly(maxItems: nat)
    ensures (forall states: seq<Store>, ops: seq<Op> ::
               CacheRun(states, ops, maxItems) ==> |states[|ops|].mem| <= maxItems) <==>
            maxItems > 0
  {
    if maxItems > 0 {
      forall states: seq<Store>, ops: seq<Op> | CacheRun(states, ops, maxItems)
        ensures |states[|ops|].mem| <= maxItems {
        RunKeepsCapacity(states, ops, |ops|);
      }
    } else {
      var states, ops := ZeroAdmitsOne("k", JNull, 0);
      assert |states[|ops|].mem.Keys| == 1;
    }
  }

  // ---------------------------------------------------------------- the save policy

  /** The number of entries a completed save leaves on disk. */
  function SavedCount(s: Store): int {
    if |Load(s.disk)| >= |s.mem| then |Load(s.disk)| else Min(s.maxItems, |Merge(Load(s.disk), s.mem)|)
  }

  lemma SaveWrites(s: Store, op: Op, t: Store) returns (final: Entries)
    requires op.Save? && Step(s, op, t)
    ensures Saves(s, final) && t.mem == s.mem && t.disk == WriteFiles(s.disk, final, op.outcome)
  {
    final :| Saves(s, final) && t.disk == WriteFiles(s.disk, final, op.outcome);
  }

  lemma SavedFinal(s: Store, final: Entries)
    requires WithinCapacity(s) && Saves(s, final)
    ensures EvictedTo(Merge(Load(s.disk), s.mem), final, SavedCount(s)) && |final| == SavedCount(s)
    ensures |Load(s.disk)| <= SavedCount(s) <= Max(|Load(s.disk)|, s.maxItems)
  {
    var merged := Merge(Load(s.disk), s.mem);
    SubmapSize(Load(s.disk), merged);
    SubmapSize(s.mem, merged);
    ManagedFinal(merged, final, |Load(s.disk)|, |s.mem|, s.maxItems);
  }

  lemma ManagedFinal(merged: Entries, final: Entries, diskSize: nat, memSize: nat, maxItems: nat)
    requires Managed(merged, final, diskSize, memSize, maxItems)
    requires diskSize <= |merged| && memSize <= |merged| && memSize <= Max(1, maxItems)
    ensures var count := if diskSize >= memSize then diskSize else Min(maxItems, |merged|);
            EvictedTo(merged, final, count) && |final| == count && diskSize <= count <= Max(diskSize, maxItems)
  {
  }

  /** The legacy entries that are not among those written. */
  function LegacyLeft(d: Disk): set<string> {
    d.legacy.Keys - SplitFiles(d).Keys
  }

  lemma LoadSize(d: Disk)
    ensures |Load(d)| == |SplitFiles(d)| + |LegacyLeft(d)|
  {
    assert Load(d).Keys == SplitFiles(d).Keys + LegacyLeft(d);
  }

  /** A completed save writes the newest entries of disk and memory together, as many of them as the size rule
      says. A load then finds these and the legacy entries that are not among them: never fewer than before. */
  lemma SavePolicy(s: Store, t: Store)
    requires WithinCapacity(s) && Step(s, Save(Written), t)
    ensures EvictedTo(Merge(Load(s.disk), s.mem), SplitFiles(t.disk), SavedCount(s))
    ensures |Load(t.disk)| == SavedCount(s) + |LegacyLeft(t.disk)|
    ensures |Load(s.disk)| <= SavedCount(s) <= Max(|Load(s.disk)|, s.maxItems)
    ensures |Load(s.disk)| >= |s.mem| ==> SavedCount(s) == |Load(s.disk)|
  {
    var final := SaveWrites(s, Save(Written), t);
    SavedFinal(s, final);
    LoadSize(t.disk);
  }

  /** The other entries at least as recent as `k`. */
  function Rivals(m: Entries, k: string): set<string>
    requires k in m
  {
    set d | d in m && d != k && m[d].accessedAt >= m[k].accessedAt
  }

  /** What is kept instead of `k` is as recent. */
  lemma KeptAreRivals(merged: Entries, final: Entries, k: string, count: nat)
    requires EvictedTo(merged, final, count) && k in merged && k !in final
    ensures |final| <= |Rivals(merged, k)|
  {
    SubsetSize(final.Keys, Rivals(merged, k));
  }

  /** Where there are enough as recent as `k`, it can be left out. */
  lemma CanLeaveOut(merged: Entries, k: string, count: nat) returns (final: Entries)
    requires k in merged && |Rivals(merged, k)| >= count
    ensures EvictedTo(merged, final, count) && k !in final && |final| == count < |merged|
  {
    var others := merged - {k};
    assert others.Keys == merged.Keys - {k};
    SubsetSize(Rivals(merged, k), others.Keys);
    final := EvictionExists(others, count);
    forall j | j in final ensures merged[k].accessedAt <= final[j].accessedAt {
      if j !in Rivals(merged, k) {
        var d := DroppedRival(merged, final, k, j);
        assert others[d].accessedAt <= final[j].accessedAt;
      }
    }
  }

  lemma DroppedRival(merged: Entries, final: Entries, k: string, j: string) returns (d: string)
    requires k in merged && j in final && j !in Rivals(merged, k) && |final| <= |Rivals(merged, k)|
    ensures d in Rivals(merged, k) && d !in final
  {
    if Rivals(merged, k) <= final.Keys {
      SubsetSize(Rivals(merged, k), final.Keys - {j});
    }
    d :| d in Rivals(merged, k) && d !in final;
  }

  ghost predicate SavesNoMore(s: Store) {
    forall t :: Step(s, Save(Written), t) ==> |Load(t.disk)| == SavedCount(s)
  }

  /** However ties in age are broken, a load after a completed save finds no more entries than the size rule
      says, exactly when every legacy entry is among the newest before the save: fewer others than will be kept
      are as recent. */
  lemma SaveBoundExactly(s: Store)
    requires WithinCapacity(s)
    ensures SavesNoMore(s) <==>
            forall k :: k in s.disk.legacy ==> |Rivals(Merge(Load(s.disk), s.mem), k)| < SavedCount(s)
  {
    var merged := Merge(Load(s.disk), s.mem);
    if k :| k in s.disk.legacy && |Rivals(merged, k)| >= SavedCount(s) {
      var t := LeavesOut(s, k);
      assert |Load(t.disk)| > SavedCount(s);
    } else {
      forall t | Step(s, Save(Written), t) ensures |Load(t.disk)| == SavedCount(s) {
        LeavesNoneOut(s, t);
      }
    }
  }

  lemma LeavesNoneOut(s: Store, t: Store)
    requires WithinCapacity(s) && Step(s, Save(Written), t)
    requires forall k :: k in s.disk.legacy ==> |Rivals(Merge(Load(s.disk), s.mem), k)| < SavedCount(s)
    ensures |Load(t.disk)| == SavedCount(s)
  {
    var final := SaveWrites(s, Save(Written), t);
    SavedFinal(s, final);
    LoadSize(t.disk);
    if k :| k in LegacyLeft(t.disk) {
      KeptAreRivals(Merge(Load(s.disk), s.mem), final, k, SavedCount(s));
    }
  }

  lemma LeavesOut(s: Store, k: string) returns (t: Store)
    requires k in s.disk.legacy && |Rivals(Merge(Load(s.disk), s.mem), k)| >= SavedCount(s)
    requires WithinCapacity(s)
    ensures Step(s, Save(Written), t) && |Load(t.disk)| > SavedCount(s)
  {
    var final := CanLeaveOut(Merge(Load(s.disk), s.mem), k, SavedCount(s));
    assert Saves(s, final);
    t := s.(disk := s.disk.(dir := Some(final)));
    LoadSize(t.disk);
    assert k in LegacyLeft(t.disk);
  }

  /** A save leaves fewer entries than it found exactly when replacing the directory failed after the
      old one was destroyed, and what remains (legacy and old flat files, or the legacy file) is less. */
  lemma SaveShrinksExactlyWhen(s: Store, o: WriteOutcome, t: Store)
    requires WithinCapacity(s) && Step(s, Save(o), t)
    ensures |Load(t.disk)| < |Load(s.disk)| <==>
            || (o.FailedGone? && |s.disk.legacy.Keys + s.disk.flat.Keys| < |Load(s.disk)|)
            || (o.FailedDamaged? && |s.disk.legacy| < |Load(s.disk)|)
  {
    var final := SaveWrites(s, Save(o), t);
    if o.Written? {
      SavePolicy(s, t);
    }
    FailedLoads(s.disk, final, o);
  }

  /** What a load finds after a failed write. */
  lemma FailedLoads(d: Disk, final: Entries, o: WriteOutcome)
    ensures var left := Load(WriteFiles(d, final, o)).Keys;
            && (o.FailedGone? ==> left == d.legacy.Keys + d.flat.Keys)
            && (o.FailedDamaged? ==> left == d.legacy.Keys)
            && (o.FailedBefore? || o.FailedKept? ==> left == Load(d).Keys)
  {
  }

  // ---------------------------------------------------------------- what a restart brings back

  /** After a completed save and a restart memory holds what the files hold, each key with its newest entry: all
      of it up to the capacity, and beyond that as many as the capacity, none older than one left out. */
  lemma RestartBrings(s: Store, t: Store, u: Store)
    requires Step(s, Save(Written), t) && Step(t, Restart, u)
    ensures |u.mem| == Min(|Load(t.disk)|, s.maxItems)
    ensures forall k :: k in u.mem ==> IsNewest(t.disk, k, u.mem[k])
    ensures |Load(t.disk)| <= s.maxItems ==> u.mem.Keys == t.disk.legacy.Keys + SplitFiles(t.disk).Keys
    ensures forall k, d :: k in u.mem && d in Load(t.disk) && d !in u.mem ==>
              Load(t.disk)[d].accessedAt <= u.mem[k].accessedAt
  {
    LoadsNewest(t.disk);
    SameSizeSameKeys(Load(t.disk), u.mem);
  }

  /** So what was in memory before the save is found after the restart, unless the disk held something newer,
      provided all entries fit. */
  lemma SavedIsFound(s: Store, t: Store, u: Store, k: string)
    requires WithinCapacity(s) && Step(s, Save(Written), t) && Step(t, Restart, u)
    requires k in s.mem && (k in Load(s.disk) ==> Load(s.disk)[k].accessedAt <= s.mem[k].accessedAt)
    requires |Merge(Load(s.disk), s.mem)| <= SavedCount(s) && |Load(t.disk)| <= s.maxItems
    ensures k in u.mem && u.mem[k] == s.mem[k]
  {
    var final := SaveWrites(s, Save(Written), t);
    SavedFinal(s, final);
    SameSizeSameKeys(Merge(Load(s.disk), s.mem), final);
    RestartBrings(s, t, u);
  }

  predicate Benign(op: Op) {
    op.Get? || op.Set? || op == Save(Written) || op.Restart?
  }

  ghost predicate BenignStep(s: Store, op: Op, t: Store) {
    Benign(op) && Step(s, op, t)
  }

  ghost predicate Bounded(s: Store, maxItems: nat, floor: nat, ceiling: int) {
    && WithinCapacity(s) && s.maxItems == maxItems
    && floor <= |Load(s.disk)|
    && (NoLegacy(s.disk) ==> |Load(s.disk)| <= Max(ceiling, maxItems))
  }

  lemma BenignStepKeepsBounds(s: Store, op: Op, t: Store, floor: nat, ceiling: int)
    requires Bounded(s, s.maxItems, floor, ceiling) && BenignStep(s, op, t)
    ensures Bounded(t, s.maxItems, floor, ceiling) && t.disk.legacy == s.disk.legacy
  {
    StepKeepsCapacity(s, op, t);
    if op.Save? {
      SaveKeepsBounds(s, t, floor, ceiling);
    }
  }

  lemma SaveKeepsBounds(s: Store, t: Store, floor: nat, ceiling: int)
    requires WithinCapacity(s) && floor <= |Load(s.disk)| && Step(s, Save(Written), t)
    requires NoLegacy(s.disk) ==> |Load(s.disk)| <= Max(ceiling, s.maxItems)
    ensures floor <= |Load(t.disk)| && (NoLegacy(t.disk) ==> |Load(t.disk)| <= Max(ceiling, t.maxItems))
    ensures t.disk.legacy == s.disk.legacy && t.maxItems == s.maxItems && t.mem == s.mem
  {
    SavePolicy(s, t);
    SaveKeepsLegacy(s, t);
  }

  lemma SaveKeepsLegacy(s: Store, t: Store)
    requires Step(s, Save(Written), t)
    ensures t.disk.legacy == s.disk.legacy && t.maxItems == s.maxItems && t.mem == s.mem
    ensures NoLegacy(t.disk) ==> LegacyLeft(t.disk) == {}
  {
  }

  ghost predicate BoundedWith(s: Store, legacy: Entries, maxItems: nat, floor: nat, ceiling: int) {
    Bounded(s, maxItems, floor, ceiling) && s.disk.legacy == legacy
  }

  /** Over a whole run without deletes and write failures the count on disk only grows, and without a legacy
      file only up to the capacity. */
  lemma DiskGrowsToCapacity(states: seq<Store>, ops: seq<Op>, m: nat, n: nat)
    requires Run(BenignStep, states, ops) && m <= n <= |ops| && WithinCapacity(states[0])
    ensures |Load(states[m].disk)| <= |Load(states[n].disk)|
    ensures NoLegacy(states[0].disk) ==> |Load(states[n].disk)| <= Max(|Load(states[0].disk)|, states[0].maxItems)
  {
    var cap, legacy := states[0].maxItems, states[0].disk.legacy;
    var top := |Load(states[0].disk)|;
    forall s, op, t, floor: nat | BoundedWith(s, legacy, cap, floor, top) && BenignStep(s, op, t)
      ensures BoundedWith(t, legacy, cap, floor, top) {
      BenignStepKeepsBounds(s, op, t, floor, top);
    }
    Invariant(BenignStep, s => BoundedWith(s, legacy, cap, 0, top), states, ops, m);
    Suffix(BenignStep, states, ops, m);
    Invariant(BenignStep, s => BoundedWith(s, legacy, cap, |Load(states[m].disk)|, top), states[m..], ops[m..], n - m);
  }

  // ---------------------------------------------------------------- growth with a legacy file

  /** The entries used after time `t`. */
  function Newer(m: Entries, t: nat): set<string> {
    set k | k in m && m[k].accessedAt > t
  }

  lemma {:induction false} OldestBound(m: Entries) returns (t: nat)
    ensures Newer(m, t) == {}
    decreases |m|
  {
    if m == map[] {
      t := 0;
    } else {
      var k :| k in m;
      var rest := m - {k};
      assert rest.Keys == m.Keys - {k};
      t := OldestBound(rest);
      assert forall j :: j in m && j != k && m[j].accessedAt > t ==> j in Newer(rest, t);
      t := Max(t, m[k].accessedAt);
    }
  }

  lemma {:induction false} UnusedKey(keys: set<string>, n: nat) returns (k: string)
    ensures k !in keys && |k| >= n
    decreases keys
  {
    k := seq(n, _ => 'a');
    if k in keys {
      var longer := UnusedKey(keys - {k}, n + 1);
      k := longer;
    }
  }

  /** The oldest go first: the newer ones are kept, or nothing else is. */
  lemma NewerKept(merged: Entries, final: Entries, count: nat, t: nat)
    requires EvictedTo(merged, final, count)
    ensures |Newer(final, t)| >= Min(|Newer(merged, t)|, |final|)
  {
    if Newer(merged, t) <= final.Keys {
      SubsetSize(Newer(merged, t), Newer(final, t));
    } else {
      var d :| d in Newer(merged, t) && d !in final;
      SubsetSize(final.Keys, Newer(final, t));
    }
  }

  /** After `n` rounds of setting a new key after time `t` and saving; the legacy entries are all older. */
  ghost predicate Grown(s: Store, t: nat, n: nat) {
    && WithinCapacity(s) && s.disk.legacy != map[]
    && |Newer(SplitFiles(s.disk), t)| >= n
    && NoneNewer(s, s.mem, t) && NoneNewer(s, SplitFiles(s.disk), t) && NoneNewer(s, s.disk.legacy, t)
  }

  ghost predicate NoneNewer(s: Store, m: Entries, t: nat) {
    forall k :: k in s.disk.legacy && k in m ==> m[k].accessedAt <= t
  }

  lemma GrownLoads(s: Store, t: nat, n: nat)
    requires Grown(s, t, n)
    ensures |Load(s.disk)| > n
  {
    var k :| k in s.disk.legacy;
    SubsetSize(Newer(SplitFiles(s.disk), t), Load(s.disk).Keys - {k});
  }

  lemma SetExists(s: Store, key: string, value: Value, now: nat) returns (u: Store)
    ensures Step(s, Set(key, value, now), u)
  {
    var mid := s.mem;
    if |s.mem| >= s.maxItems {
      mid := EvictionExists(s.mem, Max(0, |s.mem| - Max(|s.mem| / 10, 1)));
    }
    u := s.(mem := mid[key := CacheEntry(value, now)]);
    assert MakeRoom(s.mem, mid, s.maxItems);
  }
  /** Setting a new key after all that the merge will hold. */
  lemma SetRound(s: Store, t: nat, n: nat) returns (u: Store, key: string)
    requires Grown(s, t, n)
    ensures BenignStep(s, Set(key, JNull, t + 1), u) && Grown(u, t, n) && u.disk == s.disk && u.maxItems == s.maxItems
    ensures key in u.mem && u.mem[key].accessedAt > t && key !in SplitFiles(s.disk)
  {
    key := UnusedKey(s.mem.Keys + Load(s.disk).Keys, 0);
    u := SetExists(s, key, JNull, t + 1);
    StepKeepsCapacity(s, Set(key, JNull, t + 1), u);
    var mid := RoomMade(s, Set(key, JNull, t + 1), u);
  }

  /** A new key in memory is one more of the newer ones after saving. */
  lemma SaveRound(s: Store, t: nat, n: nat, key: string) returns (u: Store)
    requires Grown(s, t, n) && key in s.mem && s.mem[key].accessedAt > t && key !in SplitFiles(s.disk)
    ensures BenignStep(s, Save(Written), u) && Grown(u, t, n + 1) && u.maxItems == s.maxItems
  {
    u := SaveExists(s, Written);
    var final := SaveWrites(s, Save(Written), u);
    SavedFinal(s, final);
    NewerSaved(s, t, n, key, final);
    OldSaved(s, t, final);
  }

  lemma NewerSaved(s: Store, t: nat, n: nat, key: string, final: Entries)
    requires Grown(s, t, n) && key in s.mem && s.mem[key].accessedAt > t && key !in SplitFiles(s.disk)
    requires EvictedTo(Merge(Load(s.disk), s.mem), final, SavedCount(s)) && |Load(s.disk)| <= SavedCount(s) == |final|
    ensures |Newer(final, t)| >= n + 1
  {
    GrownLoads(s, t, n);
    NewerKept(Merge(Load(s.disk), s.mem), final, SavedCount(s), t);
    NewerMerged(s, t, key);
  }

  lemma OldSaved(s: Store, t: nat, final: Entries)
    requires NoneNewer(s, s.mem, t) && NoneNewer(s, SplitFiles(s.disk), t) && NoneNewer(s, s.disk.legacy, t)
    requires EvictedTo(Merge(Load(s.disk), s.mem), final, SavedCount(s))
    ensures NoneNewer(s, final, t)
  {
  }

  lemma NewerMerged(s: Store, t: nat, key: string)
    requires key in s.mem && s.mem[key].accessedAt > t && key !in SplitFiles(s.disk)
    ensures |Newer(Merge(Load(s.disk), s.mem), t)| > |Newer(SplitFiles(s.disk), t)|
  {
    var merged := Merge(Load(s.disk), s.mem);
    SubsetSize(Newer(SplitFiles(s.disk), t), Newer(merged, t) - {key});
  }

  lemma {:induction false} GrowingRun(s: Store, t: nat, n: nat) returns (states: seq<Store>, ops: seq<Op>)
    requires Grown(s, t, 0)
    ensures Run(BenignStep, states, ops) && states[0] == s && Grown(states[|ops|], t, n)
  {
    if n == 0 {
      states, ops := [s], [];
    } else {
      var before, done := GrowingRun(s, t, n - 1);
      var mid, key := SetRound(before[|done|], t, n - 1);
      var end := SaveRound(mid, t, n - 1, key);
      var a, b := Set(key, JNull, t + 1), Save(Written);
      ExtendTwice(BenignStep, before, done, a, mid, b, end);
      states, ops := before + [mid, end], done + [a, b];
    }
  }

  /** With a legacy file no bound holds: it is merged into every load and never removed, so from any state,
      setting a new key and saving again and again, without a delete or a failure, leaves any number of
      entries on disk, whatever the capacity. */
  lemma LegacyGrowsForever(s: Store, n: nat) returns (states: seq<Store>, ops: seq<Op>)
    requires WithinCapacity(s) && !NoLegacy(s.disk)
    ensures Run(BenignStep, states, ops) && states[0] == s
    ensures |Load(states[|ops|].disk)| > n
  {
    var a := OldestBound(s.mem);
    var b := OldestBound(SplitFiles(s.disk));
    var c := OldestBound(s.disk.legacy);
    var t := Max(a, Max(b, c));
    NoneNewerThan(s, s.mem, a, t);
    NoneNewerThan(s, SplitFiles(s.disk), b, t);
    NoneNewerThan(s, s.disk.legacy, c, t);
    states, ops := GrowingRun(s, t, n);
    GrownLoads(states[|ops|], t, n);
  }

  lemma NoneNewerThan(s: Store, m: Entries, bound: nat, t: nat)
    requires Newer(m, bound) == {} && bound <= t
    ensures NoneNewer(s, m, t)
  {
    forall k | k in s.disk.legacy && k in m ensures m[k].accessedAt <= t {
      assert k !in Newer(m, bound);
    }
  }

  ghost predicate DiskBounded(s: Store) {
    forall states: seq<Store>, ops: seq<Op> ::
      Run(BenignStep, states, ops) && states[0] == s ==>
        |Load(states[|ops|].disk)| <= Max(|Load(s.disk)|, s.maxItems)
  }

  /** The disk stays within the larger of its count and the capacity, in all that can follow without a delete or
      a failure, exactly when there is no legacy file. */
  lemma DiskBoundedExactly(s: Store)
    requires WithinCapacity(s)
    ensures DiskBounded(s) <==> NoLegacy(s.disk)
  {
    if NoLegacy(s.disk) {
      forall states: seq<Store>, ops: seq<Op> | Run(BenignStep, states, ops) && states[0] == s
        ensures |Load(states[|ops|].disk)| <= Max(|Load(s.disk)|, s.maxItems) {
        DiskGrowsToCapacity(states, ops, 0, |ops|);
      }
    } else {
      var states, ops := LegacyGrowsForever(s, Max(|Load(s.disk)|, s.maxItems));
      assert |Load(states[|ops|].disk)| > Max(|Load(s.disk)|, s.maxItems);
    }
  }

  // ---------------------------------------------------------------- deletes last

  ghost predicate Forgotten(s: Store, k: string) {
    k !in s.mem && k !in Load(s.disk)
  }

  predicate Sets(op: Op, k: string) {
    op.Set? && op.key == k
  }

  /** Neither memory nor a load ever shows `k` again, whatever is done short of setting it. */
  ghost predicate ForgottenForever(s: Store, k: string) {
    forall states: seq<Store>, ops: seq<Op> ::
      Run(WithoutSet(k), states, ops) && states[0] == s ==> Forgotten(states[|ops|], k)
  }

  /** No file that could ever be read holds `k`. */
  ghost predicate Erased(s: Store, k: string) {
    k !in s.mem && NotOnDisk(s.disk, k)
  }

  ghost predicate NotOnDisk(d: Disk, k: string) {
    && k !in d.legacy
    && k !in d.flat
    && (d.dir.Some? ==> k !in d.dir.value)
  }

  lemma SetKeepsErased(s: Store, op: Op, t: Store, k: string)
    requires Erased(s, k) && op.Set? && op.key != k && Step(s, op, t)
    ensures Erased(t, k)
  {
    var mid :| MakeRoom(s.mem, mid, s.maxItems) && t.mem == mid[op.key := CacheEntry(op.value, op.now)];
    assert k !in mid;
  }

  lemma SaveKeepsErased(s: Store, op: Op, t: Store, k: string)
    requires Erased(s, k) && op.Save? && Step(s, op, t)
    ensures Erased(t, k)
  {
    var final := SaveWrites(s, op, t);
    SavedErased(s, final, k);
    WrittenErased(s.disk, final, op.outcome, k);
  }

  lemma SavedErased(s: Store, final: Entries, k: string)
    requires Erased(s, k) && Saves(s, final)
    ensures k !in final
  {
    MergeErased(s, k);
    ManagedKeys(Merge(Load(s.disk), s.mem), final, |Load(s.disk)|, |s.mem|, s.maxItems);
  }

  lemma WrittenErased(d: Disk, final: Entries, o: WriteOutcome, k: string)
    requires NotOnDisk(d, k) && k !in final
    ensures NotOnDisk(WriteFiles(d, final, o), k)
  {
  }

  lemma MergeErased(s: Store, k: string)
    requires Erased(s, k)
    ensures k !in Merge(Load(s.disk), s.mem)
  {
  }

  lemma ManagedKeys(merged: Entries, final: Entries, diskSize: nat, memSize: nat, maxItems: nat)
    requires Managed(merged, final, diskSize, memSize, maxItems)
    ensures final.Keys <= merged.Keys
  {
  }

  lemma RestartKeepsErased(s: Store, op: Op, t: Store, k: string)
    requires Erased(s, k) && op.Restart? && Step(s, op, t)
    ensures Erased(t, k)
  {
    assert k !in Load(s.disk);
  }

  lemma OtherKeepsErased(s: Store, op: Op, t: Store, k: string)
    requires Erased(s, k) && (op.Get? || op.DeleteByKey? || op.DeleteByMethod?) && Step(s, op, t)
    ensures Erased(t, k)
  {
    assert k !in t.mem;
    if op.Get? {
      assert t.disk == s.disk;
    } else {
      assert t.disk == s.disk || t.disk == WriteFiles(s.disk, t.mem, op.outcome);
      WrittenErased(s.disk, t.mem, op.outcome, k);
    }
  }

  lemma StepKeepsErased(s: Store, op: Op, t: Store, k: string)
    requires Erased(s, k) && Step(s, op, t) && !Sets(op, k)
    ensures Erased(t, k)
  {
    match op
    case Set(_, _, _) => SetKeepsErased(s, op, t, k);
    case Save(_) => SaveKeepsErased(s, op, t, k);
    case Restart => RestartKeepsErased(s, op, t, k);
    case _ => OtherKeepsErased(s, op, t, k);
  }

  ghost predicate StepWithoutSet(s: Store, op: Op, t: Store, k: string) {
    Step(s, op, t) && !Sets(op, k)
  }

  ghost function WithoutSet(k: string): (Store, Op, Store) -> bool {
    (s, op, t) => StepWithoutSet(s, op, t, k)
  }

  lemma RunKeepsErased(states: seq<Store>, ops: seq<Op>, k: string, n: nat)
    requires Run(WithoutSet(k), states, ops) && Erased(states[0], k) && n <= |ops|
    ensures Erased(states[n], k)
  {
    forall s, op, t | Erased(s, k) && StepWithoutSet(s, op, t, k) ensures Erased(t, k) {
      StepKeepsErased(s, op, t, k);
    }
    Invariant(WithoutSet(k), s => Erased(s, k), states, ops, n);
  }

  lemma SaveExists(s: Store, o: WriteOutcome) returns (t: Store)
    ensures Step(s, Save(o), t)
    ensures exists final :: Saves(s, final) && t == s.(disk := WriteFiles(s.disk, final, o))
  {
    var merged := Merge(Load(s.disk), s.mem);
    var target := if |Load(s.disk)| >= |s.mem| then |Load(s.disk)| else Min(s.maxItems, |merged|);
    var final := EvictionExists(merged, target);
    if |merged| <= target {
      final := merged;
    }
    assert Saves(s, final);
    t := s.(disk := WriteFiles(s.disk, final, o));
  }

  lemma ErasedStaysForgotten(s: Store, k: string)
    requires Erased(s, k)
    ensures ForgottenForever(s, k)
  {
    forall states: seq<Store>, ops: seq<Op>
      | Run(WithoutSet(k), states, ops) && states[0] == s
      ensures Forgotten(states[|ops|], k)
    {
      RunKeepsErased(states, ops, k, |ops|);
      assert Erased(states[|ops|], k);
    }
  }

  lemma ForgottenNow(s: Store, k: string)
    requires ForgottenForever(s, k)
    ensures Forgotten(s, k)
  {
    var none: seq<Op> := [];
    assert Run(WithoutSet(k), [s], none);
    assert Forgotten([s][|none|], k);
  }

  lemma ForgottenNext(s: Store, op: Op, t: Store, k: string)
    requires ForgottenForever(s, k) && StepWithoutSet(s, op, t, k)
    ensures Forgotten(t, k)
  {
    assert Run(WithoutSet(k), [s, t], [op]);
    assert Forgotten([s, t][|[op]|], k);
  }

  /** A key is gone for good exactly when no file holds it; the old flat files count, since a failed
      directory replacement uncovers them. */
  lemma ForgottenForeverExactly(s: Store, k: string)
    ensures ForgottenForever(s, k) <==> Erased(s, k)
  {
    if Erased(s, k) {
      ErasedStaysForgotten(s, k);
    }
    if ForgottenForever(s, k) {
      ForgottenNow(s, k);
      var t := SaveExists(s, FailedGone);
      ForgottenNext(s, Save(FailedGone), t, k);
    }
  }

  /** What a delete takes from memory: the key, or the keys that begin with the method and a colon. */
  predicate IsNamed(op: Op, k: string) {
    (op.DeleteByKey? && k == op.key) || (op.DeleteByMethod? && op.name + ":" <= k)
  }

  lemma DeleteTakesNamed(s: Store, op: Op, t: Store, k: string)
    requires (op.DeleteByKey? || op.DeleteByMethod?) && Step(s, op, t)
    ensures k in t.mem <==> k in s.mem && !IsNamed(op, k)
    ensures k in t.mem ==> t.mem[k] == s.mem[k]
    ensures t.mem.Keys == s.mem.Keys ==> t == s
  {
    if t.mem.Keys == s.mem.Keys {
      assert t.mem == s.mem;
      assert op.DeleteByKey? ==> op.key !in s.mem;
      assert op.DeleteByMethod? ==> forall j :: j in MethodKeys(s.mem, op.name) ==> j !in t.mem;
    }
  }

  /** What a load finds after a delete whose save completed: the legacy file and the memory, nothing else.
      So entries that were only on disk go with the deleted one. */
  lemma DeleteLeaves(s: Store, op: Op, t: Store)
    requires op.DeleteByKey? || op.DeleteByMethod?
    requires op.outcome == Written && Step(s, op, t) && t.mem != s.mem
    ensures Load(t.disk) == Merge(s.disk.legacy, t.mem)
  {
    assert s.mem - {} == s.mem;
    match op
    case DeleteByKey(key, _) => assert key !in s.mem ==> s.mem - {key} == s.mem;
    case _ =>
  }

  /** A delete takes nothing else from the disk exactly when every split entry is also in memory or in the
      legacy file. */
  lemma DeleteSparesExactly(s: Store, op: Op, t: Store)
    requires op.DeleteByKey? || op.DeleteByMethod?
    requires op.outcome == Written && Step(s, op, t) && t.mem != s.mem
    ensures (forall k :: k in Load(s.disk) && !(k in s.mem && k !in t.mem) ==> k in Load(t.disk)) <==>
            (forall k :: k in SplitFiles(s.disk) ==> k in s.mem || k in s.disk.legacy)
  {
    DeleteLeaves(s, op, t);
    forall k | k in SplitFiles(s.disk) ensures k in Load(s.disk) {
    }
  }

  const NOTHING: Entries := map[]
  const FIRST: Entries := map["a" := CacheEntry(JNull, 1)]
  const SECOND: Entries := map["b" := CacheEntry(JNull, 2)]

  /** A cache of capacity one. */
  function Single(mem: Entries, dir: Option<Entries>): Store {
    Store(mem, EMPTY.(dir := dir), 1)
  }

  lemma SetInstead(mem: Entries, dir: Option<Entries>, key: string, value: Value, now: nat)
    requires |mem| <= 1
    ensures Step(Single(mem, dir), Set(key, value, now), Single(map[key := CacheEntry(value, now)], dir))
  {
    assert EvictedTo(mem, NOTHING, 0) && (|mem| == 0 ==> mem == NOTHING);
    assert MakeRoom(mem, NOTHING, 1);
    assert NOTHING[key := CacheEntry(value, now)] == map[key := CacheEntry(value, now)];
  }

  lemma SaveFirst()
    ensures Step(Single(FIRST, None), Save(Written), Single(FIRST, Some(FIRST)))
  {
    assert |FIRST.Keys| == 1;
    assert Merge(Load(EMPTY), FIRST) == FIRST;
    assert Saves(Single(FIRST, None), FIRST);
  }

  lemma DeleteSecond()
    ensures Step(Single(SECOND, Some(FIRST)), DeleteByKey("b", Written), Single(NOTHING, Some(NOTHING)))
    ensures "a" in Load(Single(SECOND, Some(FIRST)).disk) && "a" !in Load(Single(NOTHING, Some(NOTHING)).disk)
  {
    assert SECOND - {"b"} == NOTHING;
  }

  /** It does take another in this run of a cache of capacity one: the first key is saved and then evicted from
      memory, and deleting the second removes it from the disk too. */
  lemma DeleteTakesAnother() returns (states: seq<Store>, ops: seq<Op>)
    ensures CacheRun(states, ops, 1)
    ensures ops == [Set("a", JNull, 1), Save(Written), Set("b", JNull, 2), DeleteByKey("b", Written)]
    ensures "a" in Load(states[3].disk) && "a" !in Load(states[4].disk)
  {
    var start, saved := [Single(NOTHING, None)], Single(FIRST, Some(FIRST));
    var a, b := [Set("a", JNull, 1), Save(Written)], [Set("b", JNull, 2), DeleteByKey("b", Written)];
    var mid, end := Single(SECOND, Some(FIRST)), Single(NOTHING, Some(NOTHING));
    SetInstead(NOTHING, None, "a", JNull, 1);
    SaveFirst();
    ExtendTwice(Step, start, [], a[0], Single(FIRST, None), a[1], saved);
    assert |FIRST.Keys| == 1;
    SetInstead(FIRST, Some(FIRST), "b", JNull, 2);
    DeleteSecond();
    assert [] + a == a;
    ExtendTwice(Step, start + [Single(FIRST, None), saved], a, b[0], mid, b[1], end);
    states, ops := start + [Single(FIRST, None), saved] + [mid, end], a + b;
    assert Load(EMPTY) == NOTHING;
  }

  /** A deleted key never comes back unless it is set again, exactly when no legacy or flat file holds it. */
  lemma DeletesLast(s: Store, op: Op, t: Store, k: string)
    requires op.DeleteByKey? || op.DeleteByMethod?
    requires op.outcome == Written && Step(s, op, t) && k in s.mem && k !in t.mem
    ensures ForgottenForever(t, k) <==> k !in s.disk.legacy && k !in s.disk.flat
  {
    ForgottenForeverExactly(t, k);
  }

  /** A key that only the disk holds is not found, so a delete leaves it there. */
  lemma DeleteMissesDisk(s: Store, k: string, o: WriteOutcome, t: Store)
    requires k !in s.mem && Step(s, DeleteByKey(k, o), t)
    ensures k in Load(t.disk) <==> k in Load(s.disk)
  {
  }
}
