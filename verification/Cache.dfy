/** The cache of responses: least-recently-used eviction, merging by time stamp, and persistence.
    `Step` says what each operation may do; `CacheManager` performs the operations in place. */
module Cache {
  import opened Common
  import opened Sorting
  import opened Json

  datatype CacheEntry = CacheEntry(data: Value, accessedAt: nat)

  type Entries = map<string, CacheEntry>

  // ---------------------------------------------------------------- eviction

  /** `after` keeps `target` entries of `before`, unchanged, and nothing it drops is newer than
      anything it keeps. Ties in age are broken by the iteration order of the hash map. */
  ghost predicate EvictedTo(before: Entries, after: Entries, target: nat) {
    && after.Keys <= before.Keys
    && (forall k :: k in after ==> after[k] == before[k])
    && |after| == Min(|before|, target)
    && (forall k, d :: k in after && d in before && d !in after ==> before[d].accessedAt <= after[k].accessedAt)
  }

  datatype Aged = Aged(key: string, accessedAt: nat)

  predicate AgedLe(a: Aged, b: Aged) {
    a.accessedAt <= b.accessedAt
  }

  /** `list` holds each key of `cache` once, with its age. */
  ghost predicate Lists(list: seq<Aged>, cache: Entries) {
    && (forall i :: 0 <= i < |list| ==> list[i].key in cache && list[i].accessedAt == cache[list[i].key].accessedAt)
    && (forall i, j :: 0 <= i < j < |list| ==> list[i].key != list[j].key)
    && |list| == |cache|
  }

  method ListEntries(cache: Entries) returns (list: seq<Aged>)
    ensures Lists(list, cache)
  {
    list := [];
    var rest := cache.Keys;
    while rest != {}
      invariant rest <= cache.Keys
      invariant forall i :: 0 <= i < |list| ==>
                  list[i].key in cache && list[i].key !in rest && list[i].accessedAt == cache[list[i].key].accessedAt
      invariant forall i, j :: 0 <= i < j < |list| ==> list[i].key != list[j].key
      invariant |list| + |rest| == |cache.Keys|
    {
      var k :| k in rest;
      rest := rest - {k};
      list := list + [Aged(k, cache[k].accessedAt)];
    }
  }

  lemma SortedLists(list: seq<Aged>, cache: Entries)
    requires Lists(list, cache)
    ensures Lists(Sort(AgedLe, list), cache) && Sorted(AgedLe, Sort(AgedLe, list))
  {
    var s := Sort(AgedLe, list);
    SortSorts(AgedLe, list);
    SortPermutes(AgedLe, list);
    forall i | 0 <= i < |s| ensures s[i].key in cache && s[i].accessedAt == cache[s[i].key].accessedAt {
      SortElements(AgedLe, list, s[i]);
    }
    forall i, j | 0 <= i < j < |s| ensures s[i].key != s[j].key {
      if s[i].key == s[j].key {
        assert s == s[..j] + s[j..] && s[i] in s[..j] && s[j] in s[j..];
        assert s[i] in list by { SortElements(AgedLe, list, s[i]); }
        assert multiset(s[..j])[s[i]] >= 1;
        CountOnce(list, s[i]);
      }
    }
  }

  lemma {:induction false} CountOnce(list: seq<Aged>, x: Aged)
    requires forall i, j :: 0 <= i < j < |list| ==> list[i].key != list[j].key
    ensures multiset(list)[x] <= 1
  {
    if list != [] {
      assert list == [list[0]] + list[1..];
      CountOnce(list[1..], x);
      assert multiset(list[1..])[x] > 0 ==> x in list[1..];
    }
  }

  function KeysOf(list: seq<Aged>): set<string> {
    set a | a in list :: a.key
  }

  lemma {:induction false} KeysOfSize(list: seq<Aged>)
    requires forall i, j :: 0 <= i < j < |list| ==> list[i].key != list[j].key
    ensures |KeysOf(list)| == |list|
  {
    if list == [] {
      assert KeysOf(list) == {};
    } else {
      KeysOfSize(list[1..]);
      assert list == [list[0]] + list[1..];
      assert KeysOf(list) == {list[0].key} + KeysOf(list[1..]);
    }
  }

  lemma KeysOfSnoc(list: seq<Aged>, a: Aged)
    ensures KeysOf(list + [a]) == KeysOf(list) + {a.key}
  {
  }

  lemma DropCount(cache: Entries, list: seq<Aged>, n: nat)
    requires Lists(list, cache) && n <= |list|
    ensures KeysOf(list) == cache.Keys
    ensures |cache - KeysOf(list[..n])| == |cache| - n
  {
    KeysOfSize(list);
    KeysOfSize(list[..n]);
    SubsetOfEqualSize(KeysOf(list), cache.Keys);
    var gone := KeysOf(list[..n]);
    assert gone <= cache.Keys;
    assert (cache - gone).Keys == cache.Keys - gone;
  }

  lemma Position(list: seq<Aged>, k: string) returns (i: nat)
    requires k in KeysOf(list)
    ensures i < |list| && list[i].key == k
  {
    var x :| x in list && x.key == k;
    i :| 0 <= i < |list| && list[i] == x;
  }

  lemma DroppedKey(list: seq<Aged>, n: int, i: int)
    requires 0 <= i < n <= |list|
    ensures list[i].key in KeysOf(list[..n])
  {
    assert list[..n][i] == list[i];
  }

  /** Dropping the first `n` entries of an age-sorted listing is an eviction. */
  lemma DropOldest(cache: Entries, list: seq<Aged>, n: nat)
    requires Lists(list, cache) && Sorted(AgedLe, list) && n <= |list|
    ensures EvictedTo(cache, cache - KeysOf(list[..n]), |cache| - n)
  {
    DropCount(cache, list, n);
    var kept := cache - KeysOf(list[..n]);
    forall k, d | k in kept && d in cache && d !in kept ensures cache[d].accessedAt <= kept[k].accessedAt {
      var i := Position(list, k);
      var j := Position(list[..n], d);
      if i < n {
        DroppedKey(list, n, i);
      }
      assert AgedLe(list[j], list[i]);
    }
  }

  lemma RemoveNext(cache: Entries, list: seq<Aged>, i: nat)
    requires i < |list|
    ensures cache - KeysOf(list[..i]) - {list[i].key} == cache - KeysOf(list[..i + 1])
  {
    assert list[..i + 1] == list[..i] + [list[i]];
    KeysOfSnoc(list[..i], list[i]);
  }

  method EvictToSize(cache: Entries, target: nat) returns (r: Entries)
    ensures EvictedTo(cache, r, target)
  {
    if |cache| <= target {
      return cache;
    }
    var toRemove := |cache| - target;
    var entries := ListEntries(cache);
    SortedLists(entries, cache);
    entries := Sort(AgedLe, entries);
    r := cache;
    for i := 0 to toRemove
      invariant r == cache - KeysOf(entries[..i])
    {
      RemoveNext(cache, entries, i);
      r := r - {entries[i].key};
    }
    DropOldest(cache, entries, toRemove);
  }

  /** Some eviction to the target exists, whatever the ages. */
  lemma {:induction false} EvictionExists(cache: Entries, target: nat) returns (r: Entries)
    ensures EvictedTo(cache, r, target)
    decreases |cache|
  {
    if |cache| <= target {
      r := cache;
    } else {
      var oldest := Oldest(cache);
      var rest := cache - {oldest};
      assert rest.Keys == cache.Keys - {oldest};
      r := EvictionExists(rest, target);
    }
  }

  lemma {:induction false} Oldest(cache: Entries) returns (k: string)
    requires |cache| > 0
    ensures k in cache && forall d :: d in cache ==> cache[k].accessedAt <= cache[d].accessedAt
    decreases |cache|
  {
    k :| k in cache.Keys;
    var rest := cache - {k};
    assert rest.Keys == cache.Keys - {k};
    assert forall d :: d in cache && d != k ==> d in rest && rest[d] == cache[d];
    if |rest| > 0 {
      var d := Oldest(rest);
      if rest[d].accessedAt < cache[k].accessedAt {
        k := d;
      }
    }
  }

  // ---------------------------------------------------------------- merging

  /** Per key the newest entry; the right side wins ties. */
  function Merge(left: Entries, right: Entries): (r: Entries)
    ensures r.Keys == left.Keys + right.Keys
  {
    map k | k in left.Keys + right.Keys ::
      if k in right && (k !in left || right[k].accessedAt >= left[k].accessedAt) then right[k] else left[k]
  }

  method MergeCaches(disk: Entries, memory: Entries) returns (merged: Entries)
    ensures merged == Merge(disk, memory)
  {
    merged := disk;
    var rest := memory.Keys;
    while rest != {}
      invariant rest <= memory.Keys
      invariant merged.Keys == disk.Keys + (memory.Keys - rest)
      invariant forall k :: k in merged ==> merged[k] == if k in rest then disk[k] else Merge(disk, memory)[k]
    {
      var key :| key in rest;
      rest := rest - {key};
      if key !in merged || memory[key].accessedAt >= merged[key].accessedAt {
        merged := merged[key := memory[key]];
      }
    }
    assert merged.Keys == disk.Keys + memory.Keys;
  }

  lemma MergeIdempotent(a: Entries)
    ensures Merge(a, a) == a
  {
    assert Merge(a, a).Keys == a.Keys;
  }

  lemma MergeAssociative(a: Entries, b: Entries, c: Entries)
    ensures Merge(Merge(a, b), c) == Merge(a, Merge(b, c))
  {
    var l, r := Merge(Merge(a, b), c), Merge(a, Merge(b, c));
    assert l.Keys == r.Keys;
    forall k | k in l ensures l[k] == r[k] {
    }
  }

  /** Sides may be swapped exactly when no key holds two different entries of the same age. */
  lemma MergeCommutes(a: Entries, b: Entries)
    ensures Merge(a, b) == Merge(b, a) <==>
            (forall k :: k in a && k in b && a[k].accessedAt == b[k].accessedAt ==> a[k] == b[k])
  {
    var l, r := Merge(a, b), Merge(b, a);
    assert l.Keys == r.Keys;
    if l == r {
      forall k | k in a && k in b && a[k].accessedAt == b[k].accessedAt ensures a[k] == b[k] {
        assert l[k] == b[k] && r[k] == a[k];
      }
    }
  }

  /** The merge is the least upper bound in the order "every key present, and at least as recent". */
  ghost predicate NotOlder(a: Entries, b: Entries) {
    forall k :: k in a ==> k in b && a[k].accessedAt <= b[k].accessedAt
  }

  lemma MergeIsJoin(a: Entries, b: Entries, c: Entries)
    ensures NotOlder(a, Merge(a, b)) && NotOlder(b, Merge(a, b))
    ensures NotOlder(Merge(a, b), c) <==> NotOlder(a, c) && NotOlder(b, c)
  {
    var m := Merge(a, b);
    if NotOlder(a, c) && NotOlder(b, c) {
      forall k | k in m ensures k in c && m[k].accessedAt <= c[k].accessedAt {
      }
    }
    if NotOlder(m, c) {
      forall k | k in a ensures k in c && a[k].accessedAt <= c[k].accessedAt {
        assert k in m;
      }
      forall k | k in b ensures k in c && b[k].accessedAt <= c[k].accessedAt {
        assert k in m;
      }
    }
  }
}
