/** Sums over the values of a map. */
module Sums {

  ghost function Sum<K(!new), V>(m: map<K, V>, f: V -> int): int
    decreases |m|
  {
    if m == map[] then 0
    else
      var k :| k in m;
      f(m[k]) + Sum(m - {k}, f)
  }

  /** Any key can be taken out of the sum. */
  lemma {:induction false} SumRemove<K(!new), V>(m: map<K, V>, f: V -> int, k: K)
    requires k in m
    ensures Sum(m, f) == f(m[k]) + Sum(m - {k}, f)
    decreases |m|
  {
    var j :| j in m && Sum(m, f) == f(m[j]) + Sum(m - {j}, f);
    if j != k {
      SumRemove(m - {j}, f, k);
      SumRemove(m - {k}, f, j);
      assert m - {j} - {k} == m - {k} - {j};
    }
  }

  lemma SumUpdate<K(!new), V>(m: map<K, V>, f: V -> int, k: K, v: V)
    ensures Sum(m[k := v], f) == Sum(m, f) - (if k in m then f(m[k]) else 0) + f(v)
  {
    SumRemove(m[k := v], f, k);
    if k in m {
      SumRemove(m, f, k);
      assert m[k := v] - {k} == m - {k};
    } else {
      assert m[k := v] - {k} == m;
    }
  }

  /** Part of a map sums to no more, if no term is negative. */
  lemma {:induction false} SumPart<K(!new), V>(part: map<K, V>, all: map<K, V>, f: V -> int)
    requires forall k :: k in part ==> k in all && all[k] == part[k]
    requires forall k :: k in all ==> f(all[k]) >= 0
    ensures Sum(part, f) <= Sum(all, f)
    decreases |all|
  {
    if all == map[] {
      assert part == map[];
    } else {
      var k :| k in all;
      SumRemove(all, f, k);
      if k in part {
        SumRemove(part, f, k);
      } else {
        assert part - {k} == part;
      }
      assert |all - {k}| == |all| - 1;
      SumPart(part - {k}, all - {k}, f);
    }
  }

  /** And to less, if a positive term is missing. */
  lemma SumMissing<K(!new), V>(part: map<K, V>, all: map<K, V>, f: V -> int, k: K)
    requires forall k :: k in part ==> k in all && all[k] == part[k]
    requires forall k :: k in all ==> f(all[k]) >= 0
    requires k in all && k !in part && f(all[k]) > 0
    ensures Sum(part, f) < Sum(all, f)
  {
    SumRemove(all, f, k);
    SumPart(part, all - {k}, f);
  }

  /** A sum of terms between -1 and 1 is at most their number. */
  lemma {:induction false} SumBounded<K(!new), V>(m: map<K, V>, f: V -> int)
    requires forall k :: k in m ==> -1 <= f(m[k]) <= 1
    ensures -|m| <= Sum(m, f) <= |m|
    decreases |m|
  {
    if m != map[] {
      var k :| k in m;
      SumRemove(m, f, k);
      SumBounded(m - {k}, f);
      assert |m - {k}| == |m| - 1;
    }
  }
}
