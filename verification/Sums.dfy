/** Sums of a measure over the values of a finite map. */
module Sums {

  ghost function Pick<K, V>(m: map<K, V>): (k: K)
    requires m != map[]
    ensures k in m
  {
    assert m.Keys != {};
    var k :| k in m.Keys; k
  }

  ghost function SumBy<K, V>(m: map<K, V>, f: V -> int): int
    decreases |m|
  {
    if m == map[] then 0
    else f(m[Pick(m)]) + SumBy(m - {Pick(m)}, f)
  }

  lemma {:induction false} SumRemove<K, V>(m: map<K, V>, f: V -> int, k: K)
    requires k in m
    ensures SumBy(m, f) == f(m[k]) + SumBy(m - {k}, f)
    decreases |m|
  {
    var p := Pick(m);
    if p != k {
      SumRemove(m - {p}, f, k);
      assert (m - {k}) - {p} == (m - {p}) - {k};
      SumRemove(m - {k}, f, p);
    }
  }

  /** Writing one key replaces its old share, if any, by the new one. */
  lemma SumUpdate<K, V>(m: map<K, V>, f: V -> int, k: K, v: V)
    ensures SumBy(m[k := v], f) == SumBy(m, f) - (if k in m then f(m[k]) else 0) + f(v)
  {
    SumRemove(m[k := v], f, k);
    assert m[k := v] - {k} == m - {k};
    if k in m {
      SumRemove(m, f, k);
    } else {
      assert m - {k} == m;
    }
  }

  lemma {:induction false} SumNonNegative<K, V>(m: map<K, V>, f: V -> int)
    requires forall k :: k in m ==> f(m[k]) >= 0
    ensures SumBy(m, f) >= 0
    decreases |m|
  {
    if m != map[] {
      SumNonNegative(m - {Pick(m)}, f);
    }
  }

  lemma OneMore(x: int, n: nat)
    ensures x * (n + 1) == x * n + x
  {
  }

  /** If every value lies in [lo, hi], the sum lies in [lo * |m|, hi * |m|]. */
  lemma {:induction false} SumBetween<K, V>(m: map<K, V>, f: V -> int, lo: int, hi: int)
    requires forall k :: k in m ==> lo <= f(m[k]) <= hi
    ensures lo * |m| <= SumBy(m, f) <= hi * |m|
    decreases |m|
  {
    if m != map[] {
      var p := Pick(m);
      var rest := m - {p};
      SumBetween(rest, f, lo, hi);
      assert |rest| == |m| - 1;
      OneMore(lo, |rest|);
      OneMore(hi, |rest|);
    }
  }
}
