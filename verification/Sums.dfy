/** Sums over finite maps. */
module Sums {

  ghost function Sum<K>(m: map<K, int>): int
    decreases |m|
  {
    if m == map[] then 0
    else
      var k :| k in m;
      m[k] + Sum(m - {k})
  }

  /** Any key may be taken out first. */
  lemma {:induction false} SumRemove<K>(m: map<K, int>, k: K)
    requires k in m
    ensures Sum(m) == m[k] + Sum(m - {k})
    decreases |m|
  {
    var k0 :| k0 in m && Sum(m) == m[k0] + Sum(m - {k0});
    if k0 != k {
      SumRemove(m - {k0}, k);
      SumRemove(m - {k}, k0);
      assert m - {k0} - {k} == m - {k} - {k0};
    }
  }

  lemma SumUpdate<K>(m: map<K, int>, k: K, v: int)
    ensures Sum(m[k := v]) == Sum(m) - (if k in m then m[k] else 0) + v
  {
    SumRemove(m[k := v], k);
    assert m[k := v] - {k} == m - {k};
    if k in m {
      SumRemove(m, k);
    } else {
      assert m - {k} == m;
    }
  }

  lemma {:induction false} SumNonNegative<K>(m: map<K, int>)
    requires forall k | k in m :: m[k] >= 0
    ensures Sum(m) >= 0
    decreases |m|
  {
    if m != map[] {
      var k :| k in m;
      SumRemove(m, k);
      SumNonNegative(m - {k});
    }
  }

  /** A sum of non-negative values bounds each of them. */
  lemma SumBoundsEach<K>(m: map<K, int>, k: K)
    requires k in m
    requires forall x | x in m :: m[x] >= 0
    ensures m[k] <= Sum(m)
  {
    SumRemove(m, k);
    SumNonNegative(m - {k});
  }

  /** Sums subtract key by key. */
  lemma {:induction false} SumDifference<K>(a: map<K, int>, b: map<K, int>, d: map<K, int>)
    requires a.Keys == b.Keys == d.Keys
    requires forall k | k in d :: d[k] == a[k] - b[k]
    ensures Sum(d) == Sum(a) - Sum(b)
    decreases |d|
  {
    if d == map[] {
      assert a == map[] && b == map[];
    } else {
      var k :| k in d;
      SumRemove(a, k);
      SumRemove(b, k);
      SumRemove(d, k);
      SumDifference(a - {k}, b - {k}, d - {k});
    }
  }

  /** All but one of the values being zero, the sum is the one. */
  lemma {:induction false} SumOfOne<K>(m: map<K, int>, k: K)
    requires k in m
    requires forall x | x in m && x != k :: m[x] == 0
    ensures Sum(m) == m[k]
    decreases |m|
  {
    SumRemove(m, k);
    if m - {k} != map[] {
      var x :| x in m - {k};
      SumOfOne(m - {k}, x);
    }
  }
}
