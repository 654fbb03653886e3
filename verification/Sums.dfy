/** Totals over finite maps that do not depend on the order of visiting: a loop over a Go map, or SUM in SQL. */
module Sums {

  ghost function Total<K(!new), V>(m: map<K, V>, weight: V -> real): real
    decreases |m|
  {
    if m == map[] then 0.0
    else
      var k :| k in m;
      Smaller(m, k);
      weight(m[k]) + Total(m - {k}, weight)
  }

  lemma Smaller<K, V>(m: map<K, V>, k: K)
    requires k in m
    ensures |m - {k}| < |m|
  {
    assert (m - {k}).Keys == m.Keys - {k};
    assert |(m - {k}).Keys| == |m - {k}| && |m.Keys| == |m|;
  }

  /** Any key may be taken out first. */
  lemma {:induction false} TotalRemove<K(!new), V>(m: map<K, V>, weight: V -> real, k: K)
    requires k in m
    ensures Total(m, weight) == weight(m[k]) + Total(m - {k}, weight)
    decreases |m|
  {
    var first :| first in m && Total(m, weight) == weight(m[first]) + Total(m - {first}, weight);
    if first != k {
      Smaller(m, first);
      Smaller(m, k);
      TotalRemove(m - {first}, weight, k);
      TotalRemove(m - {k}, weight, first);
      assert m - {first} - {k} == m - {k} - {first};
    }
  }

  /** Setting a key replaces its share. */
  lemma TotalPut<K(!new), V>(m: map<K, V>, weight: V -> real, k: K, v: V)
    ensures Total(m[k := v], weight)
         == Total(m, weight) - (if k in m then weight(m[k]) else 0.0) + weight(v)
  {
    TotalRemove(m[k := v], weight, k);
    assert m[k := v] - {k} == m - {k};
    if k in m {
      TotalRemove(m, weight, k);
    } else {
      assert m - {k} == m;
    }
  }

  /** Totals of non-negative shares are not negative. */
  lemma {:induction false} TotalNonNegative<K(!new), V>(m: map<K, V>, weight: V -> real)
    requires forall k | k in m :: weight(m[k]) >= 0.0
    ensures Total(m, weight) >= 0.0
    decreases |m|
  {
    if m != map[] {
      var k :| k in m;
      Smaller(m, k);
      TotalRemove(m, weight, k);
      TotalNonNegative(m - {k}, weight);
    }
  }

  lemma {:induction false} TotalZero<K(!new), V>(m: map<K, V>, weight: V -> real)
    requires forall k | k in m :: weight(m[k]) == 0.0
    ensures Total(m, weight) == 0.0
    decreases |m|
  {
    if m != map[] {
      var k :| k in m;
      Smaller(m, k);
      TotalRemove(m, weight, k);
      TotalZero(m - {k}, weight);
    }
  }
}
