/** Sums over the values of a map, in whatever order an accumulator loop visits them. */
module MapSums {

  ghost function MapSum<K, V>(m: map<K, V>, g: V -> real): real
  {
    if m == map[] then 0.0
    else
      var k :| k in m;
      g(m[k]) + MapSum(m - {k}, g)
  }

  /** Any key may be summed first. */
  lemma {:induction false} MapSumTake<K, V>(m: map<K, V>, g: V -> real, k: K)
    requires k in m
    ensures MapSum(m, g) == g(m[k]) + MapSum(m - {k}, g)
  {
    var first :| first in m && MapSum(m, g) == g(m[first]) + MapSum(m - {first}, g);
    if first != k {
      MapSumTake(m - {first}, g, k);
      MapSumTake(m - {k}, g, first);
      assert m - {first} - {k} == m - {k} - {first};
    }
  }

  lemma MapSumPut<K, V>(m: map<K, V>, g: V -> real, k: K, v: V)
    ensures MapSum(m[k := v], g) == g(v) + MapSum(m - {k}, g)
  {
    MapSumTake(m[k := v], g, k);
    assert m[k := v] - {k} == m - {k};
  }

  /** Dropping entries that count zero keeps the sum. */
  lemma {:induction false} MapSumDrop<K, V>(m: map<K, V>, g: V -> real, gone: set<K>)
    requires forall k :: k in gone && k in m ==> g(m[k]) == 0.0
    ensures MapSum(m - gone, g) == MapSum(m, g)
  {
    if k :| k in m && k in gone {
      MapSumTake(m, g, k);
      MapSumDrop(m - {k}, g, gone);
      assert m - {k} - gone == m - gone;
    } else {
      assert m - gone == m;
    }
  }

  /** Values that count alike sum alike. */
  lemma {:induction false} MapSumCongruent<K, V, W>(m: map<K, V>, g: V -> real, m': map<K, W>, g': W -> real)
    requires m.Keys == m'.Keys
    requires forall k :: k in m ==> g(m[k]) == g'(m'[k])
    ensures MapSum(m, g) == MapSum(m', g')
  {
    if m != map[] {
      var k :| k in m;
      MapSumTake(m, g, k);
      MapSumTake(m', g', k);
      MapSumCongruent(m - {k}, g, m' - {k}, g');
    } else {
      assert m' == map[];
    }
  }

  lemma {:induction false} MapSumAtMost<K, V, W>(m: map<K, V>, g: V -> real, m': map<K, W>, g': W -> real)
    requires m.Keys <= m'.Keys
    requires forall k :: k in m ==> g(m[k]) <= g'(m'[k])
    requires forall k :: k in m' ==> 0.0 <= g'(m'[k])
    ensures MapSum(m, g) <= MapSum(m', g')
  {
    if m != map[] {
      var k :| k in m;
      MapSumTake(m, g, k);
      MapSumTake(m', g', k);
      MapSumAtMost(m - {k}, g, m' - {k}, g');
    } else {
      MapSumNonNegative(m', g');
    }
  }

  lemma {:induction false} MapSumNonNegative<K, V>(m: map<K, V>, g: V -> real)
    requires forall k :: k in m ==> 0.0 <= g(m[k])
    ensures 0.0 <= MapSum(m, g)
  {
    if m != map[] {
      var k :| k in m;
      MapSumTake(m, g, k);
      MapSumNonNegative(m - {k}, g);
    }
  }

  /** The sum of a combination is the combination of the sums. */
  lemma {:induction false} MapSumAdds<K, V>(m: map<K, V>, f: V -> real, g: V -> real, h: V -> real)
    requires forall k :: k in m ==> h(m[k]) == f(m[k]) + g(m[k])
    ensures MapSum(m, h) == MapSum(m, f) + MapSum(m, g)
  {
    if m != map[] {
      var k :| k in m;
      MapSumTake(m, f, k);
      MapSumTake(m, g, k);
      MapSumTake(m, h, k);
      MapSumAdds(m - {k}, f, g, h);
    }
  }
}
