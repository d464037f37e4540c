/** Sums of the values of a finite map, independent of the order in which they are added. */
module MapSums {
  ghost function Sum<K>(m: map<K, nat>): nat {
    if m == map[] then 0
    else
      var k :| k in m;
      m[k] + Sum(m - {k})
  }

  /** Any key can be split off first. */
  lemma {:induction false} SumSplit<K>(m: map<K, nat>, k: K)
    requires k in m
    ensures Sum(m) == m[k] + Sum(m - {k})
    decreases |m|
  {
    var j :| j in m && Sum(m) == m[j] + Sum(m - {j});
    if j != k {
      SumSplit(m - {j}, k);
      SumSplit(m - {k}, j);
      assert m - {j} - {k} == m - {k} - {j};
    }
  }

  lemma SumUpdate<K>(m: map<K, nat>, k: K, v: nat)
    ensures Sum(m[k := v]) + (if k in m then m[k] else 0) == Sum(m) + v
  {
    SumSplit(m[k := v], k);
    assert m[k := v] - {k} == m - {k};
    if k in m {
      SumSplit(m, k);
    } else {
      assert m - {k} == m;
    }
  }

  lemma SumAtLeast<K>(m: map<K, nat>, k: K)
    requires k in m
    ensures m[k] <= Sum(m)
  {
    SumSplit(m, k);
  }

  lemma SumOfOne<K>(k: K, v: nat)
    ensures Sum(map[k := v]) == v
  {
    var none: map<K, nat> := map[];
    assert Sum(none) == 0;
    SumUpdate(none, k, v);
    assert none[k := v] == map[k := v];
  }

  lemma SumOfTwo<K>(m: map<K, nat>, j: K, v: nat, k: K, w: nat)
    requires j != k && m.Keys == {j, k} && m[j] == v && m[k] == w
    ensures Sum(m) == v + w
  {
    SumOfOne(j, v);
    var one := map[j := v];
    SumUpdate(one, k, w);
    assert m == one[k := w];
  }
}
