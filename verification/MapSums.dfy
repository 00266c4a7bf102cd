/** Sums over the values of a map, independent of any iteration order. */
module MapSums {
  import opened Candles

  ghost function SumOver<K>(m: map<K, int>): int {
    if m == map[] then 0
    else
      var k := Pick(m.Keys);
      m[k] + SumOver(m - {k})
  }

  /** Any key may be taken out first. */
  lemma {:induction false} SumWithout<K>(m: map<K, int>, k: K)
    requires k in m
    ensures SumOver(m) == m[k] + SumOver(m - {k})
    decreases |m|
  {
    var j := Pick(m.Keys);
    if j != k {
      SumWithout(m - {j}, k);
      SumWithout(m - {k}, j);
      assert m - {j} - {k} == m - {k} - {j};
    }
  }

  lemma SumUpdate<K>(m: map<K, int>, k: K, v: int)
    ensures SumOver(m[k := v]) == SumOver(m) - (if k in m then m[k] else 0) + v
  {
    var m' := m[k := v];
    SumWithout(m', k);
    assert m' - {k} == m - {k};
    if k in m {
      SumWithout(m, k);
    } else {
      assert m - {k} == m;
    }
  }

  /** The sum lies between |m| times a lower and |m| times an upper bound of the values. */
  lemma {:induction false} SumBounds<K>(m: map<K, int>, lo: int, hi: int)
    requires forall k :: k in m ==> lo <= m[k] <= hi
    ensures lo * |m| <= SumOver(m) <= hi * |m|
    decreases |m|
  {
    if m != map[] {
      var k := Pick(m.Keys);
      var rest := m - {k};
      assert m.Keys == rest.Keys + {k};
      SumBounds(rest, lo, hi);
      SumWithout(m, k);
      TimesNext(lo, |rest|);
      TimesNext(hi, |rest|);
    }
  }

  lemma TimesNext(x: int, n: int)
    ensures x * (n + 1) == x * n + x
  {
  }
}
