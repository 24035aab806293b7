/** Totals over the values of finite maps, and the choice of an element of a finite set. */
module MapSum {

  ghost function Any<K(!new)>(s: set<K>): (k: K)
    requires s != {}
    ensures k in s
  {
    var k :| k in s; k
  }

  lemma Shrinks<K(!new), V>(m: map<K, V>, k: K)
    requires k in m
    ensures |m - {k}| == |m| - 1 && m.Keys != {}
  {
    assert (m - {k}).Keys == m.Keys - {k};
  }

  /** The total weight of the values. */
  ghost function Total<K(!new), V(!new)>(m: map<K, V>, weight: V -> int): int
    decreases |m|
  {
    if |m| == 0 then 0
    else
      var k := Any(m.Keys);
      Shrinks(m, k);
      weight(m[k]) + Total(m - {k}, weight)
  }

  /** The choice of key does not matter. */
  lemma {:induction false} TotalRemove<K(!new), V(!new)>(m: map<K, V>, weight: V -> int, k: K)
    requires k in m
    ensures Total(m, weight) == weight(m[k]) + Total(m - {k}, weight)
    decreases |m|
  {
    Shrinks(m, k);
    var c := Any(m.Keys);
    if c != k {
      Shrinks(m, c);
      TotalRemove(m - {c}, weight, k);
      TotalRemove(m - {k}, weight, c);
      assert m - {c} - {k} == m - {k} - {c};
    }
  }

  lemma {:induction false} TotalUpdate<K(!new), V(!new)>(m: map<K, V>, weight: V -> int, k: K, v: V)
    ensures Total(m[k := v], weight) == Total(m, weight) - (if k in m then weight(m[k]) else 0) + weight(v)
  {
    hide Total;
    TotalRemove(m[k := v], weight, k);
    if k in m {
      TotalRemove(m, weight, k);
      assert m[k := v] - {k} == m - {k};
    } else {
      assert m[k := v] - {k} == m;
    }
  }

  lemma Distribute(a: int, n: int, n': int)
    requires n' == n + 1
    ensures a * n' == a * n + a
  {
  }

  lemma {:induction false} TotalAtLeast<K(!new), V(!new)>(m: map<K, V>, weight: V -> int, low: int)
    requires forall k :: k in m ==> low <= weight(m[k])
    ensures low * |m| <= Total(m, weight)
    decreases |m|
  {
    if |m| != 0 {
      var k := Any(m.Keys);
      Shrinks(m, k);
      TotalAtLeast(m - {k}, weight, low);
      Distribute(low, |m - {k}|, |m|);
    }
  }

  lemma {:induction false} TotalMonotone<K(!new), V(!new)>(m: map<K, V>, small: V -> int, large: V -> int)
    requires forall k :: k in m ==> small(m[k]) <= large(m[k])
    ensures Total(m, small) <= Total(m, large)
    decreases |m|
  {
    if |m| != 0 {
      var k := Any(m.Keys);
      Shrinks(m, k);
      TotalMonotone(m - {k}, small, large);
    }
  }

  lemma SameMembers<T(!new)>(a: set<T>, b: set<T>)
    requires forall x :: x in a <==> x in b
    ensures a == b
  {
  }

  /** Any element of a non-empty set. */
  method Pick<T>(s: set<T>) returns (x: T)
    requires s != {}
    ensures x in s
  {
    x :| x in s;
  }
}
