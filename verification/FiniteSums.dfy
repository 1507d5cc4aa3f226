/** Sums of a finite map's values over a set of its keys, whatever the order of addition. */
module FiniteSums {

  ghost function Sum<K(!new)>(f: map<K, int>, keys: set<K>): (sum: int)
    requires keys <= f.Keys
  {
    if keys == {} then 0
    else
      var k :| k in keys;
      f[k] + Sum(f, keys - {k})
  }

  lemma {:induction false} SumRemove<K(!new)>(f: map<K, int>, keys: set<K>, k: K)
    requires keys <= f.Keys && k in keys
    ensures Sum(f, keys) == f[k] + Sum(f, keys - {k})
    decreases keys
  {
    var y :| y in keys && Sum(f, keys) == f[y] + Sum(f, keys - {y});
    if y != k {
      SumRemove(f, keys - {y}, k);
      SumRemove(f, keys - {k}, y);
      assert keys - {y} - {k} == keys - {k} - {y};
    }
  }

  lemma {:induction false} SumAgree<K(!new)>(f: map<K, int>, g: map<K, int>, keys: set<K>)
    requires keys <= f.Keys && keys <= g.Keys
    requires forall k :: k in keys ==> f[k] == g[k]
    ensures Sum(f, keys) == Sum(g, keys)
    decreases keys
  {
    if keys != {} {
      var k :| k in keys;
      SumRemove(f, keys, k);
      SumRemove(g, keys, k);
      SumAgree(f, g, keys - {k});
    }
  }

  /** Changing one value changes the sum by as much. */
  lemma SumUpdate<K(!new)>(f: map<K, int>, keys: set<K>, k: K, v: int)
    requires keys <= f.Keys && k in keys
    ensures Sum(f[k := v], keys) == Sum(f, keys) + v - f[k]
  {
    SumRemove(f, keys, k);
    SumRemove(f[k := v], keys, k);
    SumAgree(f, f[k := v], keys - {k});
  }

  lemma {:induction false} SumMonotone<K(!new)>(f: map<K, int>, g: map<K, int>, keys: set<K>)
    requires keys <= f.Keys && keys <= g.Keys
    requires forall k :: k in keys ==> f[k] <= g[k]
    ensures Sum(f, keys) <= Sum(g, keys)
    decreases keys
  {
    if keys != {} {
      var k :| k in keys;
      SumRemove(f, keys, k);
      SumRemove(g, keys, k);
      SumMonotone(f, g, keys - {k});
    }
  }

  lemma {:induction false} SumNonNegative<K(!new)>(f: map<K, int>, keys: set<K>)
    requires keys <= f.Keys && forall k :: k in keys ==> 0 <= f[k]
    ensures 0 <= Sum(f, keys)
    decreases keys
  {
    if keys != {} {
      var k :| k in keys;
      SumRemove(f, keys, k);
      SumNonNegative(f, keys - {k});
    }
  }
}
