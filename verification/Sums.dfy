/** Sums of weights over finite sets of keys. */
module Sums {

  ghost function Sum<K>(weight: map<K, nat>, keys: set<K>): (total: nat)
    requires keys <= weight.Keys
  {
    if keys == {} then 0
    else
      var k :| k in keys;
      weight[k] + Sum(weight, keys - {k})
  }

  /** Any member can be taken out of the sum, not only the one the definition picks. */
  lemma {:induction false} SumTake<K>(weight: map<K, nat>, keys: set<K>, k: K)
    requires keys <= weight.Keys && k in keys
    ensures Sum(weight, keys) == weight[k] + Sum(weight, keys - {k})
    decreases |keys|
  {
    var p :| p in keys && Sum(weight, keys) == weight[p] + Sum(weight, keys - {p});
    if p != k {
      SumTake(weight, keys - {p}, k);
      SumTake(weight, keys - {k}, p);
      assert keys - {p} - {k} == keys - {k} - {p};
    }
  }

  lemma SumAdd<K>(weight: map<K, nat>, keys: set<K>, k: K)
    requires keys <= weight.Keys && k in weight && k !in keys
    ensures Sum(weight, keys + {k}) == Sum(weight, keys) + weight[k]
  {
    SumTake(weight, keys + {k}, k);
    assert keys + {k} - {k} == keys;
  }

  lemma {:induction false} SumMonotone<K>(weight: map<K, nat>, some: set<K>, all: set<K>)
    requires some <= all <= weight.Keys
    ensures Sum(weight, some) <= Sum(weight, all)
    decreases |all|
  {
    if some != all {
      var k :| k in all && k !in some;
      SumTake(weight, all, k);
      SumMonotone(weight, some, all - {k});
    }
  }

  /** Only the weights of the keys summed over matter. */
  lemma {:induction false} SumAgree<K>(weight: map<K, nat>, other: map<K, nat>, keys: set<K>)
    requires keys <= weight.Keys && keys <= other.Keys
    requires forall k :: k in keys ==> weight[k] == other[k]
    ensures Sum(weight, keys) == Sum(other, keys)
    decreases |keys|
  {
    if keys != {} {
      var k :| k in keys;
      SumTake(weight, keys, k);
      SumTake(other, keys, k);
      SumAgree(weight, other, keys - {k});
    }
  }
}
