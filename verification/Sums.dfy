/** Sums over the rows of a finite map. */
module Sums {
  import opened Collections

  ghost function Sum<V(!new)>(m: map<nat, V>, weight: V -> int): int
    decreases |m|
  {
    if m == map[] then 0 else
      var k := SomeKey(m);
      Smaller(m, k);
      weight(m[k]) + Sum(m - {k}, weight)
  }

  ghost function SomeKey<V(!new)>(m: map<nat, V>): (k: nat)
    requires m != map[]
    ensures k in m
  {
    HasKey(m);
    var k :| k in m;
    k
  }

  lemma HasKey<V(!new)>(m: map<nat, V>)
    requires m != map[]
    ensures exists k :: k in m
  {
    if forall k :: k !in m {
      assert false;
    }
  }

  /** The sum does not depend on the order of summation: any row may be taken out first. */
  lemma {:induction false} SumWithout<V(!new)>(m: map<nat, V>, weight: V -> int, k: nat)
    requires k in m
    ensures Sum(m, weight) == weight(m[k]) + Sum(m - {k}, weight)
    decreases |m|
  {
    var j := SomeKey(m);
    Smaller(m, j);
    if j != k {
      Smaller(m, k);
      SumWithout(m - {j}, weight, k);
      SumWithout(m - {k}, weight, j);
      assert m - {j} - {k} == m - {k} - {j};
    }
  }

  /** Storing a row, over an old one or not. */
  lemma SumPut<V(!new)>(m: map<nat, V>, weight: V -> int, k: nat, v: V)
    ensures Sum(m[k := v], weight) == Sum(m, weight) + weight(v) - if k in m then weight(m[k]) else 0
  {
    SumWithout(m[k := v], weight, k);
    assert m[k := v] - {k} == m - {k};
    if k in m {
      SumWithout(m, weight, k);
    } else {
      assert m - {k} == m;
    }
  }

  lemma {:induction false} SumNonNegative<V(!new)>(m: map<nat, V>, weight: V -> int)
    requires forall k :: k in m ==> weight(m[k]) >= 0
    ensures Sum(m, weight) >= 0
    decreases |m|
  {
    if m != map[] {
      var k := SomeKey(m);
      Smaller(m, k);
      SumNonNegative(m - {k}, weight);
    }
  }
}
