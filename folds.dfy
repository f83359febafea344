/** Folds over the values of a finite map, in no particular key order.
    The restaurant keeps its tables and servers in hash maps whose iteration
    order is unspecified; these folds give the order-independent totals
    (the sum of server table counts, the bag of waiting orders) that the
    facade's operations are specified against. */
module Folds {

  /** The sum of f over every value of m. */
  ghost function SumOf<K, V>(m: map<K, V>, f: V -> int): int
    decreases |m|
  {
    if m == map[] then 0
    else
      var k :| k in m;
      RemoveOneKey(m, k);
      f(m[k]) + SumOf(m - {k}, f)
  }

  /** The union of f over every value of m. */
  ghost function BagOf<K, V, E>(m: map<K, V>, f: V -> multiset<E>): multiset<E>
    decreases |m|
  {
    if m == map[] then multiset{}
    else
      var k :| k in m;
      RemoveOneKey(m, k);
      f(m[k]) + BagOf(m - {k}, f)
  }

  /** A map other than the empty one has a key to pick. */
  lemma SomeKey<K, V>(m: map<K, V>) returns (k: K)
    requires m != map[]
    ensures k in m
  {
    k :| k in m;
  }

  /** Removing a present key makes the map exactly one entry smaller. */
  lemma RemoveOneKey<K, V>(m: map<K, V>, k: K)
    requires k in m
    ensures (m - {k}).Keys == m.Keys - {k}
    ensures |m - {k}| == |m| - 1
  {
  }

  /** SumOf does not depend on which key the definition picks first. */
  lemma {:induction false} SumOfPick<K, V>(m: map<K, V>, f: V -> int, k: K)
    requires k in m
    ensures SumOf(m, f) == f(m[k]) + SumOf(m - {k}, f)
    decreases |m|
  {
    var j :| j in m && SumOf(m, f) == f(m[j]) + SumOf(m - {j}, f);
    if j != k {
      RemoveOneKey(m, j);
      RemoveOneKey(m, k);
      SumOfPick(m - {j}, f, k);
      SumOfPick(m - {k}, f, j);
      assert m - {j} - {k} == m - {k} - {j};
    }
  }

  /** BagOf does not depend on which key the definition picks first. */
  lemma {:induction false} BagOfPick<K, V, E>(m: map<K, V>, f: V -> multiset<E>, k: K)
    requires k in m
    ensures BagOf(m, f) == f(m[k]) + BagOf(m - {k}, f)
    decreases |m|
  {
    var j :| j in m && BagOf(m, f) == f(m[j]) + BagOf(m - {j}, f);
    if j != k {
      RemoveOneKey(m, j);
      RemoveOneKey(m, k);
      BagOfPick(m - {j}, f, k);
      BagOfPick(m - {k}, f, j);
      assert m - {j} - {k} == m - {k} - {j};
    }
  }

  /** Changing the value at one present key changes the sum by the difference. */
  lemma SumOfUpdate<K, V>(m: map<K, V>, f: V -> int, k: K, v: V)
    requires k in m
    ensures SumOf(m[k := v], f) == SumOf(m, f) - f(m[k]) + f(v)
  {
    SumOfPick(m, f, k);
    SumOfPick(m[k := v], f, k);
    assert m[k := v] - {k} == m - {k};
  }
}
