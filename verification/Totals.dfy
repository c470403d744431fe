/** Sums of one integer measure over the values of a finite map. */
module Totals {

  ghost function Total<K, V>(m: map<K, V>, f: V -> int): int
    decreases |m|
  {
    if m == map[] then 0 else
      var k :| k in m;
      f(m[k]) + Total(m - {k}, f)
  }

  /** The sum does not depend on the order in which keys are taken. */
  lemma {:induction false} TotalTakeOut<K, V>(m: map<K, V>, k: K, f: V -> int)
    requires k in m
    ensures Total(m, f) == f(m[k]) + Total(m - {k}, f)
    decreases |m|
  {
    var j :| j in m && Total(m, f) == f(m[j]) + Total(m - {j}, f);
    if j != k {
      TotalTakeOut(m - {j}, k, f);
      TotalTakeOut(m - {k}, j, f);
      assert m - {j} - {k} == m - {k} - {j};
    }
  }

  lemma TotalUpdate<K, V>(m: map<K, V>, k: K, v: V, f: V -> int)
    ensures Total(m[k := v], f) == Total(m, f) - (if k in m then f(m[k]) else 0) + f(v)
  {
    TotalTakeOut(m[k := v], k, f);
    if k in m {
      TotalTakeOut(m, k, f);
      assert m[k := v] - {k} == m - {k};
    } else {
      assert m[k := v] - {k} == m;
    }
  }
}
