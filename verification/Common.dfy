/** Small shared vocabulary: options and sums over maps. */
module Common {

  datatype Option<+T> = None | Some(value: T)

  function Get<K, V>(m: map<K, V>, k: K): Option<V> {
    if k in m then Some(m[k]) else None
  }

  function Max(a: int, b: int): int {
    if a < b then b else a
  }

  function Min(a: int, b: int): int {
    if a < b then a else b
  }

  /** The sum of `f` over the values of `m`. */
  ghost function Sum<K(!new), V>(m: map<K, V>, f: V -> nat): nat
    decreases |m|
  {
    if m == map[] then 0
    else
      var k :| k in m;
      f(m[k]) + Sum(m - {k}, f)
  }

  /** The sum does not depend on the order in which keys are taken. */
  lemma {:induction false} SumTake<K(!new), V>(m: map<K, V>, f: V -> nat, k: K)
    requires k in m
    ensures Sum(m, f) == f(m[k]) + Sum(m - {k}, f)
    decreases |m|
  {
    var j :| j in m && Sum(m, f) == f(m[j]) + Sum(m - {j}, f);
    if j != k {
      assert m - {j} - {k} == m - {k} - {j};
      SumTake(m - {j}, f, k);
      SumTake(m - {k}, f, j);
    }
  }

  lemma SumEmpty<K(!new), V>(f: V -> nat)
    ensures Sum<K, V>(map[], f) == 0
  {
  }

  lemma SumPut<K(!new), V>(m: map<K, V>, f: V -> nat, k: K, v: V)
    ensures Sum(m[k := v], f) == f(v) + Sum(m - {k}, f)
  {
    SumTake(m[k := v], f, k);
    assert m[k := v] - {k} == m - {k};
  }
}
