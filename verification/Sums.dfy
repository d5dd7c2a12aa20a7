/** Sums of natural numbers over the entries of a finite map. */
module Sums {
  import opened Arithmetic

  ghost function Sum<T(!new)>(m: map<T, nat>): nat
    decreases |m|
  {
    if m == map[] then 0
    else
      var k :| k in m;
      m[k] + Sum(m - {k})
  }

  lemma {:induction false} SumRemove<T(!new)>(m: map<T, nat>, k: T)
    requires k in m
    ensures Sum(m) == m[k] + Sum(m - {k})
    decreases |m|
  {
    var j :| j in m && Sum(m) == m[j] + Sum(m - {j});
    if j != k {
      SumRemove(m - {j}, k);
      SumRemove(m - {k}, j);
      assert m - {j} - {k} == m - {k} - {j};
    }
  }

  lemma {:induction false} SumUpdate<T(!new)>(m: map<T, nat>, k: T, v: nat)
    ensures Sum(m[k := v]) == Sum(m - {k}) + v
    ensures k in m ==> Sum(m[k := v]) == Sum(m) - m[k] + v
    ensures k !in m ==> Sum(m[k := v]) == Sum(m) + v
  {
    SumRemove(m[k := v], k);
    assert m[k := v] - {k} == m - {k};
    if k in m { SumRemove(m, k); } else { assert m - {k} == m; }
  }

  lemma {:induction false} SumBounded<T(!new)>(m: map<T, nat>, m': map<T, nat>, slack: nat)
    requires m.Keys == m'.Keys
    requires forall k | k in m :: m[k] <= m'[k] + slack
    ensures Sum(m) <= Sum(m') + |m| * slack
    decreases |m|
  {
    if m == map[] {
      assert m' == map[];
    } else {
      hide Sum;
      var k :| k in m;
      SumRemove(m, k);
      SumRemove(m', k);
      SumBounded(m - {k}, m' - {k}, slack);
      MulSucc(|m| - 1, slack);
    }
  }

  lemma {:induction false} SumEmpty<T(!new)>()
    ensures Sum<T>(map[]) == 0
  {}
}
