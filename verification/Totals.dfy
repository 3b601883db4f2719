/** Sums over maps, for the size counters that the source keeps incrementally. */
module Totals {
  /** The sum of a map's values. */
  ghost function Total<K(!new)>(m: map<K, nat>): nat {
    if m == map[] then 0 else
    var k :| k in m;
    m[k] + Total(m - {k})
  }

  lemma {:induction false} TotalWithout<K(!new)>(m: map<K, nat>, k: K)
    requires k in m
    ensures Total(m) == m[k] + Total(m - {k})
    decreases |m|
  {
    var j :| j in m && Total(m) == m[j] + Total(m - {j});
    if j != k {
      TotalWithout(m - {j}, k);
      TotalWithout(m - {k}, j);
      assert m - {j} - {k} == m - {k} - {j};
    }
  }

  lemma TotalPut<K(!new)>(m: map<K, nat>, k: K, n: nat)
    ensures Total(m[k := n]) == n + (if k in m then Total(m) - m[k] else Total(m))
  {
    var m' := m[k := n];
    TotalWithout(m', k);
    if k in m {
      TotalWithout(m, k);
      assert m' - {k} == m - {k};
    } else {
      assert m' - {k} == m;
    }
  }
}
