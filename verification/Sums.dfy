/** Sums of the values of a map. */
module Sums {
  ghost function SumOver<K>(m: map<K, nat>, ks: set<K>): nat
    requires ks <= m.Keys
  {
    if ks == {} then 0 else var k :| k in ks; m[k] + SumOver(m, ks - {k})
  }

  ghost function Sum<K>(m: map<K, nat>): nat {
    SumOver(m, m.Keys)
  }

  lemma {:induction false} SumPick<K>(m: map<K, nat>, ks: set<K>, k: K)
    requires ks <= m.Keys && k in ks
    ensures SumOver(m, ks) == m[k] + SumOver(m, ks - {k})
    decreases |ks|
  {
    var j :| j in ks && SumOver(m, ks) == m[j] + SumOver(m, ks - {j});
    if j != k {
      SumPick(m, ks - {j}, k);
      SumPick(m, ks - {k}, j);
      assert ks - {j} - {k} == ks - {k} - {j};
    }
  }

  lemma {:induction false} SumSame<K>(m: map<K, nat>, m': map<K, nat>, ks: set<K>)
    requires ks <= m.Keys && ks <= m'.Keys && forall k :: k in ks ==> m[k] == m'[k]
    ensures SumOver(m, ks) == SumOver(m', ks)
    decreases |ks|
  {
    if ks != {} {
      var k :| k in ks;
      SumPick(m, ks, k);
      SumPick(m', ks, k);
      SumSame(m, m', ks - {k});
    }
  }

  /** Setting one entry changes the sum by the difference. */
  lemma SumSet<K>(m: map<K, nat>, k: K, n: nat)
    ensures Sum(m[k := n]) == Sum(m) - (if k in m then m[k] else 0) + n
  {
    var m' := m[k := n];
    SumPick(m', m'.Keys, k);
    SumSame(m, m', m'.Keys - {k});
    if k in m {
      SumPick(m, m.Keys, k);
      assert m'.Keys == m.Keys;
    } else {
      assert m'.Keys - {k} == m.Keys;
    }
  }
}
