/**
 * Sums over the values of a finite map: with one key taken apart, with one key added, and of a part
 * compared with the whole.
 */
module Sums {

  ghost function Total<K>(m: map<K, nat>): nat {
    if m == map[] then 0
    else
      var k :| k in m;
      m[k] + Total(m - {k})
  }

  lemma {:induction false} TotalSplits<K>(m: map<K, nat>, k: K)
    requires k in m
    ensures Total(m) == m[k] + Total(m - {k})
  {
    var j :| j in m && Total(m) == m[j] + Total(m - {j});
    if j != k {
      TotalSplits(m - {j}, k);
      TotalSplits(m - {k}, j);
      assert m - {j} - {k} == m - {k} - {j};
    }
  }

  lemma TotalGrows<K>(m: map<K, nat>, k: K, n: nat)
    requires k !in m
    ensures Total(m[k := n]) == Total(m) + n
  {
    TotalSplits(m[k := n], k);
    assert m[k := n] - {k} == m;
  }

  lemma {:induction false} TotalOfPart<K>(part: map<K, nat>, whole: map<K, nat>)
    requires forall k | k in part :: k in whole && whole[k] == part[k]
    ensures Total(part) <= Total(whole)
  {
    if part != map[] {
      var k :| k in part;
      TotalSplits(part, k);
      TotalSplits(whole, k);
      TotalOfPart(part - {k}, whole - {k});
    }
  }
}
