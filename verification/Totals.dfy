/** Sums over the values of a map. */
module Totals {

  ghost function Total<K>(m: map<K, nat>): nat
    decreases |m|
  {
    if m == map[] then 0
    else
      var k :| k in m;
      m[k] + Total(m - {k})
  }

  lemma {:induction false} TotalRemove<K>(m: map<K, nat>, k: K)
    requires k in m
    ensures Total(m) == m[k] + Total(m - {k})
    decreases |m|
  {
    var first :| first in m && Total(m) == m[first] + Total(m - {first});
    if first != k {
      TotalRemove(m - {first}, k);
      TotalRemove(m - {k}, first);
      assert m - {first} - {k} == m - {k} - {first};
    }
  }

  lemma TotalUpdate<K>(m: map<K, nat>, k: K, v: nat)
    ensures Total(m[k := v]) == Total(m - {k}) + v
    ensures k !in m ==> m - {k} == m
  {
    TotalRemove(m[k := v], k);
    assert m[k := v] - {k} == m - {k};
    if k !in m {
      assert m - {k} == m;
    }
  }

  /** Splitting a map into a part and the rest splits its total. */
  lemma {:induction false} TotalSplit<K>(m: map<K, nat>, part: set<K>)
    ensures Total(m) == Total(m - part) + Total(map k | k in m && k in part :: m[k])
    decreases |part|
  {
    var kept := map k | k in m && k in part :: m[k];
    if part == {} {
      assert m - part == m;
      assert kept == map[];
    } else {
      var k :| k in part;
      TotalSplit(m, part - {k});
      var smaller := map j | j in m && j in part - {k} :: m[j];
      assert m - (part - {k}) - {k} == m - part;
      assert kept - {k} == smaller;
      if k in m {
        TotalRemove(m - (part - {k}), k);
        TotalRemove(kept, k);
      } else {
        assert m - (part - {k}) == m - part;
        assert kept == smaller;
      }
    }
  }
}
