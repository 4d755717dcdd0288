/** Sums over the values of a finite map; the order of summation is immaterial. */
module MapSums {
  ghost function Sum<K(!new)>(m: map<K, nat>): nat {
    if m == map[] then 0
    else
      var k :| k in m;
      m[k] + Sum(m - {k})
  }

  lemma {:induction false} SumRemove<K(!new)>(m: map<K, nat>, k: K)
    requires k in m
    ensures Sum(m) == m[k] + Sum(m - {k})
    decreases |m|
  {
    var j :| j in m && Sum(m) == m[j] + Sum(m - {j});
    if j != k {
      SumRemove(m - {j}, k);
      SumRemove(m - {k}, j);
      assert m - {j} - {k} == m - {k} - {j};
    }
  }

  /** Changing or adding one entry changes the sum by the change of that entry. */
  lemma SumUpdate<K(!new)>(m: map<K, nat>, k: K, v: nat)
    ensures Sum(m[k := v]) == Sum(m) + v - (if k in m then m[k] else 0)
  {
    var m' := m[k := v];
    SumRemove(m', k);
    assert m' - {k} == m - {k};
    if k in m {
      SumRemove(m, k);
    } else {
      assert m - {k} == m;
    }
  }

  lemma SumAtLeastEntry<K(!new)>(m: map<K, nat>, k: K)
    requires k in m
    ensures m[k] <= Sum(m)
  {
    SumRemove(m, k);
  }

  lemma {:induction false} SumZero<K(!new)>(m: map<K, nat>)
    requires forall k :: k in m ==> m[k] == 0
    ensures Sum(m) == 0
    decreases |m|
  {
    if m != map[] {
      var k :| k in m;
      SumRemove(m, k);
      SumZero(m - {k});
    }
  }

  lemma SumAtLeastTwo<K(!new)>(m: map<K, nat>, j: K, k: K)
    requires j in m && k in m && j != k
    ensures m[j] + m[k] <= Sum(m)
  {
    SumRemove(m, j);
    SumRemove(m - {j}, k);
  }

  lemma OneMore(n: nat, bound: nat)
    ensures (n + 1) * bound == n * bound + bound
  {
  }

  lemma {:induction false} SumAtMostEach<K(!new)>(m: map<K, nat>, bound: nat)
    requires forall k :: k in m ==> m[k] <= bound
    ensures Sum(m) <= |m| * bound
    decreases |m|
  {
    if m != map[] {
      var k :| k in m;
      SumRemove(m, k);
      SumAtMostEach(m - {k}, bound);
      assert |m - {k}| == |m| - 1 by { assert (m - {k}).Keys == m.Keys - {k}; }
      OneMore(|m - {k}|, bound);
    }
  }

  /** A map dominated entry by entry has the smaller sum. */
  lemma {:induction false} SumDominated<K(!new)>(m: map<K, nat>, n: map<K, nat>)
    requires m.Keys == n.Keys
    requires forall k :: k in m ==> m[k] <= n[k]
    ensures Sum(m) <= Sum(n)
    decreases |m|
  {
    if m == map[] {
      assert n == map[];
    } else {
      var k :| k in m;
      SumRemove(m, k);
      SumRemove(n, k);
      SumDominated(m - {k}, n - {k});
    }
  }

  lemma {:induction false} SumOfSums<K(!new)>(l: map<K, nat>, m: map<K, nat>, n: map<K, nat>)
    requires l.Keys == m.Keys == n.Keys
    requires forall k :: k in l ==> l[k] == m[k] + n[k]
    ensures Sum(l) == Sum(m) + Sum(n)
    decreases |l|
  {
    if l == map[] {
      assert m == map[] && n == map[];
    } else {
      var k :| k in l;
      SumRemove(l, k);
      SumRemove(m, k);
      SumRemove(n, k);
      SumOfSums(l - {k}, m - {k}, n - {k});
    }
  }

  /** Extra entries that are zero do not change a sum. */
  lemma {:induction false} SumWithZeros<K(!new)>(m: map<K, nat>, n: map<K, nat>)
    requires m.Keys <= n.Keys
    requires forall k :: k in n ==> n[k] == if k in m then m[k] else 0
    ensures Sum(n) == Sum(m)
    decreases |n|
  {
    if n == map[] {
      assert m == map[];
    } else {
      var k :| k in n;
      SumRemove(n, k);
      SumWithZeros(m - {k}, n - {k});
      if k in m {
        SumRemove(m, k);
      } else {
        assert m - {k} == m;
      }
    }
  }
}
