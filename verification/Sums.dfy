/** Sums over finite maps, independent of the order in which the entries are visited. */
module Sums {

  ghost function Sum<K>(m: map<K, int>): int
    decreases m.Keys
  {
    if m == map[] then 0
    else
      var k :| k in m;
      assert (m - {k}).Keys == m.Keys - {k};
      m[k] + Sum(m - {k})
  }

  /** The entry that is visited first does not matter. */
  lemma {:induction false} SumRemove<K>(m: map<K, int>, k: K)
    requires k in m
    ensures Sum(m) == m[k] + Sum(m - {k})
    decreases m.Keys
  {
    var first :| first in m && Sum(m) == m[first] + Sum(m - {first});
    if first != k {
      assert (m - {first}).Keys == m.Keys - {first};
      assert (m - {k}).Keys == m.Keys - {k};
      SumRemove(m - {first}, k);
      SumRemove(m - {k}, first);
      assert m - {first} - {k} == m - {k} - {first};
    }
  }

  lemma SumPut<K>(m: map<K, int>, k: K, v: int)
    ensures Sum(m[k := v]) == Sum(m - {k}) + v
  {
    SumRemove(m[k := v], k);
    assert m[k := v] - {k} == m - {k};
  }

  lemma {:induction false} SumNonNegative<K>(m: map<K, int>)
    requires forall k :: k in m ==> m[k] >= 0
    ensures Sum(m) >= 0
    ensures forall k :: k in m ==> m[k] <= Sum(m)
    decreases m.Keys
  {
    forall k | k in m
      ensures 0 <= m[k] <= Sum(m)
    {
      assert (m - {k}).Keys == m.Keys - {k};
      SumRemove(m, k);
      SumNonNegative(m - {k});
    }
    if m != map[] {
      var k :| k in m;
      assert 0 <= m[k] <= Sum(m);
    }
  }

  /** Summing two maps entry by entry. */
  lemma {:induction false} SumSplit<K>(m: map<K, int>, m1: map<K, int>, m2: map<K, int>)
    requires m.Keys == m1.Keys == m2.Keys
    requires forall k :: k in m ==> m[k] == m1[k] + m2[k]
    ensures Sum(m) == Sum(m1) + Sum(m2)
    decreases m.Keys
  {
    if m == map[] {
      assert m1 == map[] && m2 == map[];
    } else {
      var k :| k in m;
      assert (m - {k}).Keys == m.Keys - {k};
      SumRemove(m, k);
      SumRemove(m1, k);
      SumRemove(m2, k);
      SumSplit(m - {k}, m1 - {k}, m2 - {k});
    }
  }

  /** A sum of entries that are all at least `low`. */
  lemma {:induction false} SumAtLeast<K>(m: map<K, int>, low: int)
    requires forall k :: k in m ==> m[k] >= low
    ensures Sum(m) >= low * |m|
    decreases m.Keys
  {
    if m == map[] {
      assert Sum(m) == 0;
    } else {
      hide Sum;
      var k :| k in m;
      var rest := m - {k};
      assert rest.Keys == m.Keys - {k};
      SumRemove(m, k);
      SumAtLeast(rest, low);
      assert |m.Keys| == |rest.Keys| + 1;
      OneMore(low, |rest|);
    }
  }

  lemma OneMore(low: int, n: nat)
    ensures low * (n + 1) == low * n + low
  {
  }

  // -- Division ------------------------------------------------------------------------------------------

  lemma Quotient(k: nat, n: nat)
    requires n > 0
    ensures 0 / n == 0 && 0 % n == 0
    ensures (k + 1) / n == k / n + (if k % n == n - 1 then 1 else 0)
    ensures (k + 1) % n == if k % n == n - 1 then 0 else k % n + 1
  {
    var q, r := k / n, k % n;
    assert k == q * n + r;
    if r == n - 1 {
      assert k + 1 == (q + 1) * n;
      DivideExact(q + 1, n, 0);
    } else {
      DivideExact(q, n, r + 1);
    }
  }

  lemma DivideExact(q: nat, n: nat, r: nat)
    requires n > 0 && r < n
    ensures (q * n + r) / n == q && (q * n + r) % n == r
  {
    var x := q * n + r;
    assert x == (x / n) * n + x % n;
    var d := x / n - q;
    assert d * n == r - x % n;
    MultipleSign(d, n);
  }

  lemma MultipleSign(d: int, n: nat)
    ensures d >= 1 ==> d * n >= n
    ensures d <= -1 ==> d * n <= -(n as int)
  {
  }
}
