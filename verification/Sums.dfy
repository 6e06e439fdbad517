/** Sums over the values of a finite map, used for ledgers and for counting work, and the size of sets. */
module Sums {

  /** The sum of all values of m. */
  ghost function Total<K(!new)>(m: map<K, int>): int
    decreases |m|
  {
    if m == map[] then 0
    else
      var k :| k in m;
      m[k] + Total(m - {k})
  }

  /** The value at k, with 0 for a missing key. */
  function At<K>(m: map<K, int>, k: K): int {
    if k in m then m[k] else 0
  }

  /** Which key is taken out first does not matter. */
  lemma {:induction false} TotalRemove<K(!new)>(m: map<K, int>, k: K)
    requires k in m
    ensures Total(m) == m[k] + Total(m - {k})
    decreases |m|
  {
    var j :| j in m && Total(m) == m[j] + Total(m - {j});
    if j != k {
      TotalRemove(m - {j}, k);
      TotalRemove(m - {k}, j);
      assert m - {j} - {k} == m - {k} - {j};
    }
  }

  lemma TotalUpdate<K(!new)>(m: map<K, int>, k: K, v: int)
    ensures Total(m[k := v]) == Total(m) - At(m, k) + v
  {
    TotalRemove(m[k := v], k);
    assert m[k := v] - {k} == m - {k};
    if k in m {
      TotalRemove(m, k);
    } else {
      assert m - {k} == m;
    }
  }

  lemma {:induction false} TotalBounded<K(!new)>(a: map<K, int>, b: map<K, int>, c: int)
    requires a.Keys == b.Keys
    requires forall k :: k in a ==> a[k] <= b[k] + c
    ensures Total(a) <= Total(b) + |a| * c
    decreases |a|
  {
    if a == map[] {
      assert b == map[];
    } else {
      var k :| k in a;
      var a', b' := a - {k}, b - {k};
      assert Total(a) == a[k] + Total(a') by { TotalRemove(a, k); }
      assert Total(b) == b[k] + Total(b') by { TotalRemove(b, k); }
      assert a'.Keys == a.Keys - {k} && b'.Keys == b.Keys - {k};
      TotalBounded(a', b', c);
      assert |a'| == |a| - 1;
      StepProduct(|a|, c);
    }
  }

  lemma StepProduct(n: int, c: int)
    ensures n * c == (n - 1) * c + c
  {
  }

  lemma {:induction false} TotalNonNegative<K(!new)>(m: map<K, int>)
    requires forall k :: k in m ==> m[k] >= 0
    ensures Total(m) >= 0
    ensures forall k :: k in m ==> m[k] <= Total(m)
    decreases |m|
  {
    forall k | k in m ensures 0 <= m[k] <= Total(m) {
      TotalRemove(m, k);
      TotalNonNegative(m - {k});
    }
  }

  /** Two sets that differ at most in x. */
  lemma Exchange<T>(a: set<T>, b: set<T>, x: T)
    requires a - {x} == b - {x}
    ensures |b| + (if x in a then 1 else 0) == |a| + if x in b then 1 else 0
  {
    assert x in a ==> |a| == |a - {x}| + 1;
    assert x in b ==> |b| == |b - {x}| + 1;
    assert x !in a ==> a - {x} == a;
    assert x !in b ==> b - {x} == b;
  }
}
