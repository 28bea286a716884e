/** The sum of the values of a finite map, and how one update changes it. */
module MapSum {

  ghost function Sum<K>(m: map<K, int>): int
    decreases |m|
  {
    if m == map[] then 0
    else
      var k :| k in m;
      m[k] + Sum(m - {k})
  }

  lemma {:induction false} SumRemove<K>(m: map<K, int>, k: K)
    requires k in m
    ensures Sum(m) == m[k] + Sum(m - {k})
    decreases |m|
  {
    var p :| p in m && Sum(m) == m[p] + Sum(m - {p});
    if p != k {
      SumRemove(m - {p}, k);
      SumRemove(m - {k}, p);
      assert m - {p} - {k} == m - {k} - {p};
    }
  }

  lemma {:induction false} SumUpdate<K>(m: map<K, int>, k: K, v: int)
    ensures Sum(m[k := v]) == Sum(m) - (if k in m then m[k] else 0) + v
  {
    SumRemove(m[k := v], k);
    if k in m {
      SumRemove(m, k);
      assert m[k := v] - {k} == m - {k};
    } else {
      assert m[k := v] - {k} == m;
    }
  }

  lemma {:induction false} SumNonNegative<K>(m: map<K, int>)
    requires forall k | k in m :: m[k] >= 0
    ensures Sum(m) >= 0
    decreases |m|
  {
    if m != map[] {
      var k :| k in m && Sum(m) == m[k] + Sum(m - {k});
      SumNonNegative(m - {k});
    }
  }

  /** Two different keys of a non-negative map never hold more than its sum. */
  lemma {:induction false} SumBoundsTwo<K>(m: map<K, int>, a: K, b: K)
    requires forall k | k in m :: m[k] >= 0
    requires a != b
    ensures (if a in m then m[a] else 0) + (if b in m then m[b] else 0) <= Sum(m)
  {
    var rest := m - {a};
    if a in m {
      SumRemove(m, a);
    } else {
      assert rest == m;
    }
    if b in rest {
      SumRemove(rest, b);
    }
    SumNonNegative(rest - {b});
    SumNonNegative(rest);
  }
}
