/** Sums over the values of a finite map, independent of the order its keys are visited in. */
module MapSums {
  ghost function Sum(m: map<string, int>): int
    decreases |m|
  {
    if m == map[] then 0
    else
      var k :| k in m;
      assert (m - {k}).Keys == m.Keys - {k};
      m[k] + Sum(m - {k})
  }

  function Restrict(m: map<string, int>, keys: set<string>): map<string, int> {
    map k | k in m && k in keys :: m[k]
  }

  lemma {:induction false} SumRemove(m: map<string, int>, k: string)
    requires k in m
    ensures Sum(m) == m[k] + Sum(m - {k})
    decreases |m|
  {
    var first :| first in m && Sum(m) == m[first] + Sum(m - {first});
    if first != k {
      assert (m - {first}).Keys == m.Keys - {first};
      assert (m - {k}).Keys == m.Keys - {k};
      SumRemove(m - {first}, k);
      SumRemove(m - {k}, first);
      assert m - {first} - {k} == m - {k} - {first};
    }
  }

  lemma SumUpdate(m: map<string, int>, k: string, v: int)
    ensures Sum(m[k := v]) == Sum(m) - (if k in m then m[k] else 0) + v
  {
    SumRemove(m[k := v], k);
    if k in m {
      SumRemove(m, k);
      assert m[k := v] - {k} == m - {k};
    } else {
      assert m[k := v] - {k} == m;
    }
  }

  lemma {:induction false} SumNonNegative(m: map<string, int>)
    requires forall k :: k in m ==> m[k] >= 0
    ensures Sum(m) >= 0
    ensures forall k :: k in m ==> m[k] <= Sum(m)
    decreases |m|
  {
    if m != map[] {
      forall k | k in m ensures 0 <= m[k] <= Sum(m) {
        SumRemove(m, k);
        assert (m - {k}).Keys == m.Keys - {k};
        SumNonNegative(m - {k});
      }
    }
  }

  /** Dropping entries of value zero changes nothing. */
  lemma {:induction false} SumIgnoresZeros(m: map<string, int>, kept: map<string, int>)
    requires forall k :: k in kept ==> k in m && kept[k] == m[k]
    requires forall k :: k in m && k !in kept ==> m[k] == 0
    ensures Sum(kept) == Sum(m)
    decreases |m|
  {
    if k :| k in m && k !in kept {
      SumRemove(m, k);
      assert (m - {k}).Keys == m.Keys - {k};
      SumIgnoresZeros(m - {k}, kept);
    } else {
      assert kept == m;
    }
  }
}
