/** Sums over finite maps, the common ground of stake weights and account balances. */
module Sums {

  /** The sum of all values of `m`. */
  ghost function Sum<K>(m: map<K, int>): int
    decreases |m|
  {
    if m == map[] then 0
    else
      var k :| k in m;
      assert (m - {k}).Keys == m.Keys - {k};
      m[k] + Sum(m - {k})
  }

  /** The sum does not depend on the order in which keys are taken out. */
  lemma {:induction false} SumWithout<K>(m: map<K, int>, k: K)
    requires k in m
    ensures Sum(m) == m[k] + Sum(m - {k})
    decreases |m|
  {
    var c :| c in m && Sum(m) == m[c] + Sum(m - {c});
    if c != k {
      assert (m - {c}).Keys == m.Keys - {c} && (m - {k}).Keys == m.Keys - {k};
      SumWithout(m - {c}, k);
      SumWithout(m - {k}, c);
      assert m - {c} - {k} == m - {k} - {c};
    }
  }

  /** Writing `v` under `k` changes the sum by `v` minus whatever `k` held before. */
  lemma SumUpdate<K>(m: map<K, int>, k: K, v: int)
    ensures Sum(m[k := v]) == Sum(m) + v - (if k in m then m[k] else 0)
  {
    SumWithout(m[k := v], k);
    assert m[k := v] - {k} == m - {k};
    if k in m {
      SumWithout(m, k);
    } else {
      assert m - {k} == m;
    }
  }

  /** A map that is smaller by `cuts`, key by key, sums to that much less. */
  lemma {:induction false} SumDifference<K>(news: map<K, int>, olds: map<K, int>, cuts: map<K, int>)
    requires news.Keys == olds.Keys && cuts.Keys <= olds.Keys
    requires forall k :: k in olds ==> news[k] == olds[k] - (if k in cuts then cuts[k] else 0)
    ensures Sum(news) == Sum(olds) - Sum(cuts)
    decreases |olds|
  {
    if olds != map[] {
      var k :| k in olds;
      SumWithout(news, k);
      SumWithout(olds, k);
      assert (olds - {k}).Keys == olds.Keys - {k};
      if k in cuts {
        SumWithout(cuts, k);
      } else {
        assert cuts - {k} == cuts;
      }
      SumDifference(news - {k}, olds - {k}, cuts - {k});
    }
  }

  /** Sums of non-negative values are non-negative. */
  lemma {:induction false} SumNonNegative<K>(m: map<K, int>)
    requires forall k :: k in m ==> m[k] >= 0
    ensures Sum(m) >= 0
    decreases |m|
  {
    if m != map[] {
      var k :| k in m;
      SumWithout(m, k);
      assert (m - {k}).Keys == m.Keys - {k};
      SumNonNegative(m - {k});
    }
  }

  /** The total value of the keys of `m` that lie in `s`; keys outside `m` weigh nothing. */
  ghost function Weight<K>(m: map<K, int>, s: set<K>): int {
    Sum(map k | k in m && k in s :: m[k])
  }

  lemma WeightAll<K>(m: map<K, int>, s: set<K>)
    requires m.Keys <= s
    ensures Weight(m, s) == Sum(m)
  {
    assert (map k | k in m && k in s :: m[k]) == m;
  }

  lemma WeightNone<K>(m: map<K, int>, s: set<K>)
    ensures m.Keys !! s ==> Weight(m, s) == 0
  {
    var chosen := map k | k in m && k in s :: m[k];
    if m.Keys !! s {
      assert chosen == map[];
    }
  }

  lemma WeightAdd<K>(m: map<K, int>, s: set<K>, k: K)
    requires k !in s
    ensures Weight(m, s + {k}) == Weight(m, s) + (if k in m then m[k] else 0)
  {
    var before := map j | j in m && j in s :: m[j];
    var after := map j | j in m && j in s + {k} :: m[j];
    if k in m {
      SumWithout(after, k);
      assert after - {k} == before;
    } else {
      assert after == before;
    }
  }

  /** Inclusion-exclusion for weights. */
  lemma {:induction false} WeightUnion<K>(m: map<K, int>, a: set<K>, b: set<K>)
    ensures Weight(m, a) + Weight(m, b) == Weight(m, a + b) + Weight(m, a * b)
    decreases b
  {
    if b == {} {
      assert a + b == a && a * b == b;
    } else {
      var k :| k in b;
      var c := b - {k};
      WeightUnion(m, a, c);
      assert c + {k} == b;
      WeightAdd(m, c, k);
      if k in a {
        assert a + b == a + c && a * b == a * c + {k};
        WeightAdd(m, a * c, k);
      } else {
        assert a + b == (a + c) + {k} && a * b == a * c;
        WeightAdd(m, a + c, k);
      }
    }
  }

  /** With non-negative values a larger set weighs at least as much. */
  lemma WeightMonotone<K>(m: map<K, int>, a: set<K>, b: set<K>)
    requires a <= b
    requires forall k :: k in m ==> m[k] >= 0
    ensures 0 <= Weight(m, a) <= Weight(m, b) <= Sum(m)
  {
    var rest := (m.Keys + b) - b;
    WeightUnion(m, a, b - a);
    assert a + (b - a) == b && a * (b - a) == {};
    WeightUnion(m, b, rest);
    assert b * rest == {};
    WeightAll(m, b + rest);
    forall s: set<K> ensures Weight(m, s) >= 0 {
      SumNonNegative(map k | k in m && k in s :: m[k]);
    }
    WeightNone(m, a * (b - a));
    WeightNone(m, b * rest);
  }
}
