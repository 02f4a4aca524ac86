/** Ranking nodes by distance: sorted lists, their first k, and when a part of a list has the same first k. */
module Nearest {
  import opened Keys
  import opened Ordering
  import opened Routing

  /** The comparison of sortByDistance. */
  function Nearer(target: Key): (Remote, Remote) -> bool {
    (x: Remote, y: Remote) => Closer(x.id, y.id, target)
  }

  function Top(s: seq<Remote>, k: nat): seq<Remote> {
    if |s| <= k then s else s[..k]
  }

  function ByDistance(s: seq<Remote>, target: Key): seq<Remote> {
    Sort(Nearer(target), s)
  }

  lemma NearerIsStrictOrder(target: Key)
    ensures StrictOrder(Nearer(target))
  {
    var less := Nearer(target);
    forall x ensures !less(x, x) { CloserIrreflexive(x.id, target); }
    forall x, y, z | less(x, y) && less(y, z) ensures less(x, z) { CloserTransitive(x.id, y.id, z.id, target); }
  }

  /** Without repeated identifiers there are no ties, so the sorted list ascends strictly. */
  lemma {:induction false} SortAscends(s: seq<Remote>, target: Key)
    requires DistinctIds(s)
    ensures Ascending(Nearer(target), ByDistance(s, target))
    ensures |ByDistance(s, target)| == |s|
    ensures forall x :: x in ByDistance(s, target) <==> x in s
  {
    NearerIsStrictOrder(target);
    SameElements(ByDistance(s, target), s);
    if s != [] {
      var init, last := s[..|s| - 1], s[|s| - 1];
      SortAscends(init, target);
      forall y | y in ByDistance(init, target) ensures Nearer(target)(last, y) || Nearer(target)(y, last) {
        assert y in init;
        CloserTotal(last.id, y.id, target);
      }
      InsertNew(Nearer(target), ByDistance(init, target), last);
    }
  }

  lemma {:induction false} CountedOnce(s: seq<Remote>, x: Remote)
    requires DistinctIds(s)
    ensures multiset(s)[x] <= 1
  {
    if s != [] {
      var init, last := s[..|s| - 1], s[|s| - 1];
      assert s == init + [last];
      CountedOnce(init, x);
      if x == last { assert x !in init; }
    }
  }

  lemma CountedTwice(s: seq<Remote>, i: nat, j: nat)
    requires i < j < |s| && s[i] == s[j]
    ensures multiset(s)[s[i]] >= 2
  {
    assert s == s[..j] + s[j..];
    assert s[..j][i] in multiset(s[..j]) && s[j..][0] in multiset(s[j..]);
  }

  lemma DistinctRearranged(a: seq<Remote>, b: seq<Remote>)
    requires DistinctIds(a) && multiset(a) == multiset(b)
    ensures DistinctIds(b)
  {
    SameElements(a, b);
    forall i, j | 0 <= i < j < |b| ensures b[i].id != b[j].id {
      assert b[i] in a && b[j] in a;
      CountedOnce(a, b[i]);
      if b[i] == b[j] { CountedTwice(b, i, j); }
    }
  }

  /** The order in which candidates are collected does not matter. */
  lemma SortOrderIrrelevant(a: seq<Remote>, b: seq<Remote>, target: Key)
    requires DistinctIds(a) && multiset(a) == multiset(b)
    ensures ByDistance(a, target) == ByDistance(b, target)
  {
    DistinctRearranged(a, b);
    SortAscends(a, target);
    SortAscends(b, target);
    SameElements(a, b);
    NearerIsStrictOrder(target);
    AscendingUnique(Nearer(target), ByDistance(a, target), ByDistance(b, target));
  }

  // ---------------------------------------------------------------- the first k of a part

  lemma {:induction false} SamePrefix(less: (Remote, Remote) -> bool, all: seq<Remote>, part: seq<Remote>, n: nat)
    requires StrictOrder(less) && Ascending(less, all) && Ascending(less, part)
    requires forall x :: x in part ==> x in all
    requires n <= |all| && forall i :: 0 <= i < n ==> all[i] in part
    ensures n <= |part| && all[..n] == part[..n]
  {
    if n > 0 {
      SamePrefix(less, all, part, n - 1);
      NextSame(less, all, part, n - 1);
      assert all[..n] == all[..n - 1] + [all[n - 1]] && part[..n] == part[..n - 1] + [part[n - 1]];
    }
  }

  lemma NextSame(less: (Remote, Remote) -> bool, all: seq<Remote>, part: seq<Remote>, n: nat)
    requires StrictOrder(less) && Ascending(less, all) && Ascending(less, part)
    requires forall x :: x in part ==> x in all
    requires n < |all| && n <= |part| && all[..n] == part[..n] && all[n] in part
    ensures n < |part| && all[n] == part[n]
  {
    var j :| 0 <= j < |part| && part[j] == all[n];
    assert forall i :: 0 <= i < n ==> all[i] == all[..n][i] == part[..n][i] == part[i];
    assert j >= n;
    assert part[n] in all;
    var m :| 0 <= m < |all| && all[m] == part[n];
    assert m >= n;
  }

  /** A part of a list has the same first k elements as the list if and only if it holds all of them. */
  lemma TopAgrees(all: seq<Remote>, part: seq<Remote>, target: Key, k: nat)
    requires Ascending(Nearer(target), all) && Ascending(Nearer(target), part)
    requires forall x :: x in part ==> x in all
    ensures Top(part, k) == Top(all, k) <==> forall i :: 0 <= i < k && i < |all| ==> all[i] in part
  {
    var less := Nearer(target);
    NearerIsStrictOrder(target);
    var n := if k <= |all| then k else |all|;
    if forall i :: 0 <= i < k && i < |all| ==> all[i] in part {
      SamePrefix(less, all, part, n);
      if |all| <= k { AscendingUnique(less, all, part); }
    } else if Top(part, k) == Top(all, k) {
      forall i | 0 <= i < k && i < |all| ensures all[i] in part { assert Top(all, k)[i] == all[i]; }
    }
  }

  // ---------------------------------------------------------------- ranks

  /** How many nodes of `s` are nearer to the target than `x`. */
  function Rank(s: seq<Remote>, x: Key, target: Key): nat {
    if s == [] then 0
    else Rank(s[..|s| - 1], x, target) + (if Closer(s[|s| - 1].id, x, target) then 1 else 0)
  }

  lemma {:induction false} RankConcat(a: seq<Remote>, b: seq<Remote>, x: Key, target: Key)
    ensures Rank(a + b, x, target) == Rank(a, x, target) + Rank(b, x, target)
  {
    if b == [] {
      assert a + b == a;
    } else {
      assert (a + b)[..|a + b| - 1] == a + b[..|b| - 1];
      RankConcat(a, b[..|b| - 1], x, target);
    }
  }

  lemma RankOne(y: Remote, x: Key, target: Key)
    ensures Rank([y], x, target) == if Closer(y.id, x, target) then 1 else 0
  {
    assert [y][..0] == [];
  }

  lemma {:induction false} RankInsert(s: seq<Remote>, y: Remote, x: Key, target: Key)
    ensures Rank(Insert(Nearer(target), s, y), x, target) == Rank(s, x, target) + Rank([y], x, target)
  {
    if s == [] {
    } else if Nearer(target)(y, s[0]) {
      RankConcat([y], s, x, target);
    } else {
      RankInsert(s[1..], y, x, target);
      RankConcat([s[0]], Insert(Nearer(target), s[1..], y), x, target);
      RankConcat([s[0]], s[1..], x, target);
      assert s == [s[0]] + s[1..];
    }
  }

  lemma {:induction false} RankSort(s: seq<Remote>, x: Key, target: Key)
    ensures Rank(ByDistance(s, target), x, target) == Rank(s, x, target)
  {
    if s != [] {
      RankSort(s[..|s| - 1], x, target);
      RankInsert(ByDistance(s[..|s| - 1], target), s[|s| - 1], x, target);
      RankOne(s[|s| - 1], x, target);
    }
  }

  lemma {:induction false} RankUniform(s: seq<Remote>, x: Key, target: Key, nearer: bool)
    requires forall i :: 0 <= i < |s| ==> Closer(s[i].id, x, target) == nearer
    ensures Rank(s, x, target) == if nearer then |s| else 0
  {
    if s != [] { RankUniform(s[..|s| - 1], x, target, nearer); }
  }

  lemma RankAscending(sorted: seq<Remote>, target: Key, i: nat)
    requires Ascending(Nearer(target), sorted) && i < |sorted|
    ensures Rank(sorted, sorted[i].id, target) == i
  {
    var x, front, back := sorted[i].id, sorted[..i], sorted[i..];
    assert sorted == front + back;
    RankConcat(front, back, x, target);
    forall j | 0 <= j < i ensures Closer(front[j].id, x, target) {
      assert Nearer(target)(sorted[j], sorted[i]);
    }
    RankUniform(front, x, target, true);
    forall j | 0 <= j < |back| ensures !Closer(back[j].id, x, target) {
      NotCloser(sorted, target, i, i + j);
    }
    RankUniform(back, x, target, false);
  }

  /** In the sorted list every node stands at its rank. */
  lemma RankIsIndex(s: seq<Remote>, target: Key, i: nat)
    requires DistinctIds(s) && i < |ByDistance(s, target)|
    ensures Rank(s, ByDistance(s, target)[i].id, target) == i
  {
    var sorted := ByDistance(s, target);
    SortAscends(s, target);
    RankSort(s, sorted[i].id, target);
    RankAscending(sorted, target, i);
  }

  lemma NotCloser(sorted: seq<Remote>, target: Key, i: nat, j: nat)
    requires Ascending(Nearer(target), sorted) && i <= j < |sorted|
    ensures !Closer(sorted[j].id, sorted[i].id, target)
  {
    CloserIrreflexive(sorted[i].id, target);
    if i < j {
      assert Nearer(target)(sorted[i], sorted[j]);
      CloserTotal(sorted[i].id, sorted[j].id, target);
    }
  }
}
