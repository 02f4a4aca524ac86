/** Sorting by a strict order, and the lexicographic order of node identifiers and store keys. */
module Ordering {

  ghost predicate StrictOrder<T(!new)>(less: (T, T) -> bool) {
    && (forall x :: !less(x, x))
    && (forall x, y, z :: less(x, y) && less(y, z) ==> less(x, z))
  }

  /** No later element is smaller than an earlier one. */
  ghost predicate Sorted<T>(less: (T, T) -> bool, s: seq<T>) {
    forall i, j :: 0 <= i < j < |s| ==> !less(s[j], s[i])
  }

  /** Every earlier element is smaller than every later one. */
  ghost predicate Ascending<T>(less: (T, T) -> bool, s: seq<T>) {
    forall i, j :: 0 <= i < j < |s| ==> less(s[i], s[j])
  }

  ghost predicate Distinct<T>(s: seq<T>) {
    forall i, j :: 0 <= i < j < |s| ==> s[i] != s[j]
  }

  /** Places `x` before the first element it is smaller than. */
  function Insert<T>(less: (T, T) -> bool, s: seq<T>, x: T): (r: seq<T>)
    ensures multiset(r) == multiset(s) + multiset{x}
  {
    if s == [] then [x]
    else if less(x, s[0]) then [x] + s
    else
      assert s == [s[0]] + s[1..];
      [s[0]] + Insert(less, s[1..], x)
  }

  /** Stable insertion sort: equal elements keep their order of arrival. */
  function Sort<T>(less: (T, T) -> bool, s: seq<T>): (r: seq<T>)
    ensures multiset(r) == multiset(s)
  {
    if s == [] then []
    else
      assert s == s[..|s| - 1] + [s[|s| - 1]];
      Insert(less, Sort(less, s[..|s| - 1]), s[|s| - 1])
  }

  lemma SameElements<T>(a: seq<T>, b: seq<T>)
    requires multiset(a) == multiset(b)
    ensures |a| == |b|
    ensures forall x :: x in a <==> x in b
  {
    assert |multiset(a)| == |a| && |multiset(b)| == |b|;
    forall x ensures x in a <==> x in b {
      assert x in a <==> x in multiset(a);
      assert x in b <==> x in multiset(b);
    }
  }

  lemma {:induction false} InsertSorted<T(!new)>(less: (T, T) -> bool, s: seq<T>, x: T)
    requires StrictOrder(less) && Sorted(less, s)
    ensures Sorted(less, Insert(less, s, x))
  {
    if s != [] && !less(x, s[0]) {
      var rest := Insert(less, s[1..], x);
      InsertSorted(less, s[1..], x);
      forall y | y in rest ensures !less(y, s[0]) {
        assert y in multiset(rest);
        assert y == x || y in multiset(s[1..]);
        if y != x {
          assert y in s[1..];
          var j :| 0 <= j < |s[1..]| && s[1..][j] == y;
          assert s[j + 1] == y;
        }
      }
    }
  }

  lemma InsertMembers<T(!new)>(less: (T, T) -> bool, s: seq<T>, x: T)
    ensures |Insert(less, s, x)| == |s| + 1
    ensures forall y :: y in Insert(less, s, x) <==> y == x || y in s
  {
    SameElements(Insert(less, s, x), s + [x]);
    assert forall y :: y in s + [x] <==> y == x || y in s;
  }

  lemma ConsAscending<T(!new)>(less: (T, T) -> bool, x: T, s: seq<T>)
    requires Ascending(less, s) && forall y :: y in s ==> less(x, y)
    ensures Ascending(less, [x] + s)
  {
  }

  lemma FirstIsLeast<T(!new)>(less: (T, T) -> bool, s: seq<T>)
    requires s != [] && Ascending(less, s)
    ensures Ascending(less, s[1..]) && forall y :: y in s[1..] ==> less(s[0], y)
  {
  }

  /** Inserting an element that is comparable to all others keeps a list ascending and adds just that element. */
  lemma {:induction false} InsertNew<T(!new)>(less: (T, T) -> bool, s: seq<T>, x: T)
    requires StrictOrder(less) && Ascending(less, s)
    requires forall y :: y in s ==> less(x, y) || less(y, x)
    ensures Ascending(less, Insert(less, s, x))
    ensures |Insert(less, s, x)| == |s| + 1
    ensures forall y :: y in Insert(less, s, x) <==> y == x || y in s
  {
    InsertMembers(less, s, x);
    if s != [] {
      var head, tail := s[0], s[1..];
      FirstIsLeast(less, s);
      assert s == [head] + tail;
      if less(x, head) {
        ConsAscending(less, x, s);
      } else {
        InsertNew(less, tail, x);
        ConsAscending(less, head, Insert(less, tail, x));
      }
    }
  }

  lemma {:induction false} SortSorts<T(!new)>(less: (T, T) -> bool, s: seq<T>)
    requires StrictOrder(less)
    ensures Sorted(less, Sort(less, s))
  {
    if s != [] {
      SortSorts(less, s[..|s| - 1]);
      InsertSorted(less, Sort(less, s[..|s| - 1]), s[|s| - 1]);
    }
  }

  /** `y` alone if the order does not tell it from `z`. */
  function Peer<T>(less: (T, T) -> bool, y: T, z: T): seq<T> {
    if less(y, z) || less(z, y) then [] else [y]
  }

  /** The elements of `s` that the order does not tell from `z`, in their order. */
  function Peers<T>(less: (T, T) -> bool, s: seq<T>, z: T): seq<T> {
    if s == [] then [] else Peer(less, s[0], z) + Peers(less, s[1..], z)
  }

  lemma Associative<T>(a: seq<T>, b: seq<T>, c: seq<T>)
    ensures a + (b + c) == (a + b) + c
  {
  }

  lemma PeersCons<T>(less: (T, T) -> bool, y: T, s: seq<T>, z: T)
    ensures Peers(less, [y] + s, z) == Peer(less, y, z) + Peers(less, s, z)
  {
    assert ([y] + s)[1..] == s;
  }

  lemma {:induction false} PeersSnoc<T>(less: (T, T) -> bool, s: seq<T>, y: T, z: T)
    ensures Peers(less, s + [y], z) == Peers(less, s, z) + Peer(less, y, z)
  {
    if s == [] {
      assert [] + [y] == [y] + [];
      PeersCons(less, y, [], z);
    } else {
      var head, tail := s[0], s[1..];
      PeersSnoc(less, tail, y, z);
      assert s + [y] == [head] + (tail + [y]);
      PeersCons(less, head, tail + [y], z);
      Associative(Peer(less, head, z), Peers(less, tail, z), Peer(less, y, z));
    }
  }

  /** What is larger than an element stays so behind anything that is not smaller. */
  ghost predicate WeakOrder<T(!new)>(less: (T, T) -> bool) {
    StrictOrder(less) && forall x, y, z :: less(x, y) && !less(z, y) ==> less(x, z)
  }

  lemma {:induction false} NoPeersAbove<T(!new)>(less: (T, T) -> bool, s: seq<T>, x: T, z: T)
    requires WeakOrder(less) && Sorted(less, s) && (s != [] ==> less(x, s[0])) && !less(x, z) && !less(z, x)
    ensures Peers(less, s, z) == []
  {
    if s != [] {
      assert less(z, s[0]);
      assert |s| > 1 ==> !less(s[1], s[0]);
      NoPeersAbove(less, s[1..], x, z);
    }
  }

  lemma {:induction false} InsertBehindPeers<T(!new)>(less: (T, T) -> bool, s: seq<T>, x: T, z: T)
    requires WeakOrder(less) && Sorted(less, s)
    ensures Peers(less, Insert(less, s, x), z) == Peers(less, s, z) + Peer(less, x, z)
  {
    if s == [] {
      PeersSnoc(less, [], x, z);
      assert [] + [x] == [x];
    } else if less(x, s[0]) {
      PeersCons(less, x, s, z);
      if !less(x, z) && !less(z, x) { NoPeersAbove(less, s, x, z); }
    } else {
      var head, tail := s[0], s[1..];
      InsertBehindPeers(less, tail, x, z);
      PeersCons(less, head, Insert(less, tail, x), z);
      Associative(Peer(less, head, z), Peers(less, tail, z), Peer(less, x, z));
    }
  }

  lemma StableStep<T(!new)>(less: (T, T) -> bool, init: seq<T>, sorted: seq<T>, last: T, z: T)
    requires WeakOrder(less) && Sorted(less, sorted) && Peers(less, sorted, z) == Peers(less, init, z)
    ensures Peers(less, Insert(less, sorted, last), z) == Peers(less, init + [last], z)
  {
    InsertBehindPeers(less, sorted, last, z);
    PeersSnoc(less, init, last, z);
  }

  lemma SortStep<T>(less: (T, T) -> bool, init: seq<T>, last: T)
    ensures Sort(less, init + [last]) == Insert(less, Sort(less, init), last)
  {
    assert (init + [last])[..|init|] == init;
  }

  /** Elements of `s` that the order does not tell from `z` keep their order when `s` is sorted. */
  ghost predicate Stable<T>(less: (T, T) -> bool, s: seq<T>, z: T) {
    Peers(less, Sort(less, s), z) == Peers(less, s, z)
  }

  lemma StableLast<T(!new)>(less: (T, T) -> bool, init: seq<T>, last: T, z: T, s: seq<T>)
    requires WeakOrder(less) && Stable(less, init, z) && s == init + [last]
    ensures Stable(less, s, z)
  {
    SortSorts(less, init);
    StableStep(less, init, Sort(less, init), last, z);
    SortStep(less, init, last);
  }

  /** The sort is stable. */
  lemma {:induction false} SortIsStable<T(!new)>(less: (T, T) -> bool, s: seq<T>, z: T)
    requires WeakOrder(less)
    ensures Stable(less, s, z)
  {
    if s != [] {
      var init, last := s[..|s| - 1], s[|s| - 1];
      SortIsStable(less, init, z);
      StableLast(less, init, last, z, s);
    }
  }

  /** Two strictly ascending sequences with the same elements are the same sequence. */
  lemma {:induction false} AscendingUnique<T(!new)>(less: (T, T) -> bool, a: seq<T>, b: seq<T>)
    requires StrictOrder(less) && Ascending(less, a) && Ascending(less, b)
    requires forall x :: x in a <==> x in b
    ensures a == b
  {
    assert a == [] <==> b == [] by {
      assert a != [] ==> a[0] in b;
      assert b != [] ==> b[0] in a;
    }
    if a != [] {
      assert a[0] in b && b[0] in a;
      var i :| 0 <= i < |b| && b[i] == a[0];
      var j :| 0 <= j < |a| && a[j] == b[0];
      assert i == 0 || j == 0;
      forall x ensures x in a[1..] <==> x in b[1..] {
        assert x in a <==> x == a[0] || x in a[1..];
        assert x in b <==> x == b[0] || x in b[1..];
        assert a[0] !in a[1..] && b[0] !in b[1..];
      }
      AscendingUnique(less, a[1..], b[1..]);
      assert a == [a[0]] + a[1..] && b == [b[0]] + b[1..];
    }
  }

  /** Go's `<` on strings. */
  predicate Before(a: string, b: string) {
    b != [] && (a == [] || a[0] < b[0] || (a[0] == b[0] && Before(a[1..], b[1..])))
  }

  lemma BeforeIrreflexive(a: string)
    ensures !Before(a, a)
  {
    if a != [] { BeforeIrreflexive(a[1..]); }
  }

  lemma BeforeTransitive(a: string, b: string, c: string)
    requires Before(a, b) && Before(b, c)
    ensures Before(a, c)
  {
    if a != [] && a[0] == b[0] == c[0] { BeforeTransitive(a[1..], b[1..], c[1..]); }
  }

  lemma {:induction false} BeforeTotal(a: string, b: string)
    ensures a == b || Before(a, b) || Before(b, a)
  {
    if a != [] && b != [] && a[0] == b[0] {
      BeforeTotal(a[1..], b[1..]);
      assert a == [a[0]] + a[1..] && b == [b[0]] + b[1..];
    }
  }

  /** Strings are ordered by the first character in which they differ, and a proper prefix comes first. */
  lemma {:induction false} BeforeExactly(p: string, c: char, s: string, d: char, t: string)
    requires c != d
    ensures Before(p + [c] + s, p + [d] + t) <==> c < d
    ensures Before(p, p + [c] + s) && !Before(p + [c] + s, p)
  {
    if p != [] {
      BeforeExactly(p[1..], c, s, d, t);
      assert (p + [c] + s)[1..] == p[1..] + [c] + s && (p + [d] + t)[1..] == p[1..] + [d] + t;
    } else {
      assert p + [c] + s == [c] + s && p + [d] + t == [d] + t;
    }
  }

  lemma BeforeIsStrictOrder()
    ensures StrictOrder(Before)
  {
    forall x ensures !Before(x, x) { BeforeIrreflexive(x); }
    forall x, y, z | Before(x, y) && Before(y, z) ensures Before(x, z) { BeforeTransitive(x, y, z); }
  }

  lemma AscendingDistinct(s: seq<string>)
    requires Ascending(Before, s)
    ensures Distinct(s)
  {
    forall i, j | 0 <= i < j < |s| ensures s[i] != s[j] { BeforeIrreflexive(s[i]); }
  }

  lemma OrderedInsert(s: seq<string>, x: string)
    requires Ascending(Before, s) && x !in s
    ensures Ascending(Before, Insert(Before, s, x))
    ensures |Insert(Before, s, x)| == |s| + 1
    ensures forall y :: y in Insert(Before, s, x) <==> y == x || y in s
  {
    BeforeIsStrictOrder();
    forall y | y in s ensures Before(x, y) || Before(y, x) { BeforeTotal(x, y); }
    InsertNew(Before, s, x);
  }

  /** The elements of a set of identifiers in ascending order: the one sequence a sorted key list can be. */
  ghost function Ordered(s: set<string>): (r: seq<string>)
    ensures forall x :: x in r <==> x in s
    ensures Ascending(Before, r)
    ensures |r| == |s|
  {
    if s == {} then []
    else
      var k :| k in s;
      var rest := Ordered(s - {k});
      OrderedInsert(rest, k);
      Insert(Before, rest, k)
  }

}
