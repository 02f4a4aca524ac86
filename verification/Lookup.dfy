/** The bucket-guided search of `KNearest` against brute force over the whole table and the own node. */
module Lookup {
  import opened Keys
  import opened Ordering
  import opened Routing
  import opened Nearest

  // ---------------------------------------------------------------- what the search collects

  /** Where the walk through ever shallower buckets stops. */
  function LowEnd(t: Table, i: nat, added: nat, k: nat): (lo: nat)
    requires i <= |t|
    ensures lo <= i
  {
    if i == 0 || added >= k then i else LowEnd(t, i - 1, added + |t[i - 1]|, k)
  }

  /** Where the walk through ever deeper buckets stops. */
  function HighEnd(t: Table, j: nat, added: nat, k: nat): (hi: nat)
    requires j <= |t|
    ensures j <= hi <= |t|
    decreases |t| - j
  {
    if j == |t| || added >= k then j else HighEnd(t, j + 1, added + |t[j]|, k)
  }

  /** The buckets searched, together with the own node, for a target in bucket `own`. */
  function Candidates(t: Table, k: nat, self: Remote, own: nat): seq<Remote>
    requires own < |t|
  {
    Gather(t, LowEnd(t, own, 0, k), HighEnd(t, own + 1, 0, k)) + [self]
  }

  function Everyone(t: Table, self: Remote): seq<Remote> {
    Gather(t, 0, |t|) + [self]
  }

  ghost function Guided(t: Table, k: nat, self: Remote, target: Key): seq<Remote>
    requires |t| == BITS && Shared(self.id, target) < BITS
  {
    Top(ByDistance(Candidates(t, k, self, Shared(self.id, target)), target), k)
  }

  function BruteForce(t: Table, k: nat, self: Remote, target: Key): seq<Remote> {
    Top(ByDistance(Everyone(t, self), target), k)
  }

  // ---------------------------------------------------------------- ranges of buckets

  lemma {:induction false} GatherSplit(t: Table, lo: nat, mid: nat, hi: nat)
    requires lo <= mid <= hi <= |t|
    ensures Gather(t, lo, hi) == Gather(t, lo, mid) + Gather(t, mid, hi)
  {
    if mid < hi { GatherSplit(t, lo, mid, hi - 1); }
  }

  lemma {:induction false} GatherFrom(t: Table, k: nat, self: Key, lo: nat, hi: nat, x: Remote)
    requires TableOk(t, k, self) && lo <= hi <= BITS && x in Gather(t, lo, hi)
    ensures lo <= Shared(self, x.id) < hi && x in Remotes(t[Shared(self, x.id)])
  {
    if x in Remotes(t[hi - 1]) {
      assert BucketOk(t[hi - 1], k, self, hi - 1);
    } else {
      GatherFrom(t, k, self, lo, hi - 1, x);
    }
  }

  lemma {:induction false} GatherHas(t: Table, lo: nat, hi: nat, i: nat, x: Remote)
    requires lo <= i < hi <= |t| && x in Remotes(t[i])
    ensures x in Gather(t, lo, hi)
  {
    if i < hi - 1 { GatherHas(t, lo, hi - 1, i, x); }
  }

  lemma {:induction false} GatherDistinct(t: Table, k: nat, self: Key, lo: nat, hi: nat)
    requires TableOk(t, k, self) && lo <= hi <= BITS
    ensures DistinctIds(Gather(t, lo, hi))
  {
    if lo < hi {
      GatherDistinct(t, k, self, lo, hi - 1);
      var front, back := Gather(t, lo, hi - 1), Remotes(t[hi - 1]);
      assert BucketOk(t[hi - 1], k, self, hi - 1);
      forall i, j | 0 <= i < |front| && 0 <= j < |back| ensures front[i].id != back[j].id {
        GatherFrom(t, k, self, lo, hi - 1, front[i]);
      }
    }
  }

  lemma WithSelfDistinct(t: Table, k: nat, self: Remote, lo: nat, hi: nat)
    requires TableOk(t, k, self.id) && lo <= hi <= BITS
    ensures DistinctIds(Gather(t, lo, hi) + [self])
  {
    GatherDistinct(t, k, self.id, lo, hi);
    var s := Gather(t, lo, hi);
    forall i | 0 <= i < |s| ensures s[i].id != self.id {
      GatherFrom(t, k, self.id, lo, hi, s[i]);
      SharedAll(self.id, self.id);
    }
  }

  lemma {:induction false} LowEndEnough(t: Table, own: nat, i: nat, k: nat)
    requires i <= own <= |t|
    ensures var lo := LowEnd(t, i, |Gather(t, i, own)|, k); lo > 0 ==> |Gather(t, lo, own)| >= k
  {
    if i > 0 && |Gather(t, i, own)| < k {
      GatherSplit(t, i - 1, i, own);
      assert Gather(t, i - 1, i) == Gather(t, i - 1, i - 1) + Remotes(t[i - 1]);
      LowEndEnough(t, own, i - 1, k);
    }
  }

  lemma {:induction false} HighEndEnough(t: Table, from: nat, j: nat, k: nat)
    requires from <= j <= |t|
    ensures var hi := HighEnd(t, j, |Gather(t, from, j)|, k); hi < |t| ==> |Gather(t, from, hi)| >= k
    decreases |t| - j
  {
    if j < |t| && |Gather(t, from, j)| < k { HighEndEnough(t, from, j + 1, k); }
  }

  // ---------------------------------------------------------------- ranks by bucket

  /** How many nodes of buckets below `n` other than `q` lie nearer to the target than all of bucket `q`. */
  ghost function AheadBelow(t: Table, self: Key, target: Key, q: nat, n: nat): nat
    requires n <= |t| == BITS && q < BITS
  {
    if n == 0 then 0
    else AheadBelow(t, self, target, q, n - 1) + (if Precedes(self, target, n - 1, q) then |t[n - 1]| else 0)
  }

  /** How many nodes, the own one included, lie nearer to the target than all of the deeper bucket `q`: a number read
      off the bucket sizes and the bits of two identifiers. */
  ghost function Ahead(t: Table, self: Key, target: Key, q: nat): nat
    requires |t| == BITS && q < BITS
  {
    AheadBelow(t, self, target, q, BITS) + (if Away(self, target, q) then 0 else 1)
  }

  lemma BucketRank(t: Table, k: nat, self: Key, target: Key, x: Key, p: nat)
    requires TableOk(t, k, self) && Shared(self, target) < Shared(self, x) < BITS
    requires p < BITS && p != Shared(self, x)
    ensures Rank(Remotes(t[p]), x, target) == if Precedes(self, target, p, Shared(self, x)) then |t[p]| else 0
  {
    var s := Remotes(t[p]);
    assert BucketOk(t[p], k, self, p);
    forall i | 0 <= i < |s| ensures Closer(s[i].id, x, target) == Precedes(self, target, p, Shared(self, x)) {
      BucketOrder(self, target, x, s[i].id);
    }
    RankUniform(s, x, target, Precedes(self, target, p, Shared(self, x)));
  }

  lemma OneBucketMore(t: Table, x: Key, target: Key, n: nat)
    requires n < |t|
    ensures Rank(Gather(t, 0, n + 1), x, target) == Rank(Gather(t, 0, n), x, target) + Rank(Remotes(t[n]), x, target)
  {
    RankConcat(Gather(t, 0, n), Remotes(t[n]), x, target);
  }

  /** What bucket `p` adds to the rank of a node of bucket `q` that has rank `r` within it. */
  ghost function Part(t: Table, self: Key, target: Key, r: nat, q: nat, p: nat): nat
    requires |t| == BITS && p < BITS && q < BITS
  {
    if p == q then r else if Precedes(self, target, p, q) then |t[p]| else 0
  }

  ghost function Parts(t: Table, self: Key, target: Key, r: nat, q: nat, n: nat): nat
    requires |t| == BITS && n <= BITS && q < BITS
  {
    if n == 0 then 0 else Parts(t, self, target, r, q, n - 1) + Part(t, self, target, r, q, n - 1)
  }

  lemma {:induction false} PartsAre(t: Table, self: Key, target: Key, r: nat, q: nat, n: nat)
    requires |t| == BITS && n <= BITS && q < BITS && Shared(self, target) < q
    ensures Parts(t, self, target, r, q, n) == AheadBelow(t, self, target, q, n) + if q < n then r else 0
  {
    if n > 0 { PartsAre(t, self, target, r, q, n - 1); }
  }

  lemma RankIsPart(t: Table, k: nat, self: Key, target: Key, x: Key, q: nat, p: nat)
    requires TableOk(t, k, self) && Shared(self, target) < Shared(self, x) == q < BITS && p < BITS
    ensures Rank(Remotes(t[p]), x, target) == Part(t, self, target, Rank(Remotes(t[q]), x, target), q, p)
  {
    if p != q { BucketRank(t, k, self, target, x, p); }
  }

  lemma {:induction false} GatherRank(t: Table, k: nat, self: Key, target: Key, x: Key, q: nat, r: nat, n: nat)
    requires TableOk(t, k, self) && Shared(self, target) < Shared(self, x) == q < BITS && n <= BITS
    requires r == Rank(Remotes(t[q]), x, target)
    ensures Rank(Gather(t, 0, n), x, target) == Parts(t, self, target, r, q, n)
  {
    if n > 0 {
      GatherRank(t, k, self, target, x, q, r, n - 1);
      OneBucketMore(t, x, target, n - 1);
      RankIsPart(t, k, self, target, x, q, n - 1);
    }
  }

  /** The rank of a node of a deeper bucket: everything ahead of its bucket, and what is nearer within it. */
  lemma DeepRank(t: Table, k: nat, self: Remote, target: Key, x: Key)
    requires TableOk(t, k, self.id) && Shared(self.id, target) < Shared(self.id, x) < BITS
    ensures var q := Shared(self.id, x);
            Rank(Everyone(t, self), x, target) == Ahead(t, self.id, target, q) + Rank(Remotes(t[q]), x, target)
  {
    var q := Shared(self.id, x);
    var r := Rank(Remotes(t[q]), x, target);
    GatherRank(t, k, self.id, target, x, q, r, BITS);
    PartsAre(t, self.id, target, r, q, BITS);
    RankConcat(Gather(t, 0, BITS), [self], x, target);
    RankOne(self, x, target);
    SelfOrder(self.id, target, x);
  }

  /** Some node of a non-empty bucket has rank zero within it. */
  lemma FirstOfBucket(t: Table, k: nat, self: Key, target: Key, q: nat) returns (x: Remote)
    requires TableOk(t, k, self) && q < BITS && t[q] != []
    ensures x in Remotes(t[q]) && Rank(Remotes(t[q]), x.id, target) == 0 && Shared(self, x.id) == q
  {
    assert BucketOk(t[q], k, self, q);
    SortAscends(Remotes(t[q]), target);
    x := ByDistance(Remotes(t[q]), target)[0];
    RankIsIndex(Remotes(t[q]), target, 0);
  }

  /** At least k nodes are nearer than any node the shallow walk left out. */
  lemma ShallowRank(t: Table, k: nat, self: Key, target: Key, x: Key, lo: nat)
    requires TableOk(t, k, self) && Shared(self, target) < BITS
    requires lo == LowEnd(t, Shared(self, target), 0, k) && Shared(self, x) < lo
    ensures Rank(Gather(t, lo, Shared(self, target)), x, target) >= k
  {
    var own := Shared(self, target);
    LowEndEnough(t, own, own, k);
    var s := Gather(t, lo, own);
    forall i | 0 <= i < |s| ensures Closer(s[i].id, x, target) {
      GatherFrom(t, k, self, lo, own, s[i]);
      ShallowerIsFarther(self, target, x, s[i].id);
    }
    RankUniform(s, x, target, true);
  }

  // ---------------------------------------------------------------- exactness

  lemma BothAscend(t: Table, k: nat, self: Remote, target: Key, part: seq<Remote>, all: seq<Remote>)
    requires TableOk(t, k, self.id) && Shared(self.id, target) < BITS
    requires part == Candidates(t, k, self, Shared(self.id, target)) && all == Everyone(t, self)
    ensures DistinctIds(part) && DistinctIds(all)
    ensures Ascending(Nearer(target), ByDistance(part, target)) && Ascending(Nearer(target), ByDistance(all, target))
    ensures forall x :: x in part <==> x in ByDistance(part, target)
    ensures forall x :: x in all <==> x in ByDistance(all, target)
    ensures forall x :: x in part ==> x in all
  {
    var own := Shared(self.id, target);
    var lo, hi := LowEnd(t, own, 0, k), HighEnd(t, own + 1, 0, k);
    WithSelfDistinct(t, k, self, lo, hi);
    WithSelfDistinct(t, k, self, 0, BITS);
    SortAscends(part, target);
    SortAscends(all, target);
    GatherSplit(t, 0, lo, BITS);
    GatherSplit(t, lo, hi, BITS);
  }

  /** A node the search did not look at: k nodes are nearer, or it is in a bucket beyond the deep walk. */
  lemma Missed(t: Table, k: nat, self: Remote, target: Key, x: Remote)
    requires TableOk(t, k, self.id) && Shared(self.id, target) < BITS
    requires x in Everyone(t, self) && x !in Candidates(t, k, self, Shared(self.id, target))
    ensures var own, q := Shared(self.id, target), Shared(self.id, x.id);
            || (q < LowEnd(t, own, 0, k) && Rank(Candidates(t, k, self, own), x.id, target) >= k
                && Rank(Everyone(t, self), x.id, target) >= k)
            || (HighEnd(t, own + 1, 0, k) <= q < BITS && x in Remotes(t[q])
                && Rank(Everyone(t, self), x.id, target) >= Ahead(t, self.id, target, q))
  {
    var own, q := Shared(self.id, target), Shared(self.id, x.id);
    var lo, hi := LowEnd(t, own, 0, k), HighEnd(t, own + 1, 0, k);
    GatherFrom(t, k, self.id, 0, BITS, x);
    if lo <= q < hi { GatherHas(t, lo, hi, q, x); }
    if q < lo {
      ShallowRank(t, k, self.id, target, x.id, lo);
      RangeRank(t, self, x.id, target, lo, own, lo, hi);
      RangeRank(t, self, x.id, target, lo, own, 0, BITS);
    } else {
      DeepRank(t, k, self, target, x.id);
    }
  }

  lemma RangeRank(t: Table, self: Remote, x: Key, target: Key, lo: nat, hi: nat, low: nat, high: nat)
    requires low <= lo <= hi <= high <= |t|
    ensures Rank(Gather(t, low, high) + [self], x, target) >= Rank(Gather(t, lo, hi), x, target)
  {
    GatherSplit(t, low, lo, high);
    GatherSplit(t, lo, hi, high);
    RankConcat(Gather(t, low, lo), Gather(t, lo, high), x, target);
    RankConcat(Gather(t, lo, hi), Gather(t, hi, high), x, target);
    RankConcat(Gather(t, low, high), [self], x, target);
  }

  /** Every non-empty bucket beyond the deep walk has k nodes ahead of it. */
  ghost predicate DeepWalkSuffices(t: Table, k: nat, self: Key, target: Key)
    requires |t| == BITS && Shared(self, target) < BITS
  {
    forall q :: HighEnd(t, Shared(self, target) + 1, 0, k) <= q < BITS && t[q] != [] ==> Ahead(t, self, target, q) >= k
  }

  lemma SufficesForAll(t: Table, k: nat, self: Remote, target: Key)
    requires TableOk(t, k, self.id) && Shared(self.id, target) < BITS && DeepWalkSuffices(t, k, self.id, target)
    ensures var all := ByDistance(Everyone(t, self), target);
            forall i :: 0 <= i < k && i < |all| ==> all[i] in Candidates(t, k, self, Shared(self.id, target))
  {
    var part, all := Candidates(t, k, self, Shared(self.id, target)), ByDistance(Everyone(t, self), target);
    BothAscend(t, k, self, target, part, Everyone(t, self));
    forall i | 0 <= i < k && i < |all| ensures all[i] in part {
      RankIsIndex(Everyone(t, self), target, i);
      assert all[i] in Everyone(t, self);
      if all[i] !in part { Missed(t, k, self, target, all[i]); }
    }
  }

  lemma NeededForAll(t: Table, k: nat, self: Remote, target: Key) returns (i: nat)
    requires TableOk(t, k, self.id) && Shared(self.id, target) < BITS && !DeepWalkSuffices(t, k, self.id, target)
    ensures var all := ByDistance(Everyone(t, self), target);
            i < k && i < |all| && all[i] !in Candidates(t, k, self, Shared(self.id, target))
  {
    var q :| HighEnd(t, Shared(self.id, target) + 1, 0, k) <= q < BITS && t[q] != [] && Ahead(t, self.id, target, q) < k;
    i := MissedOne(t, k, self, target, q);
  }

  lemma MissedOne(t: Table, k: nat, self: Remote, target: Key, q: nat) returns (i: nat)
    requires TableOk(t, k, self.id) && Shared(self.id, target) < BITS
    requires HighEnd(t, Shared(self.id, target) + 1, 0, k) <= q < BITS && t[q] != []
    requires Ahead(t, self.id, target, q) < k
    ensures var all := ByDistance(Everyone(t, self), target);
            i < k && i < |all| && all[i] !in Candidates(t, k, self, Shared(self.id, target))
  {
    var own := Shared(self.id, target);
    var part, all := Candidates(t, k, self, own), ByDistance(Everyone(t, self), target);
    BothAscend(t, k, self, target, part, Everyone(t, self));
    var x := FirstOfBucket(t, k, self.id, target, q);
    DeepRank(t, k, self, target, x.id);
    GatherHas(t, 0, BITS, q, x);
    assert x in all;
    i :| 0 <= i < |all| && all[i] == x;
    RankIsIndex(Everyone(t, self), target, i);
    if x in part { FromCandidates(t, k, self, own, x); }
  }

  lemma FromCandidates(t: Table, k: nat, self: Remote, own: nat, x: Remote)
    requires TableOk(t, k, self.id) && own < BITS && x in Candidates(t, k, self, own)
    ensures x == self || LowEnd(t, own, 0, k) <= Shared(self.id, x.id) < HighEnd(t, own + 1, 0, k)
    ensures x == self ==> Shared(self.id, x.id) == BITS
  {
    SharedAll(self.id, self.id);
    if x != self { GatherFrom(t, k, self.id, LowEnd(t, own, 0, k), HighEnd(t, own + 1, 0, k), x); }
  }

  /** Property, exactly: the guided search returns the k nearest nodes of the whole table and the own node if and only
      if every non-empty bucket that the deep walk leaves out has at least k nodes ahead of it. */
  lemma GuidedIsBruteForce(t: Table, k: nat, self: Remote, target: Key)
    requires TableOk(t, k, self.id) && Shared(self.id, target) < BITS
    ensures Guided(t, k, self, target) == BruteForce(t, k, self, target) <==> DeepWalkSuffices(t, k, self.id, target)
  {
    var part, all := Candidates(t, k, self, Shared(self.id, target)), Everyone(t, self);
    BothAscend(t, k, self, target, part, all);
    TopAgrees(ByDistance(all, target), ByDistance(part, target), target, k);
    if DeepWalkSuffices(t, k, self.id, target) {
      SufficesForAll(t, k, self, target);
    } else {
      var i := NeededForAll(t, k, self, target);
    }
  }

  lemma {:induction false} AheadHasOwn(t: Table, self: Key, target: Key, q: nat, n: nat)
    requires |t| == BITS && Shared(self, target) < q < BITS && n <= BITS
    ensures Shared(self, target) < n ==> AheadBelow(t, self, target, q, n) >= |t[Shared(self, target)]|
  {
    if n > 0 { AheadHasOwn(t, self, target, q, n - 1); }
  }

  /** Property: exact whenever the target's own bucket is full or the deeper buckets together hold fewer than k. */
  lemma GuidedExactWhen(t: Table, k: nat, self: Remote, target: Key)
    requires TableOk(t, k, self.id) && Shared(self.id, target) < BITS
    requires |t[Shared(self.id, target)]| == k || |Gather(t, Shared(self.id, target) + 1, BITS)| < k
    ensures Guided(t, k, self, target) == BruteForce(t, k, self, target)
  {
    var own := Shared(self.id, target);
    var hi := HighEnd(t, own + 1, 0, k);
    HighEndEnough(t, own + 1, own + 1, k);
    GatherSplit(t, own + 1, hi, BITS);
    forall q | hi <= q < BITS && t[q] != [] ensures Ahead(t, self.id, target, q) >= k {
      AheadHasOwn(t, self.id, target, q, BITS);
    }
    GuidedIsBruteForce(t, k, self, target);
  }

  /** Property, unconditionally: a node left out although nearer than a returned one is in a bucket deeper than the
      target's prefix length. */
  lemma OmittedIsDeeper(t: Table, k: nat, self: Remote, target: Key, x: Remote, y: Remote)
    requires TableOk(t, k, self.id) && Shared(self.id, target) < BITS
    requires x in Guided(t, k, self, target)
    requires y in Everyone(t, self) && y !in Guided(t, k, self, target) && Closer(y.id, x.id, target)
    ensures Shared(self.id, target) < Shared(self.id, y.id) < BITS
  {
    var sorted := ByDistance(Candidates(t, k, self, Shared(self.id, target)), target);
    var i :| 0 <= i < k && i < |sorted| && sorted[i] == x;
    OmittedAt(t, k, self, target, sorted, i, y);
  }

  lemma OmittedAt(t: Table, k: nat, self: Remote, target: Key, sorted: seq<Remote>, i: nat, y: Remote)
    requires TableOk(t, k, self.id) && Shared(self.id, target) < BITS
    requires sorted == ByDistance(Candidates(t, k, self, Shared(self.id, target)), target) && i < |sorted| && i < k
    requires y in Everyone(t, self) && y !in Top(sorted, k) && Closer(y.id, sorted[i].id, target)
    ensures Shared(self.id, target) < Shared(self.id, y.id) < BITS
  {
    var part := Candidates(t, k, self, Shared(self.id, target));
    BothAscend(t, k, self, target, part, Everyone(t, self));
    if y in part {
      var j :| 0 <= j < |sorted| && sorted[j] == y;
      NotInFront(sorted, target, k, i, j);
    } else {
      RankIsIndex(part, target, i);
      RankMonotone(part, y.id, sorted[i].id, target);
      UnseenIsDeeper(t, k, self, target, y);
    }
  }

  lemma UnseenIsDeeper(t: Table, k: nat, self: Remote, target: Key, y: Remote)
    requires TableOk(t, k, self.id) && Shared(self.id, target) < BITS
    requires y in Everyone(t, self) && y !in Candidates(t, k, self, Shared(self.id, target))
    requires Rank(Candidates(t, k, self, Shared(self.id, target)), y.id, target) < k
    ensures Shared(self.id, target) < Shared(self.id, y.id) < BITS
  {
    Missed(t, k, self, target, y);
  }

  lemma NotInFront(sorted: seq<Remote>, target: Key, k: nat, i: nat, j: nat)
    requires Ascending(Nearer(target), sorted) && i < k && i < |sorted| && j < |sorted|
    requires Closer(sorted[j].id, sorted[i].id, target)
    ensures sorted[j] in Top(sorted, k)
  {
    if i <= j { NotCloser(sorted, target, i, j); }
    assert Top(sorted, k)[j] == sorted[j];
  }

  lemma {:induction false} RankMonotone(s: seq<Remote>, y: Key, x: Key, target: Key)
    requires Closer(y, x, target)
    ensures Rank(s, y, target) <= Rank(s, x, target)
  {
    if s != [] {
      RankMonotone(s[..|s| - 1], y, x, target);
      if Closer(s[|s| - 1].id, y, target) { CloserTransitive(s[|s| - 1].id, y, x, target); }
    }
  }

  // ---------------------------------------------------------------- a search that misses

  /** A key with the given first byte and, for a positive `mark`, a one in the byte of that index. */
  function Sample(first: bv8, mark: nat): Key {
    seq(BYTES, i requires 0 <= i < BYTES => if i == 0 then first else if i == mark then 1 else 0)
  }

  function Crowd(k: nat): seq<Record> {
    seq(k, j requires 0 <= j < k => Record(Remote(Sample(0x40, j + 1), ""), 0))
  }

  /** `k` nodes in bucket 1, one node in bucket 2, and all other buckets empty. */
  function CrowdedTable(k: nat): Table {
    seq(BITS, i requires 0 <= i < BITS =>
      if i == 1 then Crowd(k) else if i == 2 then [Record(Remote(Sample(0x20, 0), ""), 0)] else [])
  }

  lemma SamplePrefix(first: bv8, mark: nat)
    ensures first & 0x80 == 0 && first & 0x40 != 0 ==> Shared(Sample(0, 0), Sample(first, mark)) == 1
    ensures first & 0x80 == 0 && first & 0x40 == 0 && first & 0x20 != 0 ==> Shared(Sample(0, 0), Sample(first, mark)) == 2
    ensures first & 0x80 != 0 ==> Shared(Sample(0, 0), Sample(first, mark)) == 0
  {
    var a, b := Sample(0, 0), Sample(first, mark);
    assert !Bit(a, 0) && !Bit(a, 1) && !Bit(a, 2);
    assert Bit(b, 0) == (first & 0x80 != 0) && Bit(b, 1) == (first & 0x40 != 0) && Bit(b, 2) == (first & 0x20 != 0);
    if Bit(b, 0) { SharedIs(a, b, 0); } else if Bit(b, 1) { SharedIs(a, b, 1); } else if Bit(b, 2) { SharedIs(a, b, 2); }
  }

  lemma CrowdOk(k: nat)
    requires k < BYTES
    ensures BucketOk(Crowd(k), k, Sample(0, 0), 1)
  {
    forall j | 0 <= j < k ensures Shared(Sample(0, 0), Crowd(k)[j].remote.id) == 1 { SamplePrefix(0x40, j + 1); }
    forall m, n | 0 <= m < n < k ensures Crowd(k)[m].remote.id != Crowd(k)[n].remote.id {
      assert Sample(0x40, m + 1)[m + 1] != Sample(0x40, n + 1)[m + 1];
    }
  }

  lemma CrowdedTableOk(k: nat)
    requires 1 <= k < BYTES
    ensures TableOk(CrowdedTable(k), k, Sample(0, 0))
  {
    CrowdOk(k);
    SamplePrefix(0x20, 0);
  }

  lemma {:induction false} NothingAhead(t: Table, self: Key, target: Key, n: nat)
    requires |t| == BITS && t[0] == [] && n <= BITS && Shared(self, target) == 0
    requires !Away(self, target, 1) && Away(self, target, 2)
    ensures AheadBelow(t, self, target, 2, n) == 0
  {
    if n > 0 { NothingAhead(t, self, target, n - 1); }
  }

  /** The deep walk stops at a full bucket on the wrong side and misses the nearest node of all. */
  lemma WrongSide(t: Table, k: nat, self: Remote, target: Key)
    requires 1 <= k && TableOk(t, k, self.id) && Shared(self.id, target) == 0
    requires t[0] == [] && |t[1]| == k && t[2] != []
    requires !Away(self.id, target, 1) && Away(self.id, target, 2)
    ensures Guided(t, k, self, target) != BruteForce(t, k, self, target)
  {
    FullBucketStops(t, k);
    NothingAhead(t, self.id, target, BITS);
    assert Ahead(t, self.id, target, 2) < k;
    assert !DeepWalkSuffices(t, k, self.id, target);
    GuidedIsBruteForce(t, k, self, target);
  }

  lemma FullBucketStops(t: Table, k: nat)
    requires |t| > 2 && 1 <= k == |t[1]|
    ensures HighEnd(t, 1, 0, k) == 2
  {
    assert HighEnd(t, 2, k, k) == 2;
  }

  lemma SampleSides()
    ensures Shared(Sample(0, 0), Sample(0xA0, 0)) == 0
    ensures !Away(Sample(0, 0), Sample(0xA0, 0), 1) && Away(Sample(0, 0), Sample(0xA0, 0), 2)
  {
    SamplePrefix(0xA0, 0);
    var target := Sample(0xA0, 0);
    assert !Bit(target, 1) && Bit(target, 2);
  }

  /** Neither condition can be dropped: for each bucket size below 32 there is a table on which the search misses. */
  lemma GuidedCanMiss(k: nat) returns (t: Table, self: Remote, target: Key)
    requires 1 <= k < BYTES
    ensures TableOk(t, k, self.id) && Shared(self.id, target) == 0
    ensures Guided(t, k, self, target) != BruteForce(t, k, self, target)
  {
    t, self, target := CrowdedTable(k), Remote(Sample(0, 0), ""), Sample(0xA0, 0);
    CrowdedTableOk(k);
    SampleSides();
    assert t[1] == Crowd(k) && |Crowd(k)| == k;
    WrongSide(t, k, self, target);
  }
}
