/** The Merkle root over a list of leaf hashes (src/core/genesis.go), with free hashes. */
module Merkle {
  import opened Ordering

  /** Hash values as terms: the hash of plain data, of one hash, and of two hashes side by side. Equal terms are
      the only collisions. */
  datatype Digest = OfData(data: string) | OfOne(inner: Digest) | OfPair(left: Digest, right: Digest)

  /** One level up; an odd last element is paired with itself. */
  function Level(s: seq<Digest>): (r: seq<Digest>)
    ensures |r| == (|s| + 1) / 2
    ensures forall i :: 0 <= i < |r| ==> r[i] == OfPair(s[2 * i], if 2 * i + 1 < |s| then s[2 * i + 1] else s[2 * i])
  {
    seq((|s| + 1) / 2, i requires 0 <= i < (|s| + 1) / 2 =>
      OfPair(s[2 * i], if 2 * i + 1 < |s| then s[2 * i + 1] else s[2 * i]))
  }

  function Fold(s: seq<Digest>): Digest
    requires s != []
    decreases |s|
  {
    if |s| == 1 then s[0] else Fold(Level(s))
  }

  function HashEach(leaves: seq<Digest>): (r: seq<Digest>)
    ensures |r| == |leaves| && forall i :: 0 <= i < |r| ==> r[i] == OfOne(leaves[i])
  {
    seq(|leaves|, i requires 0 <= i < |leaves| => OfOne(leaves[i]))
  }

  function Root(leaves: seq<Digest>): Digest {
    if leaves == [] then OfData("") else Fold(HashEach(leaves))
  }

  /** merkleRootFromLeaves: pads odd layers by appending their last element, then pairs neighbours. */
  method MerkleRootFromLeaves(leaves: seq<Digest>) returns (root: Digest)
    ensures root == Root(leaves)
  {
    if |leaves| == 0 { return OfData(""); }
    var layer: seq<Digest> := [];
    for i := 0 to |leaves|
      invariant layer == HashEach(leaves)[..i]
    {
      layer := layer + [OfOne(leaves[i])];
    }
    assert layer == HashEach(leaves);
    while |layer| > 1
      invariant layer != [] && Fold(layer) == Root(leaves)
      decreases |layer|
    {
      ghost var before := layer;
      if |layer| % 2 != 0 { layer := layer + [layer[|layer| - 1]]; }
      var next: seq<Digest> := [];
      var i := 0;
      while i < |layer|
        invariant i % 2 == 0 && i <= |layer| && |next| == i / 2
        invariant forall j :: 0 <= j < |next| ==> next[j] == OfPair(layer[2 * j], layer[2 * j + 1])
      {
        next := next + [OfPair(layer[i], layer[i + 1])];
        i := i + 2;
      }
      assert next == Level(before);
      layer := next;
    }
    root := layer[0];
  }

  // ---------------------------------------------------------------- injectivity

  /** Number of pairings above the hashed leaves. */
  function Depth(d: Digest): nat {
    match d
    case OfData(_) => 0
    case OfOne(_) => 0
    case OfPair(l, _) => 1 + Depth(l)
  }

  ghost predicate Uniform(s: seq<Digest>, depth: nat) {
    forall i :: 0 <= i < |s| ==> Depth(s[i]) == depth
  }

  lemma {:induction false} FoldDepth(s: seq<Digest>, depth: nat)
    requires s != [] && Uniform(s, depth)
    ensures Depth(Fold(s)) >= depth
    ensures |s| > 1 ==> Depth(Fold(s)) > depth
    decreases |s|
  {
    if |s| > 1 { FoldDepth(Level(s), depth + 1); }
  }

  lemma LevelDistinct(s: seq<Digest>)
    requires Distinct(s)
    ensures Distinct(Level(s))
  {
    var r := Level(s);
    forall i, j | 0 <= i < j < |r| ensures r[i] != r[j] { assert s[2 * i] != s[2 * j]; }
  }

  /** The last pair of a level shows whether its element was duplicated. */
  lemma LevelParity(s: seq<Digest>)
    requires Distinct(s) && s != []
    ensures var last := Level(s)[|Level(s)| - 1]; |s| % 2 == 1 <==> last.left == last.right
  {
    assert |s| % 2 == 0 ==> s[|s| - 2] != s[|s| - 1];
  }

  /** A level is determined by the one above it: duplicating the last element cannot be confused with a list that
      really ends in two different elements. */
  lemma LevelInjective(a: seq<Digest>, b: seq<Digest>)
    requires a != [] && Distinct(a) && Distinct(b) && Level(a) == Level(b)
    ensures a == b
  {
    assert |Level(a)| == |Level(b)|;
    LevelParity(a);
    LevelParity(b);
    forall i | 0 <= i < |a| ensures a[i] == b[i] {
      assert Level(a)[i / 2] == Level(b)[i / 2];
    }
  }

  lemma {:induction false} FoldInjective(a: seq<Digest>, b: seq<Digest>, depth: nat)
    requires a != [] && b != [] && Distinct(a) && Distinct(b)
    requires Uniform(a, depth) && Uniform(b, depth) && Fold(a) == Fold(b)
    ensures a == b
    decreases |a|
  {
    FoldDepth(a, depth);
    FoldDepth(b, depth);
    if |a| > 1 {
      LevelDistinct(a);
      LevelDistinct(b);
      FoldInjective(Level(a), Level(b), depth + 1);
      LevelInjective(a, b);
    }
  }

  lemma HashEachInjective(a: seq<Digest>, b: seq<Digest>)
    requires HashEach(a) == HashEach(b)
    ensures a == b
  {
    assert |HashEach(a)| == |HashEach(b)|;
    forall i | 0 <= i < |a| ensures a[i] == b[i] { assert HashEach(a)[i] == HashEach(b)[i]; }
  }

  /** Property: on duplicate-free leaf lists the root is injective, also across different lengths. */
  lemma RootInjective(a: seq<Digest>, b: seq<Digest>)
    requires Distinct(a) && Distinct(b) && Root(a) == Root(b)
    ensures a == b
  {
    if a != [] { FoldDepth(HashEach(a), 0); }
    if b != [] { FoldDepth(HashEach(b), 0); }
    if a != [] && b != [] {
      FoldInjective(HashEach(a), HashEach(b), 0);
      HashEachInjective(a, b);
    } else {
      RootOfSome(a);
      RootOfSome(b);
    }
  }

  /** A non-empty list never has the root of the empty one. */
  lemma {:induction false} RootOfSome(leaves: seq<Digest>)
    ensures leaves != [] ==> Root(leaves) != OfData("")
  {
    if leaves != [] { FoldShape(HashEach(leaves)); }
  }

  lemma {:induction false} FoldShape(s: seq<Digest>)
    requires s != [] && forall i :: 0 <= i < |s| ==> !s[i].OfData?
    ensures !Fold(s).OfData?
    decreases |s|
  {
    if |s| > 1 { FoldShape(Level(s)); }
  }

  // ---------------------------------------------------------------- paths

  /** The number of layers above a layer of `n` elements. */
  function Layers(n: nat): nat {
    if n <= 1 then 0 else 1 + Layers((n + 1) / 2)
  }

  /** The node reached from `d` by the `depth` lowest binary digits of `i`, highest digit first: 0 goes left, 1 right. */
  function Descend(d: Digest, i: nat, depth: nat): Digest {
    if depth == 0 then d
    else
      match Descend(d, i / 2, depth - 1)
      case OfPair(left, right) => if i % 2 == 0 then left else right
      case other => other
  }

  lemma {:induction false} PathInFold(s: seq<Digest>, i: nat)
    requires i < |s|
    ensures Descend(Fold(s), i, Layers(|s|)) == s[i]
    decreases |s|
  {
    if |s| > 1 { PathInFold(Level(s), i / 2); }
  }

  /** Property: every leaf stands in the tree where the binary digits of its position lead. */
  lemma LeafAtItsPath(leaves: seq<Digest>, i: nat)
    requires i < |leaves|
    ensures Descend(Root(leaves), i, Layers(|leaves|)) == OfOne(leaves[i])
  {
    PathInFold(HashEach(leaves), i);
  }

  // ---------------------------------------------------------------- collisions

  /** Duplicates do collide: a list and the same list with its odd last element repeated have one root. */
  lemma DuplicatesCollide(leaves: seq<Digest>)
    requires |leaves| % 2 == 1 && |leaves| > 1
    ensures Root(leaves) == Root(leaves + [leaves[|leaves| - 1]])
  {
    var more := leaves + [leaves[|leaves| - 1]];
    assert Level(HashEach(leaves)) == Level(HashEach(more));
  }

  /** Some layer above one element is of odd length, or, with more than two elements, ends in two equal ones. */
  predicate Loose(s: seq<Digest>)
    decreases |s|
  {
    |s| > 1 && (|s| % 2 == 1 || (|s| > 2 && s[|s| - 1] == s[|s| - 2]) || Loose(Level(s)))
  }

  /** A layer as the source pairs it up. */
  function Pad(s: seq<Digest>): seq<Digest> {
    if |s| % 2 == 1 then s + [s[|s| - 1]] else s
  }

  lemma LevelOfPadded(s: seq<Digest>, i: nat)
    requires i < |Pad(s)|
    ensures i / 2 < |Level(s)|
    ensures Pad(s)[i] == if i % 2 == 0 then Level(s)[i / 2].left else Level(s)[i / 2].right
  {
  }

  lemma SameLevelSamePadding(a: seq<Digest>, b: seq<Digest>)
    requires Level(a) == Level(b)
    ensures Pad(a) == Pad(b)
  {
    assert |Level(a)| == |Level(b)|;
    forall i | 0 <= i < |Pad(a)| ensures Pad(a)[i] == Pad(b)[i] {
      LevelOfPadded(a, i);
      LevelOfPadded(b, i);
    }
  }

  /** Two lists with one padding differ only in the repetition of their last element. */
  lemma SamePaddingLoose(a: seq<Digest>, b: seq<Digest>)
    requires |a| > 1 && |b| > 1 && a != b && Pad(a) == Pad(b)
    ensures Loose(a)
  {
    if |a| % 2 == 0 {
      assert a == b + [b[|b| - 1]];
      assert a[|a| - 2] == b[|b| - 1];
    }
  }

  lemma {:induction false} FoldCollision(a: seq<Digest>, b: seq<Digest>, depth: nat)
    requires a != [] && b != [] && a != b && Uniform(a, depth) && Uniform(b, depth) && Fold(a) == Fold(b)
    ensures Loose(a)
    decreases |a|
  {
    FoldDepth(a, depth);
    FoldDepth(b, depth);
    assert |a| > 1 && |b| > 1;
    if Level(a) == Level(b) {
      SameLevelSamePadding(a, b);
      SamePaddingLoose(a, b);
    } else {
      FoldCollision(Level(a), Level(b), depth + 1);
    }
  }

  ghost predicate Pairs(s: seq<Digest>) {
    forall i :: 0 <= i < |s| ==> s[i].OfPair?
  }

  /** The layer below a layer of pairs. */
  function Flatten(s: seq<Digest>): (r: seq<Digest>)
    requires Pairs(s)
    ensures |r| == 2 * |s|
    ensures forall i :: 0 <= i < |r| ==> r[i] == if i % 2 == 0 then s[i / 2].left else s[i / 2].right
  {
    seq(2 * |s|, i requires 0 <= i < 2 * |s| => if i % 2 == 0 then s[i / 2].left else s[i / 2].right)
  }

  lemma FlattenBelow(s: seq<Digest>)
    requires Pairs(s)
    ensures Level(Flatten(s)) == s
  {
    forall i | 0 <= i < |s| ensures Level(Flatten(s))[i] == s[i] {
      assert Flatten(s)[2 * i] == s[i].left && Flatten(s)[2 * i + 1] == s[i].right;
    }
  }

  ghost predicate DrawnFrom(p: seq<Digest>, s: seq<Digest>) {
    forall i :: 0 <= i < |p| ==> p[i] in s
  }

  lemma FlattenDrawn(p: seq<Digest>, s: seq<Digest>)
    requires DrawnFrom(p, Level(s))
    ensures Pairs(p) && DrawnFrom(Flatten(p), s)
  {
    forall i | 0 <= i < |p| ensures p[i].OfPair? && p[i].left in s && p[i].right in s {
      var above := Level(s);
      assert p[i] in above;
      var j :| 0 <= j < |above| && above[j] == p[i];
    }
  }

  /** A loose layer has another layer, built from its own elements, that folds to the same hash. */
  lemma {:induction false} FoldPartner(s: seq<Digest>) returns (p: seq<Digest>)
    requires Loose(s)
    ensures |p| > 1 && p != s && DrawnFrom(p, s) && Fold(p) == Fold(s)
    decreases |s|
  {
    if |s| % 2 == 1 {
      p := s + [s[|s| - 1]];
      assert Level(p) == Level(s);
    } else if |s| > 2 && s[|s| - 1] == s[|s| - 2] {
      p := s[..|s| - 1];
      assert Level(p) == Level(s);
    } else {
      var above := FoldPartner(Level(s));
      FlattenDrawn(above, s);
      p := Flatten(above);
      FlattenBelow(above);
    }
  }

  /** Hashed leaves can be read back. */
  function Unhash(s: seq<Digest>): (r: seq<Digest>)
    requires forall i :: 0 <= i < |s| ==> s[i].OfOne?
    ensures |r| == |s| && HashEach(r) == s
  {
    var r := seq(|s|, i requires 0 <= i < |s| => s[i].inner);
    assert HashEach(r) == s;
    r
  }

  ghost predicate Collides(a: seq<Digest>) {
    exists b :: b != a && Root(b) == Root(a)
  }

  lemma CollisionIsLoose(a: seq<Digest>, b: seq<Digest>)
    requires b != a && Root(b) == Root(a)
    ensures Loose(HashEach(a))
  {
    RootOfSome(a);
    RootOfSome(b);
    if HashEach(a) == HashEach(b) { HashEachInjective(a, b); }
    FoldCollision(HashEach(a), HashEach(b), 0);
  }

  lemma LooseCollides(a: seq<Digest>)
    requires Loose(HashEach(a))
    ensures Collides(a)
  {
    var s := HashEach(a);
    var p := FoldPartner(s);
    forall i | 0 <= i < |p| ensures p[i].OfOne? {
      var j :| 0 <= j < |s| && s[j] == p[i];
    }
    var b := Unhash(p);
    assert Root(b) == Root(a) && b != a;
  }

  /** Property, exactly: another list has the root of `a` if and only if some layer of `a` above one element is of odd
      length, or ends in two equal elements and is longer than two. */
  lemma CollidesExactly(a: seq<Digest>)
    ensures Collides(a) <==> Loose(HashEach(a))
  {
    if Loose(HashEach(a)) { LooseCollides(a); }
    if b :| b != a && Root(b) == Root(a) { CollisionIsLoose(a, b); }
  }

  predicate PowerOfTwo(n: nat) {
    n == 1 || (n > 1 && n % 2 == 0 && PowerOfTwo(n / 2))
  }

  lemma {:induction false} DistinctLoose(s: seq<Digest>)
    requires s != [] && Distinct(s)
    ensures Loose(s) <==> !PowerOfTwo(|s|)
    decreases |s|
  {
    if |s| > 1 && |s| % 2 == 0 {
      var above := Level(s);
      assert s[|s| - 2] != s[|s| - 1];
      LevelDistinct(s);
      DistinctLoose(above);
      assert |above| == |s| / 2;
      assert Loose(s) <==> Loose(above);
      assert PowerOfTwo(|s|) <==> PowerOfTwo(|s| / 2);
    }
  }

  /** Property, for duplicate-free lists: some other list has the same root if and only if the length is no power of
      two. By RootInjective the other list then repeats a leaf. */
  lemma DistinctCollides(a: seq<Digest>)
    requires a != [] && Distinct(a)
    ensures Collides(a) <==> !PowerOfTwo(|a|)
  {
    CollidesExactly(a);
    forall i, j | 0 <= i < j < |a| ensures HashEach(a)[i] != HashEach(a)[j] { }
    DistinctLoose(HashEach(a));
  }
}
