/** The Kademlia routing table as a value (src/dht/routing.go): k-buckets by common prefix length with the own node,
    and the bucket-guided search for the k nearest nodes against the brute-force one. */
module Routing {
  import opened Keys

  datatype Remote = Remote(id: Key, address: string)
  datatype Record = Record(remote: Remote, lastSeen: int)

  /** Buckets as ordered maps: the records in order of insertion, one per identifier. */
  type Table = seq<seq<Record>>

  ghost predicate DistinctIds(s: seq<Remote>) {
    forall i, j :: 0 <= i < j < |s| ==> s[i].id != s[j].id
  }

  function Remotes(b: seq<Record>): (r: seq<Remote>)
    ensures |r| == |b|
  {
    seq(|b|, i requires 0 <= i < |b| => b[i].remote)
  }

  ghost predicate DistinctRecords(b: seq<Record>) {
    forall i, j :: 0 <= i < j < |b| ==> b[i].remote.id != b[j].remote.id
  }

  /** All identifiers in bucket `i` share exactly `i` leading bits with the own one. */
  ghost predicate RecordsIn(b: seq<Record>, self: Key, i: nat) {
    forall j :: 0 <= j < |b| ==> Shared(self, b[j].remote.id) == i
  }

  ghost predicate BucketOk(b: seq<Record>, k: nat, self: Key, i: nat) {
    |b| <= k && DistinctRecords(b) && RecordsIn(b, self, i)
  }

  ghost predicate TableOk(t: Table, k: nat, self: Key) {
    |t| == BITS && forall i :: 0 <= i < BITS ==> BucketOk(t[i], k, self, i)
  }

  /** The nodes of buckets `lo` to `hi - 1`. */
  function Gather(t: Table, lo: nat, hi: nat): seq<Remote>
    requires lo <= hi <= |t|
  {
    if lo == hi then [] else Gather(t, lo, hi - 1) + Remotes(t[hi - 1])
  }

  // ---------------------------------------------------------------- where the buckets lie

  /** The target is on the other side of the own node at bit `p`. */
  predicate Away(self: Key, target: Key, p: nat)
    requires p < BITS
  {
    Bit(self, p) != Bit(target, p)
  }

  /** All of bucket `p` is nearer to the target than all of bucket `q`, for `q` deeper than the target's prefix. */
  ghost predicate Precedes(self: Key, target: Key, p: nat, q: nat)
    requires p < BITS && q < BITS
  {
    var own := Shared(self, target);
    if p <= own then p == own else if p < q then Away(self, target, p) else p > q && !Away(self, target, q)
  }

  /** Prefix with the target, by bucket: own bucket longer, deeper ones and the own node equal, shallower ones shorter. */
  lemma PrefixByBucket(self: Key, target: Key, x: Key)
    ensures var own, p := Shared(self, target), Shared(self, x);
            && (p < own ==> Shared(x, target) == p)
            && (p > own ==> Shared(x, target) == own)
            && (p == own < BITS ==> Shared(x, target) > own)
  {
    var own, p := Shared(self, target), Shared(self, x);
    if p != own { SharedIs(x, target, if p < own then p else own); }
  }

  lemma ShallowerIsFarther(self: Key, target: Key, x: Key, y: Key)
    requires Shared(self, x) < Shared(self, target) && Shared(self, x) < Shared(self, y)
    ensures Closer(y, x, target)
  {
    PrefixByBucket(self, target, x);
    PrefixByBucket(self, target, y);
    LongerPrefixCloser(y, x, target);
  }

  /** Between different buckets the order to the target is decided by bits of the own identifier and the target. */
  lemma BucketOrder(self: Key, target: Key, x: Key, y: Key)
    requires Shared(self, target) < Shared(self, x) < BITS
    requires Shared(self, y) < BITS && Shared(self, y) != Shared(self, x)
    ensures Closer(y, x, target) <==> Precedes(self, target, Shared(self, y), Shared(self, x))
  {
    var own, p, q := Shared(self, target), Shared(self, y), Shared(self, x);
    if p < own {
      ShallowerIsFarther(self, target, y, x);
      CloserIrreflexive(x, target);
      CloserTotal(x, y, target);
    } else if p == own {
      PrefixByBucket(self, target, x);
      PrefixByBucket(self, target, y);
      LongerPrefixCloser(y, x, target);
    } else {
      SharedIs(y, x, if p < q then p else q);
      CloserByBit(y, x, target);
    }
  }

  /** The own node is nearer than a deeper bucket unless the target lies on that bucket's side. */
  lemma SelfOrder(self: Key, target: Key, x: Key)
    requires Shared(self, x) < BITS
    ensures Closer(self, x, target) <==> !Away(self, target, Shared(self, x))
  {
    CloserByBit(self, x, target);
  }
}
