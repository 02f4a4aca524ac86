/** The mutable routing table (src/dht/routing.go): buckets changed in place by observation and garbage collection,
    and the search over them. */
module RoutingTables {
  import opened Keys
  import opened Ordering
  import opened Routing
  import opened Nearest
  import opened Lookup

  /** 480 seconds, in nanoseconds. */
  const DEAD_AFTER: int := 480_000_000_000

  // ---------------------------------------------------------------- ordered maps

  /** The position of an identifier, or the length of the bucket if it is absent. */
  function Find(b: seq<Record>, id: Key): (i: nat)
    ensures i <= |b| && (i < |b| ==> b[i].remote.id == id)
    ensures forall j :: 0 <= j < i ==> b[j].remote.id != id
  {
    if b == [] then 0
    else
      var i := Find(b[..|b| - 1], id);
      if i < |b| - 1 || b[|b| - 1].remote.id == id then i else |b|
  }

  /** Setting a known key replaces its value where it stands; a new key goes to the back. */
  function Set(b: seq<Record>, rec: Record): seq<Record> {
    var i := Find(b, rec.remote.id);
    if i < |b| then b[i := rec] else b + [rec]
  }

  function Delete(b: seq<Record>, id: Key): seq<Record> {
    var i := Find(b, id);
    if i < |b| then b[..i] + b[i + 1..] else b
  }

  /** kBucket.Observe: the front makes room for a new identifier in a full bucket. */
  function Observed(b: seq<Record>, k: nat, rec: Record): seq<Record>
    requires 0 < k && |b| <= k
  {
    if |b| < k || Find(b, rec.remote.id) < |b| then Set(b, rec) else Set(b[1..], rec)
  }

  lemma {:induction false} SetKeeps(b: seq<Record>, self: Key, i: nat, rec: Record)
    requires DistinctRecords(b) && RecordsIn(b, self, i) && Shared(self, rec.remote.id) == i
    ensures DistinctRecords(Set(b, rec)) && RecordsIn(Set(b, rec), self, i)
    ensures |Set(b, rec)| == if Find(b, rec.remote.id) < |b| then |b| else |b| + 1
  {
  }

  lemma {:induction false} SetMembers(b: seq<Record>, rec: Record)
    requires DistinctRecords(b)
    ensures forall r :: r in Set(b, rec) <==> r == rec || (r in b && r.remote.id != rec.remote.id)
  {
    var n, s := Find(b, rec.remote.id), Set(b, rec);
    assert s[n] == rec;
    forall j | 0 <= j < |b| && j != n ensures b[j] in s && b[j].remote.id != rec.remote.id { assert s[j] == b[j]; }
    forall j | 0 <= j < |s| && j != n ensures s[j] in b { assert s[j] == b[j]; }
  }

  predicate Evicts(b: seq<Record>, k: nat, id: Key) {
    |b| >= k && Find(b, id) == |b|
  }

  /** An observation keeps the bucket in order. */
  lemma {:induction false} ObservedKeeps(b: seq<Record>, k: nat, self: Key, i: nat, rec: Record)
    requires 0 < k && BucketOk(b, k, self, i) && Shared(self, rec.remote.id) == i
    ensures BucketOk(Observed(b, k, rec), k, self, i)
  {
    if Evicts(b, k, rec.remote.id) { SetKeeps(b[1..], self, i, rec); } else { SetKeeps(b, self, i, rec); }
  }

  /** It records the node, and drops nobody else but the front of a full bucket that did not know the node. */
  lemma {:induction false} ObservedMembers(b: seq<Record>, k: nat, rec: Record)
    requires 0 < k && |b| <= k && DistinctRecords(b)
    ensures forall r :: r in Observed(b, k, rec) <==>
              r == rec || (r in b && r.remote.id != rec.remote.id && !(Evicts(b, k, rec.remote.id) && r == b[0]))
  {
    if Evicts(b, k, rec.remote.id) {
      SetMembers(b[1..], rec);
      assert b == [b[0]] + b[1..];
      assert b[0] !in b[1..];
    } else {
      SetMembers(b, rec);
    }
  }

  /** The order of a bucket: a known node keeps its place, a new one goes to the back, and the front makes room for it. */
  lemma ObservedOrder(b: seq<Record>, k: nat, rec: Record)
    requires 0 < k && |b| <= k
    ensures var s := Observed(b, k, rec);
            if Find(b, rec.remote.id) < |b| then
              && |s| == |b| && s[Find(b, rec.remote.id)] == rec
              && forall i | 0 <= i < |b| && i != Find(b, rec.remote.id) :: s[i] == b[i]
            else s == (if |b| < k then b else b[1..]) + [rec]
  {
    assert b != [] && Find(b, rec.remote.id) == |b| ==> Find(b[1..], rec.remote.id) == |b| - 1;
  }

  /** Seeing a node again does not protect it: the front of a full bucket is replaced by the next new node even if it
      was seen last of all, so eviction is by age of insertion and not by last contact. */
  lemma {:induction false} RefreshDoesNotProtect(b: seq<Record>, k: nat, again: Record, newcomer: Record)
    requires 0 < k == |b| && DistinctRecords(b) && again.remote.id == b[0].remote.id
    requires Find(b, newcomer.remote.id) == |b|
    ensures Observed(Observed(b, k, again), k, newcomer) == b[1..] + [newcomer]
  {
    var s := Observed(b, k, again);
    assert s == b[0 := again];
    assert forall j :: 0 <= j < |s| ==> s[j].remote.id == b[j].remote.id;
    assert Find(s, newcomer.remote.id) == |s|;
    assert s[1..] == b[1..];
  }

  // ---------------------------------------------------------------- garbage collection

  /** The records whose identifiers are not among `gone`. */
  function Keep(b: seq<Record>, gone: seq<Key>): seq<Record> {
    if b == [] then []
    else
      var last := b[|b| - 1];
      Keep(b[..|b| - 1], gone) + if last.remote.id in gone then [] else [last]
  }

  /** The identifiers of records not seen for longer than the threshold. */
  function Dead(b: seq<Record>, now: int): seq<Key> {
    if b == [] then []
    else
      var last := b[|b| - 1];
      Dead(b[..|b| - 1], now) + if now - last.lastSeen > DEAD_AFTER then [last.remote.id] else []
  }

  function Collected(b: seq<Record>, now: int): seq<Record> {
    Keep(b, Dead(b, now))
  }

  ghost predicate Absent(b: seq<Record>, id: Key) {
    forall j :: 0 <= j < |b| ==> b[j].remote.id != id
  }

  lemma {:induction false} KeepMembers(b: seq<Record>, gone: seq<Key>)
    ensures forall r :: r in Keep(b, gone) <==> r in b && r.remote.id !in gone
  {
    if b != [] {
      KeepMembers(b[..|b| - 1], gone);
      assert b == b[..|b| - 1] + [b[|b| - 1]];
    }
  }

  lemma {:induction false} DeadMembers(b: seq<Record>, now: int)
    ensures forall id :: id in Dead(b, now) <==> exists r :: r in b && r.remote.id == id && now - r.lastSeen > DEAD_AFTER
  {
    if b != [] {
      DeadMembers(b[..|b| - 1], now);
      assert b == b[..|b| - 1] + [b[|b| - 1]];
      assert b[|b| - 1] in b;
    }
  }

  /** Filtering out identifiers the bucket does not hold changes nothing, and adds none. */
  lemma {:induction false} KeepAbsent(b: seq<Record>, gone: seq<Key>, id: Key)
    requires Absent(b, id)
    ensures Absent(Keep(b, gone), id) && Keep(b, gone + [id]) == Keep(b, gone)
  {
    if b != [] { KeepAbsent(b[..|b| - 1], gone, id); }
  }

  lemma AppendOk(b: seq<Record>, self: Key, i: nat, rec: Record)
    requires DistinctRecords(b) && RecordsIn(b, self, i) && Absent(b, rec.remote.id) && Shared(self, rec.remote.id) == i
    ensures DistinctRecords(b + [rec]) && RecordsIn(b + [rec], self, i)
  {
  }

  lemma {:induction false} KeepOk(b: seq<Record>, self: Key, i: nat, gone: seq<Key>)
    requires DistinctRecords(b) && RecordsIn(b, self, i)
    ensures DistinctRecords(Keep(b, gone)) && RecordsIn(Keep(b, gone), self, i) && |Keep(b, gone)| <= |b|
  {
    if b != [] {
      var init, last := b[..|b| - 1], b[|b| - 1];
      KeepOk(init, self, i, gone);
      KeepAbsent(init, gone, last.remote.id);
      AppendOk(Keep(init, gone), self, i, last);
      assert Keep(b, gone) == Keep(init, gone) + if last.remote.id in gone then [] else [last];
    }
  }

  lemma {:induction false} DeleteLast(b: seq<Record>, last: Record, id: Key)
    requires Absent(b, last.remote.id)
    ensures Delete(b + [last], id) == if last.remote.id == id then b else Delete(b, id) + [last]
  {
    var s := b + [last];
    assert s[..|b|] == b;
    var i := Find(b, id);
    assert i < |b| ==> s[..i] + s[i + 1..] == b[..i] + b[i + 1..] + [last];
  }

  lemma {:induction false} DeleteStep(kept: seq<Record>, kept': seq<Record>, last: Record, stays: bool, id: Key)
    requires kept' == Delete(kept, id) && Absent(kept, last.remote.id)
    ensures Delete(kept + (if stays then [last] else []), id)
         == kept' + if stays && last.remote.id != id then [last] else []
  {
    if stays {
      DeleteLast(kept, last, id);
    } else {
      assert kept + [] == kept && kept' + [] == kept';
    }
  }

  /** Deleting one more identifier is filtering by one more. */
  lemma {:induction false} DeleteOneMore(b: seq<Record>, gone: seq<Key>, id: Key)
    requires DistinctRecords(b)
    ensures Delete(Keep(b, gone), id) == Keep(b, gone + [id])
  {
    if b != [] {
      var init, last := b[..|b| - 1], b[|b| - 1];
      DeleteOneMore(init, gone, id);
      KeepAbsent(init, gone, last.remote.id);
      DeleteStep(Keep(init, gone), Keep(init, gone + [id]), last, last.remote.id !in gone, id);
    }
  }

  lemma {:induction false} KeepAll(b: seq<Record>)
    ensures Keep(b, []) == b
  {
    if b != [] { KeepAll(b[..|b| - 1]); }
  }

  /** Garbage collection removes exactly the dead nodes and keeps the bucket in order. */
  lemma CollectedKeeps(b: seq<Record>, k: nat, self: Key, i: nat, now: int)
    requires BucketOk(b, k, self, i)
    ensures BucketOk(Collected(b, now), k, self, i)
    ensures forall r :: r in Collected(b, now) <==> r in b && now - r.lastSeen <= 480_000_000_000
  {
    KeepOk(b, self, i, Dead(b, now));
    KeepMembers(b, Dead(b, now));
    DeadMembers(b, now);
    forall r, s | r in b && s in b && r.remote.id == s.remote.id ensures r == s { SameRecord(b, r, s); }
  }

  lemma SameRecord(b: seq<Record>, r: Record, s: Record)
    requires DistinctRecords(b) && r in b && s in b && r.remote.id == s.remote.id
    ensures r == s
  {
    var i :| 0 <= i < |b| && b[i] == r;
    var j :| 0 <= j < |b| && b[j] == s;
  }

  // ---------------------------------------------------------------- the mutable table

  /** The table after an observation: one bucket changes, none for the own node. */
  ghost function Observing(t: Table, k: nat, self: Key, rec: Record): (t': Table)
    requires 0 < k && TableOk(t, k, self)
    ensures TableOk(t', k, self)
  {
    var p := Shared(self, rec.remote.id);
    if p == BITS then t
    else
      assert BucketOk(t[p], k, self, p);
      ObservedKeeps(t[p], k, self, p, rec);
      OneBucketChanged(t, k, self, p, Observed(t[p], k, rec));
      t[p := Observed(t[p], k, rec)]
  }

  lemma TableChange(t: Table, k: nat, self: Key, p: nat, rec: Record)
    requires TableOk(t, k, self) && Shared(self, rec.remote.id) == p < BITS
    ensures |t[p]| <= k
    ensures 0 < k ==> Observing(t, k, self, rec) == t[p := Observed(t[p], k, rec)]
  {
    assert BucketOk(t[p], k, self, p);
  }

  lemma OneBucketChanged(t: Table, k: nat, self: Key, p: nat, b: seq<Record>)
    requires TableOk(t, k, self) && p < BITS && BucketOk(b, k, self, p)
    ensures TableOk(t[p := b], k, self)
  {
  }

  lemma GatherDown(t: Table, i: nat, hi: nat)
    requires i < hi <= |t|
    ensures Gather(t, i, hi) == Remotes(t[i]) + Gather(t, i + 1, hi)
  {
    GatherSplit(t, i, i + 1, hi);
    GatherOne(t, i);
  }

  lemma GatherOne(t: Table, i: nat)
    requires i < |t|
    ensures Gather(t, i, i + 1) == Remotes(t[i])
  {
    assert Gather(t, i, i) == [];
  }

  lemma OneBucketDown(t: Table, list: seq<Remote>, selected: seq<Remote>, i: nat, hi: nat)
    requires i < hi <= |t| && multiset(selected) == multiset(list) + multiset(Gather(t, i + 1, hi))
    ensures multiset(selected + Remotes(t[i])) == multiset(list) + multiset(Gather(t, i, hi))
  {
    GatherDown(t, i, hi);
  }

  lemma InThreeParts(t: Table, lo: nat, own: nat, hi: nat)
    requires lo <= own < hi <= |t|
    ensures multiset(Remotes(t[own])) + multiset(Gather(t, lo, own)) + multiset(Gather(t, own + 1, hi))
         == multiset(Gather(t, lo, hi))
  {
    GatherSplit(t, lo, own, hi);
    GatherDown(t, own, hi);
  }

  lemma CandidatesAre(t: Table, k: nat, self: Remote, own: nat, a: seq<Remote>, b: seq<Remote>, c: seq<Remote>)
    requires own < |t| && a == [] + Remotes(t[own])
    requires multiset(b) == multiset(a) + multiset(Gather(t, LowEnd(t, own, 0, k), own))
    requires c == b + Gather(t, own + 1, HighEnd(t, own + 1, 0, k))
    ensures multiset(c + [self]) == multiset(Candidates(t, k, self, own))
  {
    InThreeParts(t, LowEnd(t, own, 0, k), own, HighEnd(t, own + 1, 0, k));
    assert a == Remotes(t[own]);
  }

  /** The library sort by distance, here a stable one; lists without repeated identifiers have only one sorted order. */
  method SortByDistance(selected: seq<Remote>, target: Key) returns (r: seq<Remote>)
    ensures r == ByDistance(selected, target)
    ensures Sorted(Nearer(target), r) && multiset(r) == multiset(selected)
  {
    NearerIsStrictOrder(target);
    SortSorts(Nearer(target), selected);
    r := ByDistance(selected, target);
  }

  class KBucket {
    const k: nat
    var records: seq<Record>

    constructor (k: nat)
      ensures this.k == k && records == []
    {
      this.k := k;
      records := [];
    }

    /** False stands for the source's two panics: no element to evict, and more than k elements. */
    method Observe(nodeId: Key, address: string, now: int) returns (ok: bool)
      modifies this
      ensures ok <==> 0 < k && |old(records)| <= k
      ensures ok ==> records == Observed(old(records), k, Record(Remote(nodeId, address), now))
      ensures !ok ==> records == old(records)
    {
      var rec := Record(Remote(nodeId, address), now);
      if |records| < k {
        records := Set(records, rec);
        return true;
      }
      if |records| == k {
        if Find(records, nodeId) < |records| {
          records := Set(records, rec);
          return true;
        }
        if |records| > 0 {
          assert Find(records, records[0].remote.id) == 0;
          assert Delete(records, records[0].remote.id) == records[1..];
          records := Delete(records, records[0].remote.id);
          records := Set(records, rec);
          return true;
        }
        return false;
      }
      return false;
    }

    method CopyToList(l: seq<Remote>) returns (r: seq<Remote>)
      ensures r == l + Remotes(records)
    {
      r := l;
      for i := 0 to |records|
        invariant r == l + Remotes(records)[..i]
      {
        r := r + [records[i].remote];
      }
    }

    method DeleteAll(gone: seq<Key>)
      requires DistinctRecords(records)
      modifies this
      ensures records == Keep(old(records), gone)
    {
      ghost var was := records;
      KeepAll(was);
      for i := 0 to |gone|
        invariant records == Keep(was, gone[..i])
      {
        DeleteOneMore(was, gone[..i], gone[i]);
        assert gone[..i + 1] == gone[..i] + [gone[i]];
        records := Delete(records, gone[i]);
      }
      assert gone[..|gone|] == gone;
    }

    /** The dead records are collected first and then deleted one by one. */
    method Collect(now: int)
      requires DistinctRecords(records)
      modifies this
      ensures records == Collected(old(records), now)
    {
      var toRemove: seq<Key> := [];
      for i := 0 to |records|
        invariant records == old(records) && toRemove == Dead(records[..i], now)
      {
        assert records[..i + 1][..i] == records[..i];
        if now - records[i].lastSeen > DEAD_AFTER { toRemove := toRemove + [records[i].remote.id]; }
      }
      assert records[..|records|] == records;
      DeleteAll(toRemove);
    }
  }

  /** A lookup refuses the all-zero target. */
  datatype Found = EmptyTarget | Found(nodes: seq<Remote>)

  class RoutingTable {
    const k: nat
    const nodeId: Key
    const address: string
    var buckets: seq<KBucket>

    ghost predicate Shape()
      reads this, buckets
    {
      && |buckets| == BITS && Distinct(buckets)
      && forall i :: 0 <= i < BITS ==> buckets[i].k == k
    }

    ghost function Contents(): (t: Table)
      reads this, buckets
      ensures |t| == |buckets| && forall i :: 0 <= i < |t| ==> t[i] == buckets[i].records
    {
      seq(|buckets|, i requires 0 <= i < |buckets| reads this, buckets => buckets[i].records)
    }

    ghost predicate Valid()
      reads this, buckets
    {
      Shape() && TableOk(Contents(), k, nodeId)
    }

    constructor (k: nat, nodeId: Key, address: string)
      ensures Valid() && Contents() == seq(BITS, _ => []) && fresh(buckets)
      ensures this.k == k && this.nodeId == nodeId && this.address == address
    {
      this.k, this.nodeId, this.address := k, nodeId, address;
      buckets := [];
      new;
      for i := 0 to BITS
        invariant |buckets| == i && fresh(buckets) && Distinct(buckets)
        invariant forall j :: 0 <= j < i ==> buckets[j].k == k && buckets[j].records == []
      {
        var b := new KBucket(k);
        buckets := buckets + [b];
      }
    }

    /** Property: the table stays well formed, and only the bucket of the node's own prefix length changes. Only a
        table with buckets of size zero panics, on any node but the own one. */
    method Observe(id: Key, at: string, now: int) returns (ok: bool)
      requires Valid()
      modifies buckets
      ensures Valid()
      ensures ok <==> 0 < k || id == nodeId
      ensures Contents() == if 0 < k then Observing(old(Contents()), k, nodeId, Record(Remote(id, at), now))
                            else old(Contents())
    {
      SharedAll(nodeId, id);
      var prefixLen := CommonPrefixLength(nodeId, id);
      if prefixLen == BITS { return true; }
      ghost var t := Contents();
      TableChange(t, k, nodeId, prefixLen, Record(Remote(id, at), now));
      var b := buckets[prefixLen];
      ok := b.Observe(id, at, now);
      assert forall i :: 0 <= i < BITS && i != prefixLen ==> buckets[i] != b;
      assert Contents() == t[prefixLen := b.records];
      assert !ok ==> Contents() == t;
    }

    /** Property: exactly the nodes unseen for longer than the threshold disappear, from every bucket. */
    method GC(now: int)
      requires Valid()
      modifies buckets
      ensures Valid()
      ensures forall i :: 0 <= i < BITS ==> Contents()[i] == Collected(old(Contents())[i], now)
    {
      ghost var t := Contents();
      for i := 0 to BITS
        invariant Shape()
        invariant forall j :: 0 <= j < i ==> buckets[j].records == Collected(t[j], now)
        invariant forall j :: i <= j < BITS ==> buckets[j].records == t[j]
      {
        assert BucketOk(t[i], k, nodeId, i);
        var b := buckets[i];
        b.Collect(now);
        assert forall j :: 0 <= j < BITS && j != i ==> buckets[j] != b;
      }
      forall i | 0 <= i < BITS ensures BucketOk(Contents()[i], k, nodeId, i) {
        assert BucketOk(t[i], k, nodeId, i);
        CollectedKeeps(t[i], k, nodeId, i, now);
      }
    }

    /** Ever shallower buckets, until they have added k nodes. */
    method WalkDown(prefixLen: nat, list: seq<Remote>) returns (selected: seq<Remote>)
      requires |buckets| == BITS && prefixLen < BITS
      ensures multiset(selected)
           == multiset(list) + multiset(Gather(Contents(), LowEnd(Contents(), prefixLen, 0, k), prefixLen))
    {
      ghost var t := Contents();
      selected := list;
      var i := prefixLen - 1;
      var added: nat := 0;
      while i >= 0 && added < k
        invariant -1 <= i < prefixLen
        invariant LowEnd(t, prefixLen, 0, k) == LowEnd(t, i + 1, added, k)
        invariant multiset(selected) == multiset(list) + multiset(Gather(t, i + 1, prefixLen))
      {
        OneBucketDown(t, list, selected, i, prefixLen);
        var cur := buckets[i];
        added := added + |cur.records|;
        selected := cur.CopyToList(selected);
        i := i - 1;
      }
    }

    /** Ever deeper buckets, until they have added k nodes. */
    method WalkUp(prefixLen: nat, list: seq<Remote>) returns (selected: seq<Remote>)
      requires |buckets| == BITS && prefixLen < BITS
      ensures selected == list + Gather(Contents(), prefixLen + 1, HighEnd(Contents(), prefixLen + 1, 0, k))
    {
      ghost var t := Contents();
      selected := list;
      var j := prefixLen + 1;
      var added: nat := 0;
      while j < |buckets| && added < k
        invariant prefixLen < j <= BITS
        invariant HighEnd(t, prefixLen + 1, 0, k) == HighEnd(t, j, added, k)
        invariant selected == list + Gather(t, prefixLen + 1, j)
      {
        var cur := buckets[j];
        added := added + |cur.records|;
        selected := cur.CopyToList(selected);
        j := j + 1;
      }
    }

    /** The target's bucket, then ever shallower ones, then ever deeper ones, then the own node. */
    method CollectCandidates(prefixLen: nat) returns (selected: seq<Remote>)
      requires Shape() && prefixLen < BITS
      ensures multiset(selected) == multiset(Candidates(Contents(), k, Remote(nodeId, address), prefixLen))
    {
      var own := buckets[prefixLen].CopyToList([]);
      var shallow := WalkDown(prefixLen, own);
      var all := WalkUp(prefixLen, shallow);
      selected := all + [Remote(nodeId, address)];
      CandidatesAre(Contents(), k, Remote(nodeId, address), prefixLen, own, shallow, all);
    }

    /** Property: the bucket-guided search, whose exactness the lemmas on `Guided` decide. */
    method KNearest(target: Key) returns (r: Found)
      requires Valid()
      ensures r.EmptyTarget? <==> target == seq(BYTES, _ => 0)
      ensures r.Found? && target == nodeId ==> r.nodes == []
      ensures r.Found? && target != nodeId ==> Shared(nodeId, target) < BITS
      ensures r.Found? && target != nodeId ==> r.nodes == Guided(Contents(), k, Remote(nodeId, address), target)
    {
      var empty := IsEmpty(target);
      if empty { return EmptyTarget; }
      var prefixLen := CommonPrefixLength(nodeId, target);
      SharedAll(nodeId, target);
      if prefixLen == BITS { return Found([]); }
      var nodes := Search(target, prefixLen);
      return Found(nodes);
    }

    method Search(target: Key, prefixLen: nat) returns (nodes: seq<Remote>)
      requires Valid() && prefixLen == Shared(nodeId, target) < BITS
      ensures nodes == Guided(Contents(), k, Remote(nodeId, address), target)
    {
      var candidates := CollectCandidates(prefixLen);
      var selected := SortByDistance(candidates, target);
      SearchIs(Contents(), k, Remote(nodeId, address), target, candidates, selected);
      if |selected| <= k { return selected; }
      return selected[..k];
    }
  }

  /** Sorting and cutting any arrangement of the candidates gives the result of the guided search. */
  lemma SearchIs(t: Table, k: nat, self: Remote, target: Key, candidates: seq<Remote>, sorted: seq<Remote>)
    requires TableOk(t, k, self.id) && Shared(self.id, target) < BITS && sorted == ByDistance(candidates, target)
    requires multiset(candidates) == multiset(Candidates(t, k, self, Shared(self.id, target)))
    ensures Guided(t, k, self, target) == Top(sorted, k)
  {
    var own := Shared(self.id, target);
    WithSelfDistinct(t, k, self, LowEnd(t, own, 0, k), HighEnd(t, own + 1, 0, k));
    SortOrderIrrelevant(Candidates(t, k, self, own), candidates, target);
  }

  // ---------------------------------------------------------------- a search that misses is reached

  function Nobody(): Table {
    seq(BITS, _ => [])
  }

  lemma NobodyOk(k: nat, self: Key)
    ensures TableOk(Nobody(), k, self)
  {
  }

  /** The table after a sequence of observations of a new node. */
  ghost function Observations(k: nat, self: Key, recs: seq<Record>): (t: Table)
    requires 0 < k
    ensures TableOk(t, k, self)
  {
    NobodyOk(k, self);
    if recs == [] then Nobody() else Observing(Observations(k, self, recs[..|recs| - 1]), k, self, recs[|recs| - 1])
  }

  /** A node new to a bucket with room joins it at the back. */
  lemma NewNode(t: Table, k: nat, self: Key, p: nat, rec: Record)
    requires TableOk(t, k, self) && Shared(self, rec.remote.id) == p < BITS
    requires |t[p]| < k && Absent(t[p], rec.remote.id)
    ensures Observing(t, k, self, rec) == t[p := t[p] + [rec]]
  {
    TableChange(t, k, self, p, rec);
    assert Find(t[p], rec.remote.id) == |t[p]|;
  }

  lemma OneMoreInCrowd(n: nat)
    requires 0 < n < BYTES
    ensures Crowd(n)[..n - 1] == Crowd(n - 1) && Crowd(n) == Crowd(n - 1) + [Crowd(n)[n - 1]]
    ensures Absent(Crowd(n - 1), Crowd(n)[n - 1].remote.id)
    ensures Shared(Sample(0, 0), Crowd(n)[n - 1].remote.id) == 1
  {
    CrowdOk(n);
    var all, before := Crowd(n), Crowd(n - 1);
    assert all[..n - 1] == before;
    forall j | 0 <= j < |before| ensures before[j].remote.id != all[n - 1].remote.id { assert before[j] == all[j]; }
  }

  /** Observing the first `n` members of the crowd fills bucket 1 with them. */
  lemma {:induction false} CrowdArrives(k: nat, n: nat)
    requires n <= k < BYTES && 0 < k
    ensures Observations(k, Sample(0, 0), Crowd(n)) == Nobody()[1 := Crowd(n)]
  {
    if n == 0 {
      assert Crowd(0) == [];
    } else {
      CrowdArrives(k, n - 1);
      OneMoreInCrowd(n);
      var t := Observations(k, Sample(0, 0), Crowd(n - 1));
      NewNode(t, k, Sample(0, 0), 1, Crowd(n)[n - 1]);
    }
  }

  const STRAGGLER := Record(Remote(Sample(0x20, 0), ""), 0)

  lemma CrowdedTableIs(k: nat)
    ensures CrowdedTable(k) == Nobody()[1 := Crowd(k)][2 := [STRAGGLER]]
  {
  }

  /** The table on which the search misses is what a node holds after observing `k + 1` others. */
  lemma MissIsReached(k: nat)
    requires 1 <= k < BYTES
    ensures Observations(k, Sample(0, 0), Crowd(k) + [STRAGGLER]) == CrowdedTable(k)
  {
    var self, t := Sample(0, 0), Nobody()[1 := Crowd(k)];
    CrowdArrives(k, k);
    assert (Crowd(k) + [STRAGGLER])[..k] == Crowd(k);
    SamplePrefix(0x20, 0);
    assert t[2] == [] && [] + [STRAGGLER] == [STRAGGLER];
    NewNode(t, k, self, 2, STRAGGLER);
    CrowdedTableIs(k);
  }
}
