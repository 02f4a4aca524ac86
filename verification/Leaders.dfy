/** The deterministic leader rule, seen from the electing node and from a follower. */
module Leaders {
  import opened Basics
  import opened Ordering
  import opened Staking
  import opened Engine
  import Progress

  // ---------------------------------------------------------------- remainders

  lemma MultipleBound(d: int, k: int)
    requires k > 0
    ensures d >= 1 ==> d * k >= k
    ensures d <= -1 ==> d * k <= -k
  {
  }

  /** A decomposition into a multiple and a small rest determines the remainder. */
  lemma RemainderUnique(x: nat, q: int, rest: nat, k: nat)
    requires k > 0 && x == q * k + rest && rest < k
    ensures x % k == rest
  {
    var d := q - x / k;
    assert d * k == q * k - x / k * k;
    assert x == x / k * k + x % k;
    MultipleBound(d, k);
  }

  lemma SameRemainder(x: nat, y: nat, k: nat)
    requires k > 0 && x % k == y % k && x < y + k && y < x + k
    ensures x == y
  {
    var d := x / k - y / k;
    assert d * k == x / k * k - y / k * k;
    assert x == x / k * k + x % k && y == y / k * k + y % k;
    MultipleBound(d, k);
  }

  /** Every window of `k` consecutive numbers contains one with remainder `i`. */
  lemma Reaches(from: nat, i: nat, k: nat) returns (p: nat)
    requires i < k
    ensures from <= p < from + k && p % k == i
  {
    var a, q := from % k, from / k;
    assert from == q * k + a;
    if i >= a {
      p := from + (i - a);
      RemainderUnique(p, q, i, k);
    } else {
      p := from + (i - a + k);
      assert (q + 1) * k == q * k + k;
      RemainderUnique(p, q + 1, i, k);
    }
  }

  // ---------------------------------------------------------------- the rule

  /** The registry has the same active validators at every epoch. */
  ghost predicate EpochIndependent(r: Registry) {
    forall a: nat, b: nat :: ActiveIds(r, a) == ActiveIds(r, b)
  }

  lemma {:induction false} ListsAgree(r: Registry, epoch: nat, height: nat, peers: seq<string>)
    requires EpochIndependent(r)
    ensures ElectionList(r, epoch, peers) == FollowerList(r, height, peers)
  {
    assert ActiveIds(r, epoch) == ActiveIds(r, height / SLOTS_PER_EPOCH);
    if ActiveIds(r, epoch) == [] && epoch > 0 {
      ListsAgree(r, epoch - 1, height, peers);
    }
  }

  lemma {:induction false} FirstTrustedFinds(list: seq<string>, suspected: set<string>, i: nat, last: nat)
    requires list != [] && i <= last + 1
    ensures var found := FirstTrusted(list, suspected, i, last);
            && (found.Some? ==> found.value in list && found.value !in suspected)
            && (found.None? ==> forall p: nat :: i <= p <= last ==> At(list, p) in suspected)
    decreases last + 1 - i
  {
    if i <= last && At(list, i) in suspected {
      FirstTrustedFinds(list, suspected, i + 1, last);
    }
  }

  /** Property: an unsuspected validator is elected whenever there is one; only when all are suspected is the
      suspect list dropped and the scheduled leader kept. */
  lemma TrustedLeader(list: seq<string>, height: nat, suspected: set<string>)
    requires list != []
    ensures var (leader, dropped) := Choose(list, height, suspected);
            && leader in list
            && (dropped <==> forall id :: id in list ==> id in suspected)
            && (!dropped ==> leader !in suspected)
            && (dropped || At(list, height) !in suspected ==> leader == At(list, height))
  {
    var first := height % |list| + 1;
    FirstTrustedFinds(list, suspected, first, first + |list| - 1);
    assert At(list, height) in list;
    if Choose(list, height, suspected).1 {
      forall id | id in list ensures id in suspected {
        var i :| 0 <= i < |list| && list[i] == id;
        var p := Reaches(first, i, |list|);
        assert At(list, p) == id;
      }
    }
  }

  lemma ShiftedPosition(list: seq<string>, h: nat, d: nat)
    requires list != []
    ensures At(list, h % |list| + d) == At(list, h + d)
  {
    var k, x := |list|, h % |list| + d;
    assert (h / k + x / k) * k == h / k * k + x / k * k;
    RemainderUnique(h + d, h / k + x / k, x % k, k);
  }

  lemma {:induction false} FirstTrustedAt(list: seq<string>, suspected: set<string>, i: nat, last: nat) returns (p: nat)
    requires list != [] && i <= last + 1 && FirstTrusted(list, suspected, i, last).Some?
    ensures i <= p <= last && FirstTrusted(list, suspected, i, last) == Some(At(list, p)) && At(list, p) !in suspected
    ensures forall c: nat :: i <= c < p ==> At(list, c) in suspected
    decreases last + 1 - i
  {
    if At(list, i) in suspected { p := FirstTrustedAt(list, suspected, i + 1, last); } else { p := i; }
  }

  /** Property: the elected leader is the first unsuspected validator in the order of the list, counting round from the
      scheduled one. */
  lemma NearestTrusted(list: seq<string>, h: nat, suspected: set<string>) returns (p: nat)
    requires exists id :: id in list && id !in suspected
    ensures h <= p < h + |list| && Choose(list, h, suspected) == (At(list, p), false) && At(list, p) !in suspected
    ensures forall c: nat :: h <= c < p ==> At(list, c) in suspected
  {
    TrustedLeader(list, h, suspected);
    if At(list, h) !in suspected {
      p := h;
    } else {
      p := NextTrusted(list, h, suspected);
    }
  }

  lemma NextTrusted(list: seq<string>, h: nat, suspected: set<string>) returns (p: nat)
    requires list != [] && At(list, h) in suspected && !Choose(list, h, suspected).1
    ensures h < p < h + |list| && Choose(list, h, suspected).0 == At(list, p) && At(list, p) !in suspected
    ensures forall c: nat :: h <= c < p ==> At(list, c) in suspected
  {
    var base := h % |list|;
    var q := FirstTrustedAt(list, suspected, base + 1, base + |list|);
    p := h + (q - base);
    ShiftedPosition(list, h, q - base);
    forall c: nat | h <= c < p ensures At(list, c) in suspected {
      ShiftedPosition(list, h, c - h);
      assert c > h ==> At(list, base + (c - h)) in suspected;
    }
    NotAllRound(list, h, p - h);
  }

  lemma NotAllRound(list: seq<string>, h: nat, d: nat)
    requires list != [] && d <= |list| && At(list, h + d) != At(list, h)
    ensures d < |list|
  {
    if d == |list| { RemainderUnique(h + d, h / |list| + 1, h % |list|, |list|); }
  }

  /** What an election does to a node: it leads if it is elected, and the suspects and the count of view changes stay
      unless everybody is suspected. */
  lemma ElectionOutcome(n: Node, e: Env)
    requires n.chain != [] && e.electionList != []
    ensures var n' := Elect(n, e);
            var all := forall id :: id in e.electionList ==> id in n.lead.suspected;
            && n'.lead.elected in e.electionList && (n'.lead.isLeader <==> n'.lead.elected == n.id)
            && n'.lead.suspected == (if all then {} else n.lead.suspected)
            && n'.lead.viewChanges == (if all then 0 else n.lead.viewChanges)
            && n' == n.(lead := n'.lead)
  {
    TrustedLeader(e.electionList, Tip(n) + 1, n.lead.suspected);
  }

  /** Property: leaders are drawn from the active validators of the latest epoch up to the clock's that has any, and from
      the visible peers only if no epoch has. */
  lemma {:induction false} ElectionListIs(r: Registry, epoch: nat, peers: seq<string>) returns (latest: int)
    ensures -1 <= latest <= epoch
    ensures forall ep: nat :: latest < ep <= epoch ==> ActiveIds(r, ep) == []
    ensures latest >= 0 ==> ActiveIds(r, latest) != [] && ElectionList(r, epoch, peers) == ActiveIds(r, latest)
    ensures latest < 0 ==> ElectionList(r, epoch, peers) == peers
  {
    if ActiveIds(r, epoch) != [] {
      latest := epoch;
    } else if epoch == 0 {
      latest := -1;
    } else {
      latest := ElectionListIs(r, epoch - 1, peers);
    }
  }

  /** The 32 heights of an epoch are judged by its active validators, or by the visible peers if it has none. */
  lemma FollowerListIs(r: Registry, epoch: nat, slot: nat, peers: seq<string>)
    requires slot < 32
    ensures FollowerList(r, 32 * epoch + slot, peers) == if ActiveIds(r, epoch) != [] then ActiveIds(r, epoch) else peers
  {
    assert (32 * epoch + slot) / 32 == epoch;
  }

  /** Node `m` accepts `proposer` for the block after its chain tip. */
  predicate Takes(m: Node, proposer: string, view: uint64, body: string, e: Env)
    requires m.chain != []
  {
    var block := Block(Tip(m) + 1, body);
    JudgeProposal(m, Proposal(block, view, proposer), e).0.ballot.prepared == Some(block)
  }

  /** Property: with one chain tip, an epoch-independent active set and no suspects, a follower accepts a proposal
      for the next height exactly from the node that the election names. */
  lemma LeaderRulesAgree(r: Registry, n: Node, en: Env, clockEpoch: nat, m: Node, em: Env,
                         proposer: string, view: uint64, body: string)
    requires EpochIndependent(r) && n.chain != [] && m.chain != [] && Tip(n) == Tip(m)
    requires n.lead.suspected == {} && en.peers == em.peers
    requires en.electionList == ElectionList(r, clockEpoch, en.peers)
    requires em.followerList == FollowerList(r, Tip(m) + 1, em.peers)
    requires Elect(n, en).lead.elected != ""
    requires m.ballot.prepared != Some(Block(Tip(m) + 1, body))
    ensures Takes(m, proposer, view, body, em) <==> proposer == Elect(n, en).lead.elected
  {
    ListsAgree(r, clockEpoch, Tip(m) + 1, en.peers);
  }

  /** With suspects the two rules part: the electing node and a follower name the same leader exactly when the
      scheduled leader is unsuspected or everybody is suspected. */
  lemma SuspicionSplitsRules(list: seq<string>, height: nat, suspected: set<string>)
    requires list != []
    ensures Choose(list, height, suspected).0 == At(list, height)
            <==> At(list, height) !in suspected || (forall id :: id in list ==> id in suspected)
  {
    TrustedLeader(list, height, suspected);
  }

  /** Property: over any |list| consecutive heights each validator leads exactly once. */
  lemma EveryoneLeadsOnce(list: seq<string>, from: nat, id: string) returns (height: nat)
    requires Distinct(list) && id in list
    ensures from <= height < from + |list| && Choose(list, height, {}).0 == id
    ensures forall h: nat :: from <= h < from + |list| && Choose(list, h, {}).0 == id ==> h == height
  {
    var i :| 0 <= i < |list| && list[i] == id;
    height := Reaches(from, i, |list|);
    forall h: nat | from <= h < from + |list| && Choose(list, h, {}).0 == id ensures h == height {
      assert At(list, h) == list[i];
      SameRemainder(h, height, |list|);
    }
  }

  // ---------------------------------------------------------------- suspicion is reached

  /** An election and then `k` expiries of the view timer. */
  function Waiting(e: Env, k: nat): seq<Progress.Input> {
    [Progress.Input(OnElection, e)] + seq(k, _ => Progress.Input(OnViewTimer, e))
  }

  ghost function Waited(n: Node, r: Registry, e: Env, k: nat): Node
    requires n.chain != []
  {
    Progress.Play(n, r, Waiting(e, k))
  }

  lemma WaitedOnce(n: Node, r: Registry, e: Env)
    requires n.chain != []
    ensures Waited(n, r, e, 0) == Elect(n, e)
  {
    assert Waiting(e, 0) == [Progress.Input(OnElection, e)];
    assert Waiting(e, 0)[..0] == [];
    assert Progress.Play(n, r, []) == n;
  }

  lemma WaitedMore(n: Node, r: Registry, e: Env, k: nat)
    requires n.chain != []
    ensures Waited(n, r, e, k).chain != []
    ensures Waited(n, r, e, k + 1) == StartViewChange(Waited(n, r, e, k), e).0
  {
    assert Waiting(e, k + 1)[..k + 1] == Waiting(e, k);
    assert Waiting(e, k + 1)[k + 1] == Progress.Input(OnViewTimer, e);
  }

  /** Surroundings in which the view timer keeps expiring. */
  predicate Stalled(e: Env) {
    e.peers != [] && !e.recentChange && |e.electionList| >= 2 && "" !in e.electionList
  }

  /** Idle at genesis after `k` view changes, with the scheduled leader elected and nobody suspected. */
  predicate Waits(n: Node, id: string, genesis: Block, e: Env, k: nat)
    requires e.electionList != []
  {
    var leader := At(e.electionList, genesis.height + 1);
    n.id == id && n.chain == [genesis] && n.height == 0 && n.ballot == FRESH
    && n.lead == Leadership(leader, leader == id, {}, k)
  }

  lemma TimerElects(n: Node, e: Env)
    requires n.chain != [] && n.height == 0 && n.ballot == FRESH && Stalled(e)
    ensures var n' := StartViewChange(n, e).0;
            n'.id == n.id && n'.chain == n.chain && n'.height == 0 && n'.ballot == FRESH
            && n'.lead == Elect(n.(lead := Suspect(n.lead)), e).lead
  {
  }

  lemma TimerCounts(n: Node, id: string, genesis: Block, e: Env, k: nat)
    requires Stalled(e) && Waits(n, id, genesis, e, k)
    ensures k + 1 < SUSPECT_AFTER ==> Waits(StartViewChange(n, e).0, id, genesis, e, k + 1)
    ensures k + 1 == SUSPECT_AFTER ==>
              var list, h := e.electionList, genesis.height + 1;
              StartViewChange(n, e).0.lead.elected == Choose(list, h, {At(list, h)}).0
  {
    TimerElects(n, e);
    assert At(e.electionList, genesis.height + 1) in e.electionList;
    assert {} + {n.lead.elected} == {n.lead.elected};
  }

  lemma {:induction false} BeforeSuspicion(id: string, genesis: Block, r: Registry, e: Env, k: nat)
    requires Stalled(e) && k < SUSPECT_AFTER
    ensures Waits(Waited(Initial(id, genesis), r, e, k), id, genesis, e, k)
  {
    var start := Initial(id, genesis);
    if k == 0 {
      WaitedOnce(start, r, e);
    } else {
      BeforeSuspicion(id, genesis, r, e, k - 1);
      WaitedMore(start, r, e, k - 1);
      TimerCounts(Waited(start, r, e, k - 1), id, genesis, e, k - 1);
    }
  }

  lemma NextLeader(list: seq<string>, h: nat)
    requires Distinct(list) && |list| >= 2
    ensures var choice := Choose(list, h, {At(list, h)}); choice.0 in list && choice.0 != At(list, h)
  {
    TrustedLeader(list, h, {At(list, h)});
    assert list[0] != list[1];
  }

  lemma AfterFifty(id: string, genesis: Block, r: Registry, e: Env)
    requires Stalled(e)
    ensures var list, h := e.electionList, genesis.height + 1;
            Waited(Initial(id, genesis), r, e, SUSPECT_AFTER).lead.elected == Choose(list, h, {At(list, h)}).0
  {
    var k := SUSPECT_AFTER - 1;
    BeforeSuspicion(id, genesis, r, e, k);
    WaitedMore(Initial(id, genesis), r, e, k);
    TimerCounts(Waited(Initial(id, genesis), r, e, k), id, genesis, e, k);
  }

  lemma FollowerRefuses(m: Node, proposer: string, view: uint64, body: string, em: Env)
    requires m.chain != [] && em.followerList != [] && At(em.followerList, Tip(m) + 1) !in {"", proposer}
    requires m.ballot.prepared != Some(Block(Tip(m) + 1, body))
    ensures !Takes(m, proposer, view, body, em)
  {
  }

  /** The split is reached: a node that has waited through fifty view timers at genesis names a leader from whom a
      follower without suspicions takes no proposal. */
  lemma SuspicionIsReached(id: string, genesis: Block, r: Registry, e: Env, m: Node, em: Env, view: uint64, body: string)
    requires Stalled(e) && Distinct(e.electionList)
    requires m.chain != [] && Tip(m) == genesis.height && em.followerList == e.electionList
    requires m.ballot.prepared != Some(Block(Tip(m) + 1, body))
    ensures var n := Waited(Initial(id, genesis), r, e, SUSPECT_AFTER);
            && n.lead.elected in e.electionList && n.lead.elected != At(e.electionList, genesis.height + 1)
            && !Takes(m, n.lead.elected, view, body, em)
  {
    AfterFifty(id, genesis, r, e);
    NextLeader(e.electionList, genesis.height + 1);
    assert At(e.electionList, genesis.height + 1) in e.electionList;
    FollowerRefuses(m, Choose(e.electionList, Tip(m) + 1, {At(e.electionList, Tip(m) + 1)}).0, view, body, em);
  }
}
