/** Stake-weighted proposer selection (src/consensus/selection.go). */
module Selection {
  import opened Basics
  import opened Sums
  import opened Ordering
  import opened Staking

  /** Cumulative stake of the first `n` entries. */
  function Prefix(stakes: seq<int>, n: nat): int
    requires n <= |stakes|
  {
    if n == 0 then 0 else Prefix(stakes, n - 1) + stakes[n - 1]
  }

  /** Index of the first entry at or after `i` whose cumulative stake exceeds `target`, else the last one. */
  function Winner(stakes: seq<int>, target: int, i: nat): (w: nat)
    requires i < |stakes|
    ensures i <= w < |stakes|
    decreases |stakes| - i
  {
    if target < Prefix(stakes, i + 1) || i == |stakes| - 1 then i else Winner(stakes, target, i + 1)
  }

  ghost predicate Known(r: Registry, ids: seq<string>) {
    forall i :: 0 <= i < |ids| ==> ids[i] in r.validators
  }

  ghost function StakesOf(r: Registry, ids: seq<string>): (s: seq<int>)
    requires Known(r, ids)
    ensures |s| == |ids|
    ensures forall i :: 0 <= i < |ids| ==> s[i] == r.validators[ids[i]].stake
  {
    seq(|ids|, i requires 0 <= i < |ids| => r.validators[ids[i]].stake)
  }

  lemma ActiveKnown(r: Registry, epoch: nat)
    ensures Known(r, ActiveIds(r, epoch))
  {
    var ids := ActiveIds(r, epoch);
    forall i | 0 <= i < |ids| ensures ids[i] in r.validators { assert ids[i] in ids; }
  }

  /** The elected proposer for a seed read as a big-endian number. */
  ghost function Elected(r: Registry, epoch: nat, seed: nat): Option<string> {
    var ids := ActiveIds(r, epoch);
    ActiveKnown(r, epoch);
    if ids == [] then None
    else if r.total == 0 then Some(ids[0])
    else Some(ids[Winner(StakesOf(r, ids), seed % r.total, 0)])
  }

  method SelectProposer(vs: ValidatorSet, epoch: nat, seed: nat) returns (proposer: Option<string>)
    ensures proposer == Elected(vs.Value(), epoch, seed)
  {
    var active := vs.GetActiveValidators(epoch);
    if |active| == 0 { return None; }
    var totalStake := vs.totalStake;
    if totalStake == 0 { return Some(active[0]); }
    var target := seed % totalStake;
    ActiveKnown(vs.Value(), epoch);
    var i := Draw(vs, active, target);
    return Some(active[i]);
  }

  /** Adds up the stakes until they exceed the target; the last entry if they never do. */
  method Draw(vs: ValidatorSet, ids: seq<string>, target: int) returns (i: nat)
    requires ids != [] && Known(vs.Value(), ids)
    ensures i < |ids| && i == Winner(StakesOf(vs.Value(), ids), target, 0)
  {
    ghost var stakes := StakesOf(vs.Value(), ids);
    var cumulative := 0;
    i := 0;
    while i < |ids|
      invariant i <= |ids| && cumulative == Prefix(stakes, i)
      invariant Winner(stakes, target, 0) == if i < |ids| then Winner(stakes, target, i) else |ids| - 1
    {
      cumulative := cumulative + vs.validators[ids[i]].stake;
      if target < cumulative { return; }
      i := i + 1;
    }
    i := |ids| - 1;
  }

  // ---------------------------------------------------------------- exact shares

  ghost predicate AllNonNegative(stakes: seq<int>) {
    forall i :: 0 <= i < |stakes| ==> stakes[i] >= 0
  }

  lemma {:induction false} PrefixMonotone(stakes: seq<int>, m: nat, n: nat)
    requires AllNonNegative(stakes) && m <= n <= |stakes|
    ensures Prefix(stakes, m) <= Prefix(stakes, n)
    decreases n
  {
    if m < n { PrefixMonotone(stakes, m, n - 1); }
  }

  /** An entry wins exactly the targets in its own stretch of the cumulative stake line; the last one
      also wins everything beyond it. */
  lemma {:induction false} WinnerInterval(stakes: seq<int>, target: int, i: nat, w: nat)
    requires AllNonNegative(stakes) && i <= w < |stakes|
    requires Prefix(stakes, i) <= target
    ensures Winner(stakes, target, i) == w <==>
            Prefix(stakes, w) <= target && (w == |stakes| - 1 || target < Prefix(stakes, w + 1))
    decreases |stakes| - i
  {
    if target < Prefix(stakes, i + 1) {
      if w > i { PrefixMonotone(stakes, i + 1, w); }
    } else if i < |stakes| - 1 {
      if w > i { WinnerInterval(stakes, target, i + 1, w); }
    }
  }

  lemma {:induction false} IntervalSize(lo: int, hi: int, s: set<int>)
    requires lo <= hi && forall t :: t in s <==> lo <= t < hi
    ensures |s| == hi - lo
    decreases hi - lo
  {
    if lo < hi {
      IntervalSize(lo, hi - 1, s - {hi - 1});
    } else {
      assert forall t :: t !in s;
    }
  }

  /** The targets below `total` on which entry `w` is elected. */
  ghost function Wins(stakes: seq<int>, total: int, w: nat): set<int>
    requires w < |stakes|
  {
    set t | 0 <= t < total && Winner(stakes, t, 0) == w
  }

  /** Out of all targets below `total`, entry `w` wins as many as its stake; the last wins the surplus too. */
  lemma Shares(stakes: seq<int>, total: int, w: nat)
    requires AllNonNegative(stakes) && w < |stakes| && Prefix(stakes, |stakes|) <= total
    ensures |Wins(stakes, total, w)| ==
            stakes[w] + (if w == |stakes| - 1 then total - Prefix(stakes, |stakes|) else 0)
  {
    var wins := Wins(stakes, total, w);
    var lo, hi := Prefix(stakes, w), if w == |stakes| - 1 then total else Prefix(stakes, w + 1);
    PrefixMonotone(stakes, 0, w);
    PrefixMonotone(stakes, w, w + 1);
    PrefixMonotone(stakes, w + 1, |stakes|);
    forall t ensures t in wins <==> lo <= t < hi {
      if 0 <= t < total { WinnerInterval(stakes, t, 0, w); }
    }
    IntervalSize(lo, hi, wins);
  }

  function Elements(ids: seq<string>): set<string> {
    set id | id in ids
  }

  lemma OneElementMore(ids: seq<string>, n: nat)
    requires n < |ids| && Distinct(ids)
    ensures Elements(ids[..n + 1]) == Elements(ids[..n]) + {ids[n]} && ids[n] !in Elements(ids[..n])
  {
    assert ids[..n + 1] == ids[..n] + [ids[n]];
  }

  /** Cumulative stake of distinct validators is the weight of the set of them. */
  lemma {:induction false} PrefixIsWeight(r: Registry, ids: seq<string>, n: nat)
    requires n <= |ids| && Distinct(ids) && Known(r, ids)
    ensures Prefix(StakesOf(r, ids), n) == Weight(Stakes(r), Elements(ids[..n]))
  {
    if n == 0 {
      WeightNone(Stakes(r), Elements(ids[..n]));
    } else {
      PrefixIsWeight(r, ids, n - 1);
      WeightOfMore(r, ids, n - 1);
      assert StakesOf(r, ids)[n - 1] == r.validators[ids[n - 1]].stake;
    }
  }

  lemma WeightOfMore(r: Registry, ids: seq<string>, n: nat)
    requires n < |ids| && Distinct(ids) && Known(r, ids)
    ensures Weight(Stakes(r), Elements(ids[..n + 1]))
         == Weight(Stakes(r), Elements(ids[..n])) + r.validators[ids[n]].stake
  {
    OneElementMore(ids, n);
    WeightAdd(Stakes(r), Elements(ids[..n]), ids[n]);
  }

  ghost function Inactive(r: Registry, epoch: nat): set<string> {
    set id | id in r.validators && !IsActive(r.validators[id], epoch)
  }

  /** All active stake together is the total minus the inactive stake. */
  lemma ActiveStake(r: Registry, epoch: nat)
    requires Balanced(r)
    ensures Known(r, ActiveIds(r, epoch))
    ensures Prefix(StakesOf(r, ActiveIds(r, epoch)), |ActiveIds(r, epoch)|)
         == r.total - Weight(Stakes(r), Inactive(r, epoch))
  {
    var ids := ActiveIds(r, epoch);
    ActiveKnown(r, epoch);
    AscendingDistinct(ids);
    PrefixIsWeight(r, ids, |ids|);
    assert ids[..|ids|] == ids;
    var active, inactive := Elements(ids), Inactive(r, epoch);
    WeightUnion(Stakes(r), active, inactive);
    assert active * inactive == {};
    WeightNone(Stakes(r), active * inactive);
    WeightAll(Stakes(r), active + inactive);
  }

  /** Property: over all targets below the total stake, each active validator but the last in identifier order
      is elected on exactly as many targets as its stake, and the last one on its stake plus all inactive stake. */
  lemma ExactShares(r: Registry, epoch: nat, w: nat)
    requires Balanced(r) && NonNegative(r) && w < |ActiveIds(r, epoch)|
    ensures Known(r, ActiveIds(r, epoch))
    ensures var ids := ActiveIds(r, epoch);
            |Wins(StakesOf(r, ids), r.total, w)| ==
              r.validators[ids[w]].stake + (if w == |ids| - 1 then Weight(Stakes(r), Inactive(r, epoch)) else 0)
  {
    ActiveStake(r, epoch);
    WeightMonotone(Stakes(r), {}, Inactive(r, epoch));
    Shares(StakesOf(r, ActiveIds(r, epoch)), r.total, w);
  }

  /** The seeds below the total stake with which `id` is elected. */
  ghost function Seeds(r: Registry, epoch: nat, id: string): set<int> {
    set t: int | 0 <= t < r.total && Elected(r, epoch, t) == Some(id)
  }

  /** Property, for the election itself: over all seeds below the total stake each active validator is elected as often as
      its stake says, the last one in addition for all inactive stake; without active validators nobody is, and a total of
      zero elects the first. */
  lemma ElectedShares(r: Registry, epoch: nat, w: nat)
    requires Balanced(r) && NonNegative(r) && w < |ActiveIds(r, epoch)|
    ensures Known(r, ActiveIds(r, epoch))
    ensures var ids := ActiveIds(r, epoch);
            |Seeds(r, epoch, ids[w])| ==
              r.validators[ids[w]].stake + (if w == |ids| - 1 then Weight(Stakes(r), Inactive(r, epoch)) else 0)
  {
    var ids := ActiveIds(r, epoch);
    ExactShares(r, epoch, w);
    AscendingDistinct(ids);
    var stakes := StakesOf(r, ids);
    forall t: int ensures t in Seeds(r, epoch, ids[w]) <==> t in Wins(stakes, r.total, w) {
      if 0 <= t < r.total { SeedIsTarget(r, epoch, t, w); }
    }
    assert Seeds(r, epoch, ids[w]) == Wins(stakes, r.total, w);
  }

  lemma SeedIsTarget(r: Registry, epoch: nat, t: int, w: nat)
    requires 0 <= t < r.total && w < |ActiveIds(r, epoch)| && Distinct(ActiveIds(r, epoch))
    ensures Known(r, ActiveIds(r, epoch))
    ensures Elected(r, epoch, t) == Some(ActiveIds(r, epoch)[w])
       <==> Winner(StakesOf(r, ActiveIds(r, epoch)), t, 0) == w
  {
    ActiveKnown(r, epoch);
    assert t % r.total == t;
  }

  /** Seeds wrap round at the total stake. */
  lemma SeedsWrap(r: Registry, epoch: nat, seed: nat)
    requires r.total > 0
    ensures Elected(r, epoch, seed) == Elected(r, epoch, seed % r.total)
  {
    assert seed % r.total % r.total == seed % r.total;
  }

  /** Nobody is elected without active validators, and the first of them when there is no stake. */
  lemma ElectedWithoutStake(r: Registry, epoch: nat, seed: nat)
    ensures Elected(r, epoch, seed).None? <==> ActiveIds(r, epoch) == []
    ensures r.total == 0 && ActiveIds(r, epoch) != [] ==> Elected(r, epoch, seed) == Some(ActiveIds(r, epoch)[0])
  {
  }

  /** Property: when every validator is active the walk always finds a covering validator, so the fallback
      after the loop is never taken. */
  lemma FallbackUnreachable(r: Registry, epoch: nat, target: int)
    requires Balanced(r) && NonNegative(r) && 0 <= target < r.total
    requires forall id :: id in r.validators ==> IsActive(r.validators[id], epoch)
    ensures Known(r, ActiveIds(r, epoch)) && ActiveIds(r, epoch) != []
    ensures var stakes := StakesOf(r, ActiveIds(r, epoch));
            var w := Winner(stakes, target, 0);
            Prefix(stakes, w) <= target < Prefix(stakes, w + 1)
  {
    ActiveStake(r, epoch);
    WeightNone(Stakes(r), Inactive(r, epoch));
    var stakes := StakesOf(r, ActiveIds(r, epoch));
    WinnerInterval(stakes, target, 0, Winner(stakes, target, 0));
  }
}
