/** The validator registry of the consensus engine (src/consensus/staking.go) and the epoch
    finalisation that slashes validators with a missing VDF submission. */
module Staking {
  import opened Basics
  import opened Sums
  import opened Ordering

  const QTX: int := 1_000_000_000_000_000_000
  const SLASH_BPS: nat := 100

  datatype StakedValidator = StakedValidator(
    stake: int, pubKey: string, nodeAddress: string,
    activationEpoch: nat, exitEpoch: nat, isSlashed: bool)

  /** The value of a validator set: the records by identifier, the tracked total and the minimum stake. */
  datatype Registry = Registry(validators: map<string, StakedValidator>, total: int, min: int)

  datatype Operation =
    | Add(id: string, stakeQTX: uint64)
    | Register(id: string, pubKey: string, stakeQTX: uint64, nodeAddress: string)
    | Delete(id: string)
    | Unregister(id: string)
    | Slash(id: string, bps: uint64)
    | Finalise(epoch: nat, submitted: set<string>)

  /** Go's conversion of a uint64 to int64. */
  function ToInt64(x: uint64): int {
    if x < U64 / 2 then x else x - U64
  }

  ghost function Stakes(r: Registry): map<string, int> {
    map id | id in r.validators :: r.validators[id].stake
  }

  ghost predicate Balanced(r: Registry) {
    r.total == Sum(Stakes(r))
  }

  predicate IsActive(v: StakedValidator, epoch: nat) {
    !v.isSlashed && v.activationEpoch <= epoch && (v.exitEpoch == 0 || v.exitEpoch > epoch)
  }

  /** The identifiers of the validators active in `epoch`, in ascending order. */
  ghost function ActiveIds(r: Registry, epoch: nat): seq<string> {
    Ordered(set id | id in r.validators && IsActive(r.validators[id], epoch))
  }

  /** Replaces or creates the record of `id`, moving the total by the difference of the stakes. */
  function Put(r: Registry, id: string, v: StakedValidator): Registry {
    var before := if id in r.validators then r.validators[id].stake else 0;
    r.(validators := r.validators[id := v], total := r.total - before + v.stake)
  }

  function AddTo(r: Registry, id: string, stakeQTX: uint64): Registry {
    var stake := ToInt64(stakeQTX) * QTX;
    if stake < r.min then r
    else if id in r.validators then Put(r, id, r.validators[id].(stake := stake))
    else Put(r, id, StakedValidator(stake, "", "", 0, 0, false))
  }

  function RegisterIn(r: Registry, id: string, pubKey: string, stakeQTX: uint64, nodeAddress: string): Registry {
    var stake := ToInt64(stakeQTX) * QTX;
    if id == "" || nodeAddress == "" || stake < r.min then r
    else if id in r.validators then
      var v := r.validators[id];
      Put(r, id, v.(stake := stake, nodeAddress := nodeAddress, isSlashed := false,
                    pubKey := if pubKey != "" then pubKey else v.pubKey))
    else Put(r, id, StakedValidator(stake, pubKey, nodeAddress, 0, 0, false))
  }

  function DeleteFrom(r: Registry, id: string): Registry {
    if id in r.validators
    then r.(validators := r.validators - {id}, total := r.total - r.validators[id].stake)
    else r
  }

  function UnregisterIn(r: Registry, id: string): Registry {
    if id in r.validators then Put(r, id, r.validators[id].(exitEpoch := 1, stake := 0)) else r
  }

  /** The record after losing `bps` basis points, ejected when it falls below the minimum. */
  function Penalised(v: StakedValidator, bps: nat, min: int): StakedValidator {
    var stake := v.stake - v.stake * bps / 10000;
    v.(stake := stake, isSlashed := v.isSlashed || stake < min)
  }

  function SlashIn(r: Registry, id: string, bps: nat): Registry {
    if id in r.validators then Put(r, id, Penalised(r.validators[id], bps, r.min)) else r
  }

  /** The validators that epoch finalisation slashes. */
  predicate Misses(r: Registry, epoch: nat, submitted: set<string>, id: string) {
    id in r.validators && IsActive(r.validators[id], epoch) && id !in submitted
  }

  /** All misses penalised at once, everybody else untouched, the total recomputed from scratch. */
  ghost function Finalised(r: Registry, epoch: nat, submitted: set<string>): Registry {
    var after := map id | id in r.validators ::
      if Misses(r, epoch, submitted, id) then Penalised(r.validators[id], SLASH_BPS, r.min) else r.validators[id];
    var r' := r.(validators := after);
    r'.(total := r.total - Sum(Stakes(r)) + Sum(Stakes(r')))
  }

  ghost function Apply(r: Registry, op: Operation): Registry {
    match op
    case Add(id, stake) => AddTo(r, id, stake)
    case Register(id, pubKey, stake, addr) => RegisterIn(r, id, pubKey, stake, addr)
    case Delete(id) => DeleteFrom(r, id)
    case Unregister(id) => UnregisterIn(r, id)
    case Slash(id, bps) => SlashIn(r, id, bps)
    case Finalise(epoch, submitted) => Finalised(r, epoch, submitted)
  }

  ghost function Run(r: Registry, ops: seq<Operation>): Registry {
    if ops == [] then r else Apply(Run(r, ops[..|ops| - 1]), ops[|ops| - 1])
  }

  // ---------------------------------------------------------------- ledger invariants

  /** A validator that was never slashed out and never left holds at least the minimum. */
  ghost predicate Sound(r: Registry) {
    forall id :: id in r.validators ==>
      var v := r.validators[id];
      v.activationEpoch == 0 && v.exitEpoch <= 1 && (!v.isSlashed && v.exitEpoch == 0 ==> v.stake >= r.min)
  }

  lemma PutKeepsOffset(r: Registry, id: string, v: StakedValidator)
    ensures Put(r, id, v).total - Sum(Stakes(Put(r, id, v))) == r.total - Sum(Stakes(r))
  {
    SumUpdate(Stakes(r), id, v.stake);
    assert Stakes(Put(r, id, v)) == Stakes(r)[id := v.stake];
  }

  lemma ApplyBalanced(r: Registry, op: Operation)
    requires Balanced(r)
    ensures Balanced(Apply(r, op))
  {
    match op
    case Add(id, stakeQTX) =>
      var stake := ToInt64(stakeQTX) * QTX;
      if id in r.validators { PutKeepsOffset(r, id, r.validators[id].(stake := stake)); }
      else { PutKeepsOffset(r, id, StakedValidator(stake, "", "", 0, 0, false)); }
    case Register(id, pubKey, stakeQTX, addr) =>
      if Apply(r, op) != r { PutKeepsOffset(r, id, Apply(r, op).validators[id]); }
    case Delete(id) =>
      if id in r.validators {
        SumWithout(Stakes(r), id);
        assert Stakes(DeleteFrom(r, id)) == Stakes(r) - {id};
      }
    case Unregister(id) =>
      if id in r.validators { PutKeepsOffset(r, id, r.validators[id].(exitEpoch := 1, stake := 0)); }
    case Slash(id, bps) =>
      if id in r.validators { PutKeepsOffset(r, id, Penalised(r.validators[id], bps, r.min)); }
    case Finalise(epoch, submitted) =>
      var r' := Finalised(r, epoch, submitted);
      assert Stakes(r') == Stakes(r.(validators := r'.validators));
  }

  lemma ApplySound(r: Registry, op: Operation)
    requires Sound(r)
    ensures Sound(Apply(r, op)) && Apply(r, op).min == r.min
  {
  }

  lemma PenaltyBound(stake: int, bps: nat)
    requires stake >= 0 && bps <= 10000
    ensures 0 <= stake * bps / 10000 <= stake
  {
    assert 0 <= stake * bps <= stake * 10000;
  }

  ghost predicate NonNegative(r: Registry) {
    forall id :: id in r.validators ==> r.validators[id].stake >= 0
  }

  lemma ApplyNonNegative(r: Registry, op: Operation)
    requires NonNegative(r) && r.min >= 0
    requires op.Slash? ==> op.bps <= 10000
    ensures NonNegative(Apply(r, op))
  {
    forall id | id in r.validators ensures Penalised(r.validators[id], SLASH_BPS, r.min).stake >= 0 {
      PenaltyBound(r.validators[id].stake, SLASH_BPS);
    }
    if op.Slash? && op.id in r.validators {
      PenaltyBound(r.validators[op.id].stake, op.bps);
    }
  }

  const EMPTY: map<string, StakedValidator> := map[]

  /** Property: after any sequence of operations the total is the sum of the recorded stakes, and every
      validator active at an epoch of at least one holds the minimum stake. */
  lemma {:induction false} LedgerHolds(min: int, ops: seq<Operation>)
    ensures var r := Run(Registry(EMPTY, 0, min), ops);
            && r.min == min && Balanced(r) && Sound(r)
            && (forall id, epoch: nat | epoch >= 1 && id in r.validators && IsActive(r.validators[id], epoch) ::
                  r.validators[id].stake >= min)
  {
    var start := Registry(EMPTY, 0, min);
    if ops == [] {
      assert Stakes(start) == map[];
    } else {
      LedgerHolds(min, ops[..|ops| - 1]);
      ApplyBalanced(Run(start, ops[..|ops| - 1]), ops[|ops| - 1]);
      ApplySound(Run(start, ops[..|ops| - 1]), ops[|ops| - 1]);
    }
  }

  /** Property: with slashing capped at 10000 basis points no recorded stake, and so no total, goes negative. */
  lemma {:induction false} StakesStayNonNegative(min: nat, ops: seq<Operation>)
    requires forall i :: 0 <= i < |ops| && ops[i].Slash? ==> ops[i].bps <= 10000
    ensures var r := Run(Registry(EMPTY, 0, min), ops); NonNegative(r) && r.min == min && r.total >= 0
  {
    var r := Run(Registry(EMPTY, 0, min), ops);
    if ops != [] {
      StakesStayNonNegative(min, ops[..|ops| - 1]);
      ApplyNonNegative(Run(Registry(EMPTY, 0, min), ops[..|ops| - 1]), ops[|ops| - 1]);
    }
    LedgerHolds(min, ops);
    SumNonNegative(Stakes(r));
  }

  /** Exactly: a slash leaves a negative stake if and only if the rate exceeds 10000 basis points by enough for the
      excess to amount to one whole unit. */
  lemma SlashedNegativeExactly(r: Registry, id: string, bps: nat)
    requires id in r.validators && r.validators[id].stake >= 0
    ensures SlashIn(r, id, bps).validators[id].stake < 0 <==> r.validators[id].stake * (bps - 10000) >= 10000
  {
    var stake := r.validators[id].stake;
    assert stake * (bps - 10000) == stake * bps - 10000 * stake;
    QuotientExceeds(stake * bps, stake);
  }

  lemma QuotientExceeds(n: int, s: int)
    ensures n / 10000 > s <==> n - 10000 * s >= 10000
  {
  }

  /** Without the cap the bound is lost: slashing 20000 basis points leaves a negative stake. */
  lemma OverslashingGoesNegative()
    ensures var r := Run(Registry(EMPTY, 0, 0), [Add("v", 1), Slash("v", 20000)]);
            "v" in r.validators && r.validators["v"].stake == -QTX
  {
    var start := Registry(EMPTY, 0, 0);
    var ops := [Add("v", 1), Slash("v", 20000)];
    assert ops[..1] == [Add("v", 1)] && ops[..1][..0] == [];
    assert Run(start, ops[..1]) == AddTo(start, "v", 1);
    assert Run(start, ops) == SlashIn(AddTo(start, "v", 1), "v", 20000);
  }

  /** Property: finalisation costs exactly the active non-submitters one percent of their stake, rounded
      down, and the total drops by exactly the sum of those penalties. */
  lemma FinalisationCost(r: Registry, epoch: nat, submitted: set<string>)
    requires Balanced(r)
    ensures var r' := Finalised(r, epoch, submitted);
            && r'.validators.Keys == r.validators.Keys
            && (forall id | id in r.validators ::
                  r'.validators[id].stake == r.validators[id].stake
                    - (if Misses(r, epoch, submitted, id) then r.validators[id].stake / 100 else 0))
            && r'.total == r.total
                - Sum(map id | id in r.validators && Misses(r, epoch, submitted, id) :: r.validators[id].stake / 100)
  {
    var r' := Finalised(r, epoch, submitted);
    assert Stakes(r') == Stakes(r.(validators := r'.validators));
    SumDifference(Stakes(r'), Stakes(r),
                  map id | id in r.validators && Misses(r, epoch, submitted, id) :: r.validators[id].stake / 100);
  }

  /** The members of `ids` without a submission, in order. */
  function Unsubmitted(ids: seq<string>, submitted: set<string>): seq<string> {
    if ids == [] then []
    else
      var last := ids[|ids| - 1];
      Unsubmitted(ids[..|ids| - 1], submitted) + (if last in submitted then [] else [last])
  }

  lemma {:induction false} UnsubmittedElements(ids: seq<string>, submitted: set<string>)
    requires Ascending(Before, ids)
    ensures Ascending(Before, Unsubmitted(ids, submitted))
    ensures forall id :: id in Unsubmitted(ids, submitted) <==> id in ids && id !in submitted
  {
    if ids != [] {
      var init, last := ids[..|ids| - 1], ids[|ids| - 1];
      assert ids == init + [last];
      UnsubmittedElements(init, submitted);
      var u := Unsubmitted(init, submitted);
      forall j | 0 <= j < |u| ensures Before(u[j], last) {
        assert u[j] in init;
        var i :| 0 <= i < |init| && init[i] == u[j];
        assert ids[i] == u[j];
      }
    }
  }

  /** Slashing the listed validators one after the other. */
  function SlashAll(r: Registry, ids: seq<string>): Registry {
    if ids == [] then r else SlashIn(SlashAll(r, ids[..|ids| - 1]), ids[|ids| - 1], SLASH_BPS)
  }

  lemma {:induction false} SlashAllRecords(r: Registry, ids: seq<string>)
    requires Distinct(ids) && (forall id :: id in ids ==> id in r.validators)
    ensures var s := SlashAll(r, ids);
            && s.min == r.min && s.validators.Keys == r.validators.Keys
            && s.total - Sum(Stakes(s)) == r.total - Sum(Stakes(r))
            && (forall id :: id in r.validators ==>
                  s.validators[id] == (if id in ids then Penalised(r.validators[id], SLASH_BPS, r.min)
                                       else r.validators[id]))
  {
    if ids != [] {
      var init, last := ids[..|ids| - 1], ids[|ids| - 1];
      assert ids == init + [last];
      assert last in ids && last !in init;
      SlashAllRecords(r, init);
      var s := SlashAll(r, init);
      PutKeepsOffset(s, last, Penalised(s.validators[last], SLASH_BPS, s.min));
    }
  }

  /** The slash list names exactly the misses, each once. */
  lemma SlashListIsMisses(r: Registry, epoch: nat, submitted: set<string>)
    ensures var ids := Unsubmitted(ActiveIds(r, epoch), submitted);
            && Distinct(ids) && (forall id :: id in ids <==> Misses(r, epoch, submitted, id))
  {
    UnsubmittedElements(ActiveIds(r, epoch), submitted);
    AscendingDistinct(Unsubmitted(ActiveIds(r, epoch), submitted));
  }

  /** Slashing the misses one by one is the simultaneous finalisation. */
  lemma SlashAllFinalises(r: Registry, epoch: nat, submitted: set<string>)
    ensures SlashAll(r, Unsubmitted(ActiveIds(r, epoch), submitted)) == Finalised(r, epoch, submitted)
  {
    var ids := Unsubmitted(ActiveIds(r, epoch), submitted);
    SlashListIsMisses(r, epoch, submitted);
    SlashAllRecords(r, ids);
    var s, f := SlashAll(r, ids), Finalised(r, epoch, submitted);
    assert s.validators == f.validators;
    assert Stakes(s) == Stakes(r.(validators := f.validators));
  }

  // ---------------------------------------------------------------- the mutable registry

  class ValidatorSet {
    var validators: map<string, StakedValidator>
    var totalStake: int
    const minStakeAmount: int

    constructor (minStakeAmount: int)
      ensures Value() == Registry(EMPTY, 0, minStakeAmount)
    {
      this.validators, this.totalStake, this.minStakeAmount := map[], 0, minStakeAmount;
    }

    ghost function Value(): Registry reads this {
      Registry(validators, totalStake, minStakeAmount)
    }

    method AddValidator(id: string, stakeQTX: uint64) returns (ok: bool)
      modifies this
      ensures Value() == AddTo(old(Value()), id, stakeQTX)
      ensures ok <==> ToInt64(stakeQTX) * QTX >= minStakeAmount
    {
      var stake := ToInt64(stakeQTX) * QTX;
      if stake < minStakeAmount { return false; }
      if id in validators {
        totalStake := totalStake - validators[id].stake;
        validators := validators[id := validators[id].(stake := stake)];
        totalStake := totalStake + stake;
      } else {
        validators := validators[id := StakedValidator(stake, "", "", 0, 0, false)];
        totalStake := totalStake + stake;
      }
      return true;
    }

    method RegisterValidator(id: string, pubKey: string, stakeQTX: uint64, nodeAddress: string) returns (ok: bool)
      modifies this
      ensures Value() == RegisterIn(old(Value()), id, pubKey, stakeQTX, nodeAddress)
      ensures ok <==> id != "" && nodeAddress != "" && ToInt64(stakeQTX) * QTX >= minStakeAmount
    {
      if id == "" || nodeAddress == "" { return false; }
      var stake := ToInt64(stakeQTX) * QTX;
      if stake < minStakeAmount { return false; }
      if id in validators {
        var v := validators[id];
        totalStake := totalStake - v.stake;
        v := v.(stake := stake, nodeAddress := nodeAddress);
        if pubKey != "" { v := v.(pubKey := pubKey); }
        validators := validators[id := v.(isSlashed := false)];
        totalStake := totalStake + stake;
      } else {
        validators := validators[id := StakedValidator(stake, pubKey, nodeAddress, 0, 0, false)];
        totalStake := totalStake + stake;
      }
      return true;
    }

    method DeleteValidator(id: string)
      modifies this
      ensures Value() == DeleteFrom(old(Value()), id)
    {
      if id in validators {
        totalStake := totalStake - validators[id].stake;
        validators := validators - {id};
      }
    }

    method UnregisterValidator(id: string) returns (ok: bool)
      modifies this
      ensures Value() == UnregisterIn(old(Value()), id)
      ensures ok <==> id in old(validators)
    {
      if id !in validators { return false; }
      totalStake := totalStake - validators[id].stake;
      validators := validators[id := validators[id].(exitEpoch := 1, stake := 0)];
      return true;
    }

    method SlashValidator(id: string, bps: uint64)
      modifies this
      ensures Value() == SlashIn(old(Value()), id, bps)
    {
      if id !in validators { return; }
      var v := validators[id];
      var penalty := v.stake * bps / 10000;
      totalStake := totalStake - penalty;
      v := v.(stake := v.stake - penalty);
      if v.stake < minStakeAmount { v := v.(isSlashed := true); }
      validators := validators[id := v];
    }

    /** Walks the map in arbitrary order, keeps the active records and sorts them by identifier. */
    method GetActiveValidators(epoch: nat) returns (active: seq<string>)
      ensures active == ActiveIds(Value(), epoch)
      ensures forall id :: id in active <==> id in validators && IsActive(validators[id], epoch)
    {
      active := [];
      var rest := validators.Keys;
      while rest != {}
        invariant rest <= validators.Keys
        invariant Ascending(Before, active)
        invariant forall id :: id in active <==> id in validators && id !in rest && IsActive(validators[id], epoch)
        decreases rest
      {
        var id :| id in rest;
        rest := rest - {id};
        if IsActive(validators[id], epoch) {
          OrderedInsert(active, id);
          active := Insert(Before, active, id);
        }
      }
      BeforeIsStrictOrder();
      AscendingUnique(Before, active, ActiveIds(Value(), epoch));
    }
  }

  /** The part of the RANDAO that records submissions, misses and finalised epochs (src/consensus/random.go). */
  class Randao {
    var submissions: map<nat, set<string>>
    var missed: map<nat, set<string>>
    var finalized: set<nat>

    ghost function Submitted(epoch: nat): set<string> reads this {
      if epoch in submissions then submissions[epoch] else {}
    }

    method FinaliseEpoch(epoch: nat, activeValidators: seq<string>) returns (slashList: seq<string>)
      modifies this
      ensures slashList == Unsubmitted(activeValidators, old(Submitted(epoch)))
      ensures submissions == old(submissions) && finalized == old(finalized) + {epoch}
      ensures epoch in missed && missed == old(missed)[epoch := missed[epoch]]
      ensures forall id :: id in missed[epoch] <==>
                id in slashList || (epoch in old(missed) && id in old(missed)[epoch])
    {
      if epoch !in missed { missed := missed[epoch := {}]; }
      ghost var before := missed;
      var subs := if epoch in submissions then submissions[epoch] else {};
      slashList := [];
      for i := 0 to |activeValidators|
        invariant submissions == old(submissions) && finalized == old(finalized)
        invariant slashList == Unsubmitted(activeValidators[..i], subs)
        invariant epoch in missed && missed == before[epoch := missed[epoch]]
        invariant forall id :: id in missed[epoch] <==> id in slashList || id in before[epoch]
      {
        var id := activeValidators[i];
        assert activeValidators[..i + 1][..i] == activeValidators[..i];
        if id !in subs {
          missed := missed[epoch := missed[epoch] + {id}];
          slashList := slashList + [id];
        }
      }
      assert activeValidators[..|activeValidators|] == activeValidators;
      finalized := finalized + {epoch};
    }
  }

  /** The epoch-boundary hook. */
  method FinaliseEpochAndSlash(vs: ValidatorSet, r: Randao, epoch: nat)
    modifies vs, r
    ensures vs.Value() == Finalised(old(vs.Value()), epoch, old(r.Submitted(epoch)))
    ensures r.finalized == old(r.finalized) + {epoch} && r.submissions == old(r.submissions)
  {
    var activeIds := vs.GetActiveValidators(epoch);
    var slashList := r.FinaliseEpoch(epoch, activeIds);
    SlashMissing(vs, slashList);
    SlashAllFinalises(old(vs.Value()), epoch, old(r.Submitted(epoch)));
  }

  /** The slashing loop of the hook. */
  method SlashMissing(vs: ValidatorSet, slashList: seq<string>)
    modifies vs
    ensures vs.Value() == SlashAll(old(vs.Value()), slashList)
  {
    for i := 0 to |slashList|
      invariant vs.Value() == SlashAll(old(vs.Value()), slashList[..i])
    {
      assert slashList[..i + 1][..i] == slashList[..i];
      vs.SlashValidator(slashList[i], SLASH_BPS);
    }
    assert slashList[..|slashList|] == slashList;
  }
}
