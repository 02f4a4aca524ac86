/** What each operation on the validator registry does, at the end of any run of operations. */
module Registrations {
  import opened Basics
  import opened Sums
  import opened Ordering
  import opened Staking

  /** All records but that of `id` are as before, and so is the minimum. */
  ghost predicate OthersKept(r: Registry, r': Registry, id: string) {
    && r'.min == r.min
    && forall o | o != id ::
         (o in r'.validators <==> o in r.validators) && (o in r.validators ==> r'.validators[o] == r.validators[o])
  }

  function StakeOf(r: Registry, id: string): int {
    if id in r.validators then r.validators[id].stake else 0
  }

  /** Active in plain words: recorded, not slashed, activated, and not yet past its exit. */
  lemma ActiveExactly(r: Registry, epoch: nat, id: string)
    ensures id in ActiveIds(r, epoch) <==>
            && id in r.validators && !r.validators[id].isSlashed && r.validators[id].activationEpoch <= epoch
            && (r.validators[id].exitEpoch == 0 || epoch < r.validators[id].exitEpoch)
    ensures Ascending(Before, ActiveIds(r, epoch))
  {
  }

  lemma RunEnds(start: Registry, ops: seq<Operation>, op: Operation)
    ensures Run(start, ops + [op]) == Apply(Run(start, ops), op)
  {
    assert (ops + [op])[..|ops|] == ops;
  }

  /** The whole coins of a call as the source reads them: a signed 64-bit number, in the smallest unit. */
  function Coins(given: uint64): int {
    (if given < 0x8000_0000_0000_0000 then given else given - 0x1_0000_0000_0000_0000) * 1_000_000_000_000_000_000
  }

  /** Property: after a deletion there is no record, the validator is in no active list, and its stake has left the total. */
  lemma DeleteDeletes(start: Registry, ops: seq<Operation>, id: string, epoch: nat)
    ensures var r, r' := Run(start, ops), Run(start, ops + [Delete(id)]);
            && id !in r'.validators && id !in ActiveIds(r', epoch) && OthersKept(r, r', id)
            && r'.total == r.total - StakeOf(r, id)
  {
    RunEnds(start, ops, Delete(id));
  }

  /** A deleted validator weighs nothing in any set of voters. */
  lemma DeletedWeighsNothing(start: Registry, ops: seq<Operation>, id: string, voters: set<string>)
    ensures var r, r' := Run(start, ops), Run(start, ops + [Delete(id)]);
            Weight(Stakes(r'), voters) == Weight(Stakes(r), voters - {id})
  {
    DeleteDeletes(start, ops, id, 0);
    var r, r' := Run(start, ops), Run(start, ops + [Delete(id)]);
    assert (map k | k in Stakes(r') && k in voters :: Stakes(r')[k])
        == (map k | k in Stakes(r) && k in voters - {id} :: Stakes(r)[k]);
  }

  /** Property: after leaving, a validator is active at no epoch from 1 on, weighs nothing, and its stake has left the
      total; an unknown one changes nothing. */
  lemma UnregisterRetires(start: Registry, ops: seq<Operation>, id: string, epoch: nat)
    requires epoch >= 1
    ensures var r, r' := Run(start, ops), Run(start, ops + [Unregister(id)]);
            && id !in ActiveIds(r', epoch) && OthersKept(r, r', id)
            && (id in r'.validators <==> id in r.validators) && StakeOf(r', id) == 0
            && r'.total == r.total - StakeOf(r, id)
  {
    RunEnds(start, ops, Unregister(id));
    ActiveExactly(Run(start, ops + [Unregister(id)]), epoch, id);
  }

  /** Property: an addition below the minimum changes nothing; any other sets exactly the given stake, keeps the rest of a
      known record, and makes a new validator active at every epoch. */
  lemma AddRecords(start: Registry, ops: seq<Operation>, id: string, given: uint64, epoch: nat)
    ensures var r, r' := Run(start, ops), Run(start, ops + [Add(id, given)]);
            if Coins(given) < r.min then r' == r
            else
              && OthersKept(r, r', id) && id in r'.validators && r'.total == r.total - StakeOf(r, id) + Coins(given)
              && (id in r.validators ==> r'.validators[id] == r.validators[id].(stake := Coins(given)))
              && (id !in r.validators ==> r'.validators[id].stake == Coins(given) && id in ActiveIds(r', epoch))
  {
    RunEnds(start, ops, Add(id, given));
    ActiveExactly(Run(start, ops + [Add(id, given)]), epoch, id);
  }

  /** Property: a registration without identifier or address or below the minimum changes nothing; any other sets exactly
      the given stake and address and a given key, and lifts a slashing. A new validator is active at every epoch, a known
      one within its activation and exit. */
  lemma RegisterRecords(start: Registry, ops: seq<Operation>, id: string, key: string, given: uint64, address: string,
                        epoch: nat)
    ensures var r, r' := Run(start, ops), Run(start, ops + [Register(id, key, given, address)]);
            if id == "" || address == "" || Coins(given) < r.min then r' == r
            else
              && OthersKept(r, r', id) && id in r'.validators && r'.total == r.total - StakeOf(r, id) + Coins(given)
              && var v := r'.validators[id];
                 && v.stake == Coins(given) && v.nodeAddress == address && !v.isSlashed
                 && (key != "" ==> v.pubKey == key)
                 && (id !in r.validators ==> v.pubKey == key && id in ActiveIds(r', epoch))
                 && (id in r.validators ==>
                       && (key == "" ==> v.pubKey == r.validators[id].pubKey)
                       && (id in ActiveIds(r', epoch) <==>
                             && r.validators[id].activationEpoch <= epoch
                             && (r.validators[id].exitEpoch == 0 || epoch < r.validators[id].exitEpoch)))
  {
    RunEnds(start, ops, Register(id, key, given, address));
    ActiveExactly(Run(start, ops + [Register(id, key, given, address)]), epoch, id);
  }

  /** A validator that has left does not come back: registering again restores its stake and its weight but not its place
      among the active ones. Exactly: after an accepted registration it is active from epoch 1 on if and only if it was
      unknown or has not left. */
  lemma ComebackExactly(min: int, ops: seq<Operation>, id: string, key: string, given: uint64, address: string, epoch: nat)
    requires epoch >= 1 && id != "" && address != "" && Coins(given) >= min
    ensures var r, r' := Run(Registry(EMPTY, 0, min), ops), Run(Registry(EMPTY, 0, min), ops + [Register(id, key, given, address)]);
            && StakeOf(r', id) == Coins(given)
            && (id in ActiveIds(r', epoch) <==> id in r.validators ==> r.validators[id].exitEpoch == 0)
  {
    LedgerHolds(min, ops);
    RegisterRecords(Registry(EMPTY, 0, min), ops, id, key, given, address, epoch);
  }

  lemma NoComeback(id: string, address: string, epoch: nat)
    requires epoch >= 1 && id != "" && address != ""
    ensures var r := Run(Registry(EMPTY, 0, 0), [Add(id, 1), Unregister(id), Register(id, "", 1, address)]);
            StakeOf(r, id) == 1_000_000_000_000_000_000 && id !in ActiveIds(r, epoch)
  {
    var start, once := Registry(EMPTY, 0, 0), [Add(id, 1)];
    var twice := once + [Unregister(id)];
    AddRecords(start, [], id, 1, 0);
    assert [] + [Add(id, 1)] == once;
    UnregisterRetires(start, once, id, 1);
    RunEnds(start, once, Unregister(id));
    assert Run(start, twice).validators[id].exitEpoch == 1;
    ComebackExactly(0, twice, id, "", 1, address, epoch);
    assert twice + [Register(id, "", 1, address)] == [Add(id, 1), Unregister(id), Register(id, "", 1, address)];
  }

  /** Property: a slash takes the given basis points of the stake, rounded down, from the validator and from the total,
      and bars it if it falls below the minimum; an unknown one changes nothing. */
  lemma SlashDeducts(start: Registry, ops: seq<Operation>, id: string, bps: uint64)
    ensures var r, r' := Run(start, ops), Run(start, ops + [Slash(id, bps)]);
            if id !in r.validators then r' == r
            else
              var penalty := r.validators[id].stake * bps / 10000;
              && OthersKept(r, r', id) && id in r'.validators && r'.total == r.total - penalty
              && r'.validators[id].stake == r.validators[id].stake - penalty
              && (r'.validators[id].isSlashed <==> r.validators[id].isSlashed || r.validators[id].stake - penalty < r.min)
              && r'.validators[id].exitEpoch == r.validators[id].exitEpoch
  {
    RunEnds(start, ops, Slash(id, bps));
  }
}
