/** The genesis distribution: the vault is funded with the whole allocation and emptied into the allocation addresses. */
module GenesisVault {
  import opened Basics
  import opened Accounts
  import opened Execution

  const EMPTY := Ledger(map[], 0)

  function Amount(a: Allocation): nat {
    if a.balance.Some? then a.balance.value else 0
  }

  /** Everything allocated to an address. */
  function AllocatedTo(allocations: seq<Allocation>, address: string): nat {
    if allocations == [] then 0
    else
      var last := allocations[|allocations| - 1];
      AllocatedTo(allocations[..|allocations| - 1], address) + (if last.address == address then Amount(last) else 0)
  }

  lemma {:induction false} TotalPrefix(allocations: seq<Allocation>, n: nat)
    requires n <= |allocations|
    ensures TotalAllocated(allocations[..n]) <= TotalAllocated(allocations)
    decreases |allocations|
  {
    if n < |allocations| {
      assert allocations[..|allocations| - 1][..n] == allocations[..n];
      TotalPrefix(allocations[..|allocations| - 1], n);
    } else {
      assert allocations[..n] == allocations;
    }
  }

  /** A vault that holds at least the total can pay out every allocation. */
  lemma {:induction false} DistributePays(l: Ledger, allocations: seq<Allocation>)
    requires Get(l, VAULT).balance >= TotalAllocated(allocations)
    requires forall i :: 0 <= i < |allocations| ==> allocations[i].address != VAULT
    ensures var (l', ok) := Distribute(l, allocations);
            && ok && l'.supply == l.supply
            && Get(l', VAULT).balance == Get(l, VAULT).balance - TotalAllocated(allocations)
            && (forall a :: a != VAULT ==> Get(l', a).balance == Get(l, a).balance + AllocatedTo(allocations, a))
  {
    if allocations != [] {
      TotalPrefix(allocations, |allocations| - 1);
      DistributePays(l, allocations[..|allocations| - 1]);
    }
  }

  lemma {:induction false} FundingIsSkipped(l: Ledger, txs: seq<Tx>, b: Block, cfg: Config)
    requires forall i :: 0 <= i < |txs| ==> txs[i].sender == GENESIS_SENDER
    ensures ApplyAll(l, txs, b, cfg) == (l, true)
  {
    if txs != [] { FundingIsSkipped(l, txs[..|txs| - 1], b, cfg); }
  }

  lemma {:induction false} FirstCounts(allocations: seq<Allocation>)
    requires allocations != []
    ensures AllocatedTo(allocations, allocations[0].address) >= Amount(allocations[0])
  {
    if |allocations| > 1 { FirstCounts(allocations[..|allocations| - 1]); }
  }

  /** With distinct addresses an address gets its own allocation. */
  lemma {:induction false} OwnAllocation(allocations: seq<Allocation>, i: nat)
    requires i < |allocations|
    requires forall j, k :: 0 <= j < k < |allocations| ==> allocations[j].address != allocations[k].address
    ensures AllocatedTo(allocations, allocations[i].address) == Amount(allocations[i])
  {
    var init := allocations[..|allocations| - 1];
    if i < |init| { OwnAllocation(init, i); }
    else { NoAllocation(init, allocations[i].address); }
  }

  lemma {:induction false} NoAllocation(allocations: seq<Allocation>, address: string)
    requires forall i :: 0 <= i < |allocations| ==> allocations[i].address != address
    ensures AllocatedTo(allocations, address) == 0
  {
    if allocations != [] { NoAllocation(allocations[..|allocations| - 1], address); }
  }

  /** The block that BuildBlock makes: height zero, the vault as proposer, funding transactions only. */
  ghost predicate IsGenesis(b: Block) {
    b.height == 0 && b.proposer == VAULT && forall i :: 0 <= i < |b.txs| ==> b.txs[i].sender == GENESIS_SENDER
  }

  ghost predicate NoVault(allocations: seq<Allocation>) {
    forall i :: 0 <= i < |allocations| ==> allocations[i].address != VAULT
  }

  /** A run that is not stopped by the guard mints the total and hands all of it out. */
  lemma RunPays(l: Ledger, genesis: Block, cfg: Config)
    requires IsGenesis(genesis) && cfg.hasParams && NoVault(cfg.allocations)
    requires !AlreadyDistributed(l, cfg) && Get(l, VAULT).balance >= 0
    ensures var (l', ok) := ExecuteGenesis(l, genesis, cfg, true, true);
            && ok && Get(l', VAULT).balance == Get(l, VAULT).balance && l'.supply == l.supply + TotalAllocated(cfg.allocations)
            && (forall a :: a != VAULT ==> Get(l', a).balance == Get(l, a).balance + AllocatedTo(cfg.allocations, a))
  {
    FundingIsSkipped(l, genesis.txs, genesis, cfg);
    var funded := MintReward(l, genesis, cfg);
    assert Execute(l, genesis, cfg) == Some(funded);
    assert forall a :: a != VAULT ==> Get(funded, a).balance == Get(l, a).balance;
    DistributePays(funded, cfg.allocations);
  }

  /** Property: on an empty store the vault ends at zero, every address holds what was allocated to it and nothing
      else exists, the supply is the total, and a second run changes nothing. */
  lemma GenesisDistribution(genesis: Block, cfg: Config)
    requires IsGenesis(genesis) && cfg.hasParams && cfg.allocations != [] && Amount(cfg.allocations[0]) > 0
    requires NoVault(cfg.allocations)
    ensures var (l, ok) := ExecuteGenesis(EMPTY, genesis, cfg, true, true);
            && ok && Get(l, VAULT).balance == 0 && l.supply == TotalAllocated(cfg.allocations)
            && (forall a :: a != VAULT ==> Get(l, a).balance == AllocatedTo(cfg.allocations, a))
            && ExecuteGenesis(l, genesis, cfg, true, true) == (l, true)
  {
    RunPays(EMPTY, genesis, cfg);
    FirstCounts(cfg.allocations);
  }

  /** Property, exactly: the second run mints nothing if and only if the first allocation address received something or
      there is nothing to mint. */
  lemma SecondRunExact(genesis: Block, cfg: Config)
    requires IsGenesis(genesis) && cfg.hasParams && NoVault(cfg.allocations)
    ensures var once := ExecuteGenesis(EMPTY, genesis, cfg, true, true).0;
            ExecuteGenesis(once, genesis, cfg, true, true).0.supply == once.supply <==>
              || TotalAllocated(cfg.allocations) == 0
              || AllocatedTo(cfg.allocations, cfg.allocations[0].address) > 0
  {
    var once := ExecuteGenesis(EMPTY, genesis, cfg, true, true).0;
    RunPays(EMPTY, genesis, cfg);
    if !AlreadyDistributed(once, cfg) { RunPays(once, genesis, cfg); }
  }

  /** So without a positive first allocation the supply can be minted twice. */
  lemma SecondRunMints(genesis: Block, cfg: Config)
    requires IsGenesis(genesis) && cfg.hasParams && cfg.allocations == [Allocation("a", None), Allocation("b", Some(1))]
    ensures var once := ExecuteGenesis(EMPTY, genesis, cfg, true, true).0;
            ExecuteGenesis(once, genesis, cfg, true, true).0.supply != once.supply
  {
    var all := cfg.allocations;
    var one := [Allocation("a", None)];
    assert all[..1] == one && one[..0] == [];
    assert TotalAllocated(one) == TotalAllocated([]) && TotalAllocated(all) == TotalAllocated(one) + 1;
    assert AllocatedTo(one, "a") == AllocatedTo([], "a") && AllocatedTo(all, "a") == AllocatedTo(one, "a");
    SecondRunExact(genesis, cfg);
  }

  /** A run whose payout is not written leaves the whole total in the vault. */
  lemma InterruptedRun(genesis: Block, cfg: Config)
    requires IsGenesis(genesis) && cfg.hasParams && NoVault(cfg.allocations)
    ensures var (l, ok) := ExecuteGenesis(EMPTY, genesis, cfg, true, false);
            && !ok && Get(l, VAULT).balance == TotalAllocated(cfg.allocations) == l.supply
            && (forall a :: a != VAULT ==> Get(l, a) == ZERO)
  {
    FundingIsSkipped(EMPTY, genesis.txs, genesis, cfg);
    assert Execute(EMPTY, genesis, cfg) == Some(MintReward(EMPTY, genesis, cfg));
  }

  /** Property, exactly: a first run in which either write may fail and a second one in which both succeed mint the total
      once if and only if there is nothing to mint, the first run wrote nothing, or it wrote everything and the first
      allocation address received something. A payout that fails to be written makes the next run mint again. */
  lemma RetryExact(genesis: Block, cfg: Config, funds: bool, pays: bool)
    requires IsGenesis(genesis) && cfg.hasParams && NoVault(cfg.allocations)
    ensures var once := ExecuteGenesis(EMPTY, genesis, cfg, funds, pays).0;
            var twice := ExecuteGenesis(once, genesis, cfg, true, true).0;
            twice.supply == TotalAllocated(cfg.allocations) <==>
              || TotalAllocated(cfg.allocations) == 0
              || !funds
              || (pays && AllocatedTo(cfg.allocations, cfg.allocations[0].address) > 0)
  {
    RunPays(EMPTY, genesis, cfg);
    if funds && pays {
      SecondRunExact(genesis, cfg);
    } else if funds {
      InterruptedRun(genesis, cfg);
      RunPays(ExecuteGenesis(EMPTY, genesis, cfg, true, false).0, genesis, cfg);
    }
  }
}
