/** The executor as it runs (src/core/executor.go): loops over transactions and attestors that update balances, nonces
    and supply through a StateDB, proved to compute the functions of module Execution. */
module Executor {
  import opened Basics
  import opened Merkle
  import opened Accounts
  import opened StateDb
  import opened Execution

  /** The deduplication loop of both reward paths. */
  method UniqueAttestors(attestors: seq<string>, proposer: string) returns (unique: seq<string>)
    ensures unique == Unique(attestors, proposer)
  {
    var seen: set<string> := {};
    unique := [];
    for i := 0 to |attestors|
      invariant unique == Unique(attestors[..i], proposer)
      invariant forall id :: id in seen <==> id in unique
    {
      assert attestors[..i + 1][..i] == attestors[..i];
      var id := attestors[i];
      if id != "" && id != proposer && id !in seen {
        seen := seen + {id};
        unique := unique + [id];
      }
    }
    assert attestors[..|attestors|] == attestors;
  }

  method PayAttestors(s: StateDB, ids: seq<string>, amount: int)
    requires s.db.Valid()
    modifies s`pending
    ensures s.View() == PayEach(old(s.View()), ids, amount)
  {
    for i := 0 to |ids|
      invariant s.View() == PayEach(old(s.View()), ids[..i], amount)
    {
      assert ids[..i + 1][..i] == ids[..i];
      s.AddBalance(ids[i], amount);
    }
    assert ids[..|ids|] == ids;
  }

  method DistributeGasFee(s: StateDB, fee: int, b: Block, cfg: Config)
    requires s.db.Valid()
    modifies s
    ensures s.View() == DistributeFee(old(s.View()), fee, b, cfg)
  {
    if fee <= 0 || b.proposer == "" { return; }
    var burn := fee * 70 / 100;
    var proposerAmount := fee * 10 / 100;
    var pool := fee - (burn + proposerAmount);
    s.DecrementTotalSupply(burn);
    s.AddBalance(b.proposer, proposerAmount);
    var unique := UniqueAttestors(Capped(b.attestors, cfg), b.proposer);
    SharePool(s, pool, b.proposer, unique);
  }

  /** Equal parts to the attestors, the remainder to the proposer. */
  method SharePool(s: StateDB, pool: int, proposer: string, unique: seq<string>)
    requires s.db.Valid()
    modifies s`pending
    ensures s.View() == Share(old(s.View()), pool, proposer, unique)
  {
    if |unique| > 0 && pool > 0 {
      var perAttestor, remainder := pool / |unique|, pool % |unique|;
      PayAttestors(s, unique, perAttestor);
      if remainder > 0 { s.AddBalance(proposer, remainder); }
    } else {
      s.AddBalance(proposer, pool);
    }
  }

  lemma {:induction false} PayNothing(l: Ledger, ids: seq<string>)
    ensures PayEach(l, ids, 0) == l
  {
    if ids != [] { PayNothing(l, ids[..|ids| - 1]); }
  }

  method MintBlockReward(s: StateDB, b: Block, cfg: Config)
    requires s.db.Valid()
    modifies s
    ensures s.View() == MintReward(old(s.View()), b, cfg)
  {
    if !cfg.hasParams || b.proposer == "" { return; }
    if b.height == 0 {
      var genesisReward := SumAllocations(cfg.allocations);
      s.AddBalance(b.proposer, genesisReward);
      s.IncrementTotalSupply(genesisReward);
      return;
    }
    if b.height == 1 || cfg.baseReward.None? || cfg.baseReward.value <= 0 { return; }
    var reward := cfg.baseReward.value;
    if s.totalSupply + reward > MAX_SUPPLY {
      var remaining := MAX_SUPPLY - s.totalSupply;
      if remaining <= 0 { return; }
      reward := remaining;
    }
    SplitReward(s, reward, b, cfg);
  }

  method SumAllocations(allocations: seq<Allocation>) returns (total: nat)
    ensures total == TotalAllocated(allocations)
  {
    total := 0;
    for i := 0 to |allocations|
      invariant total == TotalAllocated(allocations[..i])
    {
      assert allocations[..i + 1][..i] == allocations[..i];
      if allocations[i].balance.Some? { total := total + allocations[i].balance.value; }
    }
    assert allocations[..|allocations|] == allocations;
  }

  /** 40 percent to the proposer, the rest to the attestors. */
  method SplitReward(s: StateDB, reward: int, b: Block, cfg: Config)
    requires s.db.Valid() && reward > 0
    modifies s
    ensures s.View() == ShareReward(old(s.View()), reward, b, cfg)
  {
    var proposerShare := reward * 40 / 100;
    var pool := reward - proposerShare;
    s.AddBalance(b.proposer, proposerShare);
    s.IncrementTotalSupply(reward);
    var unique := UniqueAttestors(Capped(b.attestors, cfg), b.proposer);
    if |unique| > 0 {
      ghost var before := s.View();
      PayAttestors(s, unique, pool / |unique|);
      PayNothing(before, unique);
      if pool % |unique| > 0 { s.AddBalance(b.proposer, pool % |unique|); }
    } else {
      s.AddBalance(b.proposer, pool);
    }
  }

  method ApplyTransaction(s: StateDB, tx: Tx, b: Block, cfg: Config) returns (outcome: Outcome)
    requires s.db.Valid()
    modifies s, s.db
    ensures s.db.Valid() && s.db.ledger == old(s.db.ledger) && KeepsCanonical(old(s.db.data), s.db.data)
    ensures (s.View(), outcome) == ApplyTx(old(s.View()), tx, b, cfg)
  {
    if tx.sender == GENESIS_SENDER { return Skipped; }
    if !Sane(tx) { return Refused; }
    if tx.receiver == VAULT { return Refused; }
    var signed := CheckSignature(s, tx, cfg);
    if !signed { return Refused; }
    var numbered := CheckNonce(s, tx, cfg);
    if !numbered { return Refused; }
    outcome := ChargeSender(s, tx, b, cfg);
  }

  /** The nonce stage: strict modes insist on the expected nonce, the others jump to the given one. */
  method CheckNonce(s: StateDB, tx: Tx, cfg: Config) returns (ok: bool)
    requires s.db.Valid()
    modifies s`pending
    ensures ok == NonceAccepted(old(s.View()), tx, cfg)
    ensures s.View() == if ok then AlignNonce(old(s.View()), tx) else old(s.View())
  {
    var expected := s.GetNonce(tx.sender);
    if tx.nonce != expected {
      if !Lenient(cfg) && !cfg.peerSync { return false; }
      s.SetNonce(tx.sender, tx.nonce);
    }
    return true;
  }

  /** Debits the sender, or lets an unfunded one through where that is allowed, and settles. */
  method ChargeSender(s: StateDB, tx: Tx, b: Block, cfg: Config) returns (outcome: Outcome)
    requires s.db.Valid() && tx.amount.Some?
    modifies s
    ensures var l, cost := old(s.View()), OrZero(tx.amount) + GasFee(tx);
            (s.View(), outcome) ==
              if Get(l, tx.sender).balance >= cost then (Settle(SubBalance(l, tx.sender, cost).0, tx, b, cfg), Funded)
              else if Lenient(cfg) then (Settle(l, tx, b, cfg), Unfunded) else (l, Refused)
  {
    var totalCost := tx.amount.value + GasFee(tx);
    var balance := s.GetBalance(tx.sender);
    if balance < totalCost {
      if !Lenient(cfg) { return Refused; }
      SettleTransaction(s, tx, b, cfg);
      return Unfunded;
    }
    var ok := s.SubBalance(tx.sender, totalCost);
    if !ok { return Refused; }
    SettleTransaction(s, tx, b, cfg);
    return Funded;
  }

  /** Credit the receiver, share out the fee, advance the sender's nonce. */
  method SettleTransaction(s: StateDB, tx: Tx, b: Block, cfg: Config)
    requires s.db.Valid()
    modifies s
    ensures s.View() == Settle(old(s.View()), tx, b, cfg)
  {
    s.AddBalance(tx.receiver, OrZero(tx.amount));
    DistributeGasFee(s, GasFee(tx), b, cfg);
    s.IncrementNonce(tx.sender);
  }

  /** The signature stage: refuses the transaction or lets it pass, recording a new public key on the way. */
  method CheckSignature(s: StateDB, tx: Tx, cfg: Config) returns (ok: bool)
    requires s.db.Valid()
    modifies s.db
    ensures s.db.Valid() && s.db.ledger == old(s.db.ledger) && s.View() == old(s.View())
    ensures KeepsCanonical(old(s.db.data), s.db.data)
    ensures ok == SignatureAccepted(tx, cfg)
  {
    match tx.signature
    case Unchecked => return true;
    case NoKey => return cfg.hasParams && cfg.devnetChain;
    case Bad => return false;
    case Good(key) =>
      s.RegisterPublicKey(tx.sender, key);
      return true;
  }

  method ApplyTransactions(s: StateDB, b: Block, cfg: Config) returns (ok: bool)
    requires s.db.Valid()
    modifies s, s.db
    ensures s.db.Valid() && s.db.ledger == old(s.db.ledger) && KeepsCanonical(old(s.db.data), s.db.data)
    ensures (s.View(), ok) == ApplyAll(old(s.View()), b.txs, b, cfg)
  {
    ghost var start, data := s.View(), s.db.data;
    var i := 0;
    while i < |b.txs|
      invariant i <= |b.txs| && s.db.Valid() && s.db.ledger == old(s.db.ledger) && KeepsCanonical(data, s.db.data)
      invariant ApplyAll(start, b.txs[..i], b, cfg) == (s.View(), true)
    {
      OneTxMore(start, b.txs, i, b, cfg);
      var outcome := ApplyTransaction(s, b.txs[i], b, cfg);
      if outcome.Refused? {
        RefusalIsFinal(start, b.txs, i + 1, b, cfg);
        return false;
      }
      i := i + 1;
    }
    assert b.txs[..|b.txs|] == b.txs;
    return true;
  }

  lemma OneTxMore(l: Ledger, txs: seq<Tx>, i: nat, b: Block, cfg: Config)
    requires i < |txs| && ApplyAll(l, txs[..i], b, cfg).1
    ensures var step := ApplyTx(ApplyAll(l, txs[..i], b, cfg).0, txs[i], b, cfg);
            ApplyAll(l, txs[..i + 1], b, cfg) == (step.0, !step.1.Refused?)
  {
    assert txs[..i + 1][..i] == txs[..i];
  }

  /** Nothing after a refused transaction is looked at. */
  lemma {:induction false} RefusalIsFinal(l: Ledger, txs: seq<Tx>, n: nat, b: Block, cfg: Config)
    requires n <= |txs| && !ApplyAll(l, txs[..n], b, cfg).1
    ensures ApplyAll(l, txs, b, cfg) == ApplyAll(l, txs[..n], b, cfg)
    decreases |txs|
  {
    if n < |txs| {
      assert txs[..|txs| - 1][..n] == txs[..n];
      RefusalIsFinal(l, txs[..|txs| - 1], n, b, cfg);
    } else {
      assert txs[..n] == txs;
    }
  }

  /** Property: a refused transaction or a failed write leaves the stored accounts and supply as they were; otherwise
      the store holds exactly the executed ledger and the returned root is its state root. */
  method ExecuteBlock(db: Store, b: Block, cfg: Config, ioOk: bool) returns (root: Option<Digest>)
    requires db.Valid()
    modifies db
    ensures db.Valid() && KeepsCanonical(old(db.data), db.data)
    ensures root.Some? <==> Execute(old(db.ledger), b, cfg).Some? && ioOk
    ensures root.None? ==> db.ledger == old(db.ledger)
    ensures root.Some? ==> Some(db.ledger) == Execute(old(db.ledger), b, cfg) && root == Some(StateRoot(db.data))
    ensures root.Some? && old(Canonical(db.data)) ==> root == Some(TableRoot(db.ledger.accounts))
  {
    var s := new StateDB(db);
    var ok := ApplyTransactions(s, b, cfg);
    if !ok { return None; }
    MintBlockReward(s, b, cfg);
    root := s.Commit(ioOk);
  }

  /** The two writes of a genesis run, the funding of the vault and the payout, can each fail. */
  method ExecuteGenesisBlock(db: Store, genesis: Block, cfg: Config, funds: bool, pays: bool) returns (ok: bool)
    requires db.Valid()
    modifies db
    ensures db.Valid() && KeepsCanonical(old(db.data), db.data)
    ensures (db.ledger, ok) == ExecuteGenesis(old(db.ledger), genesis, cfg, funds, pays)
  {
    var s := new StateDB(db);
    if |cfg.allocations| > 0 {
      var first := s.GetBalance(cfg.allocations[0].address);
      if first > 0 { return true; }
    }
    var root := ExecuteBlock(db, genesis, cfg, funds);
    if root.None? { return false; }
    var s2 := new StateDB(db);
    ok := DistributeVault(s2, cfg.allocations);
    if !ok { return false; }
    var distributed := s2.Commit(pays);
    return distributed.Some?;
  }

  method DistributeVault(s: StateDB, allocations: seq<Allocation>) returns (ok: bool)
    requires s.db.Valid()
    modifies s
    ensures (s.View(), ok) == Distribute(old(s.View()), allocations)
  {
    ghost var start := s.View();
    var i := 0;
    while i < |allocations|
      invariant i <= |allocations| && s.db.Valid()
      invariant Distribute(start, allocations[..i]) == (s.View(), true)
    {
      OneAllocationMore(start, allocations, i);
      ok := PayAllocation(s, allocations[i]);
      if !ok {
        ShortfallIsFinal(start, allocations, i + 1);
        return;
      }
      i := i + 1;
    }
    assert allocations[..|allocations|] == allocations;
    return true;
  }

  method PayAllocation(s: StateDB, alloc: Allocation) returns (ok: bool)
    requires s.db.Valid()
    modifies s`pending
    ensures (s.View(), ok) == PayOut(old(s.View()), alloc)
  {
    if alloc.balance.None? || alloc.balance.value <= 0 { return true; }
    ok := s.SubBalance(VAULT, alloc.balance.value);
    if !ok { return; }
    s.AddBalance(alloc.address, alloc.balance.value);
  }

  lemma OneAllocationMore(l: Ledger, allocations: seq<Allocation>, i: nat)
    requires i < |allocations| && Distribute(l, allocations[..i]).1
    ensures Distribute(l, allocations[..i + 1]) == PayOut(Distribute(l, allocations[..i]).0, allocations[i])
  {
    assert allocations[..i + 1][..i] == allocations[..i];
  }

  lemma {:induction false} ShortfallIsFinal(l: Ledger, allocations: seq<Allocation>, n: nat)
    requires n <= |allocations| && !Distribute(l, allocations[..n]).1
    ensures Distribute(l, allocations) == Distribute(l, allocations[..n])
    decreases |allocations|
  {
    if n < |allocations| {
      assert allocations[..|allocations| - 1][..n] == allocations[..n];
      ShortfallIsFinal(l, allocations[..|allocations| - 1], n);
    } else {
      assert allocations[..n] == allocations;
    }
  }
}
