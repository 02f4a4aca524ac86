/** Money over whole runs of blocks: the ledger equation, the supply cap, and the distribution to attestors. */
module Conservation {
  import opened Basics
  import opened Sums
  import opened Ordering
  import opened Records
  import opened Accounts
  import opened Execution

  ghost function Balances(l: Ledger): map<string, int> {
    map a | a in l.accounts :: l.accounts[a].balance
  }

  /** The sum of all balances. */
  ghost function Total(l: Ledger): int {
    Sum(Balances(l))
  }

  /** Coins held but not tracked by the supply counter. */
  ghost function Imbalance(l: Ledger): int {
    Total(l) - l.supply
  }

  // ---------------------------------------------------------------- single updates

  lemma PutTotal(l: Ledger, address: string, a: Account)
    ensures Total(Put(l, address, a)) == Total(l) + a.balance - Get(l, address).balance
  {
    SumUpdate(Balances(l), address, a.balance);
    assert Balances(Put(l, address, a)) == Balances(l)[address := a.balance];
  }

  lemma AddBalanceTotal(l: Ledger, address: string, amount: int)
    requires amount >= 0
    ensures Total(AddBalance(l, address, amount)) == Total(l) + amount
    ensures AddBalance(l, address, amount).supply == l.supply
  {
    PutTotal(l, address, Get(l, address).(balance := Get(l, address).balance + amount));
  }

  lemma {:induction false} PayEachTotal(l: Ledger, ids: seq<string>, amount: int)
    requires amount >= 0
    ensures Total(PayEach(l, ids, amount)) == Total(l) + |ids| * amount
    ensures PayEach(l, ids, amount).supply == l.supply
  {
    if ids != [] {
      PayEachTotal(l, ids[..|ids| - 1], amount);
      AddBalanceTotal(PayEach(l, ids[..|ids| - 1], amount), ids[|ids| - 1], amount);
    }
  }

  /** Sharing a pool hands out all of it, dust included. */
  lemma ShareTotal(l: Ledger, pool: int, proposer: string, attestors: seq<string>)
    requires pool >= 0
    ensures Total(Share(l, pool, proposer, attestors)) == Total(l) + pool
    ensures Share(l, pool, proposer, attestors).supply == l.supply
  {
    if attestors != [] && pool > 0 {
      var n := |attestors|;
      var each, rest := pool / n, pool % n;
      assert pool == n * each + rest;
      PayEachTotal(l, attestors, each);
      AddBalanceTotal(PayEach(l, attestors, each), proposer, rest);
    } else {
      AddBalanceTotal(l, proposer, pool);
    }
  }

  /** A fee with a proposer is paid out or burned completely; without one it disappears from circulation only. */
  lemma DistributeFeeTotal(l: Ledger, fee: int, b: Block, cfg: Config)
    requires fee >= 0
    ensures Imbalance(DistributeFee(l, fee, b, cfg)) == Imbalance(l) + (if b.proposer != "" then fee else 0)
  {
    if fee > 0 && b.proposer != "" {
      var burn, part := BurnPart(fee), ProposerPart(fee);
      assert 0 <= burn && 0 <= part && burn + part <= fee;
      var l0 := AddSupply(l, -burn);
      assert Balances(l0) == Balances(l);
      AddBalanceTotal(l0, b.proposer, part);
      var l1 := AddBalance(l0, b.proposer, part);
      ShareTotal(l1, fee - (burn + part), b.proposer, Unique(Capped(b.attestors, cfg), b.proposer));
    }
  }

  // ---------------------------------------------------------------- the ledger equation

  function Cost(tx: Tx): int {
    OrZero(tx.amount) + GasFee(tx)
  }

  /** What one transaction adds to the imbalance: its whole cost if it ran unfunded, minus the fee if no proposer
      could receive it. */
  function Drift(tx: Tx, outcome: Outcome, b: Block): int {
    (if outcome.Unfunded? then Cost(tx) else 0) - (if Executed(outcome) && b.proposer == "" then GasFee(tx) else 0)
  }

  lemma SettleTotal(l: Ledger, tx: Tx, b: Block, cfg: Config)
    requires Sane(tx)
    ensures Imbalance(Settle(l, tx, b, cfg))
         == Imbalance(l) + OrZero(tx.amount) + (if b.proposer != "" then GasFee(tx) else 0)
  {
    FeeNonNegative(tx);
    AddBalanceTotal(l, tx.receiver, OrZero(tx.amount));
    var l1 := AddBalance(l, tx.receiver, OrZero(tx.amount));
    DistributeFeeTotal(l1, GasFee(tx), b, cfg);
    var l2 := DistributeFee(l1, GasFee(tx), b, cfg);
    PutTotal(l2, tx.sender, Get(l2, tx.sender).(nonce := (Get(l2, tx.sender).nonce + 1) % U64));
  }

  lemma ChargeTotal(l: Ledger, tx: Tx)
    requires Cost(tx) <= Get(l, tx.sender).balance && Cost(tx) >= 0
    ensures Imbalance(SubBalance(l, tx.sender, Cost(tx)).0) == Imbalance(l) - Cost(tx)
  {
    PutTotal(l, tx.sender, Get(l, tx.sender).(balance := Get(l, tx.sender).balance - Cost(tx)));
  }

  lemma AlignTotal(l: Ledger, tx: Tx)
    ensures Imbalance(AlignNonce(l, tx)) == Imbalance(l)
  {
    PutTotal(l, tx.sender, Get(l, tx.sender).(nonce := tx.nonce));
  }

  lemma ApplyTxDrift(l: Ledger, tx: Tx, b: Block, cfg: Config)
    ensures var (l', outcome) := ApplyTx(l, tx, b, cfg); Imbalance(l') == Imbalance(l) + Drift(tx, outcome, b)
  {
    var l1, outcome := AlignNonce(l, tx), ApplyTx(l, tx, b, cfg).1;
    AlignTotal(l, tx);
    if Executed(outcome) {
      FeeNonNegative(tx);
      if outcome.Funded? {
        ChargeTotal(l1, tx);
        SettleTotal(SubBalance(l1, tx.sender, Cost(tx)).0, tx, b, cfg);
      } else {
        SettleTotal(l1, tx, b, cfg);
      }
    }
  }

  /** The drift of a list of transactions, each judged in the ledger it meets. */
  function DriftAll(l: Ledger, txs: seq<Tx>, b: Block, cfg: Config): int {
    if txs == [] then 0
    else
      var init := txs[..|txs| - 1];
      var before := ApplyAll(l, init, b, cfg);
      if !before.1 then DriftAll(l, init, b, cfg)
      else DriftAll(l, init, b, cfg) + Drift(txs[|txs| - 1], ApplyTx(before.0, txs[|txs| - 1], b, cfg).1, b)
  }

  lemma {:induction false} ApplyAllDrift(l: Ledger, txs: seq<Tx>, b: Block, cfg: Config)
    ensures Imbalance(ApplyAll(l, txs, b, cfg).0) == Imbalance(l) + DriftAll(l, txs, b, cfg)
  {
    if txs != [] {
      var init := txs[..|txs| - 1];
      ApplyAllDrift(l, init, b, cfg);
      ApplyTxDrift(ApplyAll(l, init, b, cfg).0, txs[|txs| - 1], b, cfg);
    }
  }

  /** Minting raises balances and supply by the same amount. */
  lemma MintBalanced(l: Ledger, b: Block, cfg: Config)
    ensures Imbalance(MintReward(l, b, cfg)) == Imbalance(l)
  {
    if cfg.hasParams && b.proposer != "" && b.height == 0 {
      var minted := TotalAllocated(cfg.allocations);
      AddBalanceTotal(l, b.proposer, minted);
      var l1 := AddBalance(l, b.proposer, minted);
      assert Balances(AddSupply(l1, minted)) == Balances(l1);
    } else if MintReward(l, b, cfg) != l {
      var reward := Reward(l.supply, OrZero(cfg.baseReward));
      var share := reward * 40 / 100;
      AddBalanceTotal(l, b.proposer, share);
      var l1 := AddBalance(l, b.proposer, share);
      assert Balances(AddSupply(l1, reward)) == Balances(l1);
      ShareTotal(AddSupply(l1, reward), reward - share, b.proposer, Unique(Capped(b.attestors, cfg), b.proposer));
    }
  }

  /** A run: each block with the mode it is executed in; a refused block leaves the ledger alone. */
  datatype Entry = Entry(block: Block, cfg: Config)

  function After(l: Ledger, e: Entry): Ledger {
    match Execute(l, e.block, e.cfg) case Some(l') => l' case None => l
  }

  function Run(l: Ledger, entries: seq<Entry>): Ledger {
    if entries == [] then l else After(Run(l, entries[..|entries| - 1]), entries[|entries| - 1])
  }

  function EntryDrift(l: Ledger, e: Entry): int {
    if Execute(l, e.block, e.cfg).Some? then DriftAll(l, e.block.txs, e.block, e.cfg) else 0
  }

  function RunDrift(l: Ledger, entries: seq<Entry>): int {
    if entries == [] then 0
    else
      var init := entries[..|entries| - 1];
      RunDrift(l, init) + EntryDrift(Run(l, init), entries[|entries| - 1])
  }

  /** Property, in every mode and for every run: the sum of balances minus the tracked supply changes by exactly the
      amount and gas of the transactions let through unfunded, less the fees of blocks without a proposer. */
  lemma {:induction false} LedgerEquation(l: Ledger, entries: seq<Entry>)
    ensures Imbalance(Run(l, entries)) == Imbalance(l) + RunDrift(l, entries)
  {
    if entries != [] {
      var init, e := entries[..|entries| - 1], entries[|entries| - 1];
      LedgerEquation(l, init);
      var before := Run(l, init);
      ApplyAllDrift(before, e.block.txs, e.block, e.cfg);
      MintBalanced(ApplyAll(before, e.block.txs, e.block, e.cfg).0, e.block, e.cfg);
    }
  }

  lemma {:induction false} DriftSign(l: Ledger, txs: seq<Tx>, b: Block, cfg: Config)
    ensures !Lenient(cfg) ==> DriftAll(l, txs, b, cfg) <= 0
    ensures !Lenient(cfg) && b.proposer != "" ==> DriftAll(l, txs, b, cfg) == 0
  {
    if txs != [] {
      var init, tx := txs[..|txs| - 1], txs[|txs| - 1];
      DriftSign(l, init, b, cfg);
      if ApplyAll(l, init, b, cfg).1 && Executed(ApplyTx(ApplyAll(l, init, b, cfg).0, tx, b, cfg).1) {
        FeeNonNegative(tx);
      }
    }
  }

  /** Property: outside devnet and dev-mode the imbalance never grows, and with proposers on every block it is
      constant. */
  lemma {:induction false} StrictConservation(l: Ledger, entries: seq<Entry>)
    requires forall i :: 0 <= i < |entries| ==> !Lenient(entries[i].cfg)
    ensures Imbalance(Run(l, entries)) <= Imbalance(l)
    ensures (forall i :: 0 <= i < |entries| ==> entries[i].block.proposer != "") ==> Imbalance(Run(l, entries)) == Imbalance(l)
  {
    if entries != [] {
      var init, e := entries[..|entries| - 1], entries[|entries| - 1];
      StrictConservation(l, init);
      LedgerEquation(Run(l, init), [e]);
      assert [e][..0] == [];
      assert Run(Run(l, init), [e]) == Run(l, entries);
      DriftSign(Run(l, init), e.block.txs, e.block, e.cfg);
    }
  }

  // ---------------------------------------------------------------- the supply cap

  lemma FeesNeverMint(l: Ledger, fee: int, b: Block, cfg: Config)
    ensures DistributeFee(l, fee, b, cfg).supply <= l.supply
  {
    if fee > 0 && b.proposer != "" {
      var burn, part := BurnPart(fee), ProposerPart(fee);
      assert 0 <= burn && burn + part <= fee;
      ShareTotal(AddBalance(AddSupply(l, -burn), b.proposer, part), fee - (burn + part), b.proposer,
                 Unique(Capped(b.attestors, cfg), b.proposer));
    }
  }

  lemma {:induction false} TransactionsNeverMint(l: Ledger, txs: seq<Tx>, b: Block, cfg: Config)
    ensures ApplyAll(l, txs, b, cfg).0.supply <= l.supply
  {
    if txs != [] {
      var init, tx := txs[..|txs| - 1], txs[|txs| - 1];
      TransactionsNeverMint(l, init, b, cfg);
      var l1 := AlignNonce(ApplyAll(l, init, b, cfg).0, tx);
      FeesNeverMint(AddBalance(l1, tx.receiver, OrZero(tx.amount)), GasFee(tx), b, cfg);
      FeesNeverMint(AddBalance(SubBalance(l1, tx.sender, Cost(tx)).0, tx.receiver, OrZero(tx.amount)), GasFee(tx), b, cfg);
    }
  }

  lemma MintRespectsCap(l: Ledger, b: Block, cfg: Config)
    requires l.supply <= MAX_SUPPLY && b.height >= 1
    ensures MintReward(l, b, cfg).supply <= MAX_SUPPLY
  {
    var reward := Reward(l.supply, OrZero(cfg.baseReward));
    if reward > 0 {
      var share := reward * 40 / 100;
      ShareTotal(AddSupply(AddBalance(l, b.proposer, share), reward), reward - share, b.proposer,
                 Unique(Capped(b.attestors, cfg), b.proposer));
    }
  }

  /** Property: no sequence of blocks above genesis takes the tracked supply over the cap, and outside devnet and
      dev-mode the sum of all balances stays under it too. */
  lemma {:induction false} SupplyCap(l: Ledger, entries: seq<Entry>)
    requires l.supply <= MAX_SUPPLY
    requires forall i :: 0 <= i < |entries| ==> entries[i].block.height >= 1
    ensures Run(l, entries).supply <= MAX_SUPPLY
    ensures Imbalance(l) <= 0 && (forall i :: 0 <= i < |entries| ==> !Lenient(entries[i].cfg))
            ==> Total(Run(l, entries)) <= MAX_SUPPLY
  {
    if entries != [] {
      var init, e := entries[..|entries| - 1], entries[|entries| - 1];
      SupplyCap(l, init);
      TransactionsNeverMint(Run(l, init), e.block.txs, e.block, e.cfg);
      MintRespectsCap(ApplyAll(Run(l, init), e.block.txs, e.block, e.cfg).0, e.block, e.cfg);
    }
    if forall i :: 0 <= i < |entries| ==> !Lenient(entries[i].cfg) { StrictConservation(l, entries); }
  }

  // ---------------------------------------------------------------- attestor order

  function Members(ids: seq<string>): set<string> {
    set id | id in ids
  }

  /** Everybody in `ids` gets `amount`, at once. */
  function PaidAtOnce(l: Ledger, ids: set<string>, amount: int): Ledger {
    if amount <= 0 then l
    else l.(accounts := l.accounts + map id | id in ids :: Get(l, id).(balance := Get(l, id).balance + amount))
  }

  lemma PayOneMore(l: Ledger, ids: set<string>, id: string, amount: int)
    requires id !in ids
    ensures AddBalance(PaidAtOnce(l, ids, amount), id, amount) == PaidAtOnce(l, ids + {id}, amount)
  {
    if amount > 0 {
      var paid, more := PaidAtOnce(l, ids, amount), PaidAtOnce(l, ids + {id}, amount);
      assert Get(paid, id) == Get(l, id);
      assert AddBalance(paid, id, amount).accounts == more.accounts;
    }
  }

  lemma {:induction false} PayEachIsAtOnce(l: Ledger, ids: seq<string>, amount: int)
    requires Distinct(ids)
    ensures PayEach(l, ids, amount) == PaidAtOnce(l, Members(ids), amount)
  {
    if ids == [] {
      assert PaidAtOnce(l, Members(ids), amount).accounts == l.accounts;
    } else {
      var init, last := ids[..|ids| - 1], ids[|ids| - 1];
      PayEachIsAtOnce(l, init, amount);
      assert ids == init + [last];
      assert Members(ids) == Members(init) + {last};
      PayOneMore(l, Members(init), last, amount);
    }
  }

  lemma {:induction false} UniqueElements(attestors: seq<string>, proposer: string)
    ensures Distinct(Unique(attestors, proposer))
    ensures forall id :: id in Unique(attestors, proposer) <==> id in attestors && id != "" && id != proposer
  {
    if attestors != [] {
      UniqueElements(attestors[..|attestors| - 1], proposer);
      assert attestors == attestors[..|attestors| - 1] + [attestors[|attestors| - 1]];
    }
  }

  lemma {:induction false} DistinctSize(ids: seq<string>)
    requires Distinct(ids)
    ensures |Members(ids)| == |ids|
  {
    if ids == [] {
      assert Members(ids) == {};
    } else {
      var init, last := ids[..|ids| - 1], ids[|ids| - 1];
      DistinctSize(init);
      assert ids == init + [last];
      assert Members(ids) == Members(init) + {last} && last !in Members(init);
    }
  }

  lemma ShareBySet(l: Ledger, pool: int, proposer: string, a: seq<string>, b: seq<string>)
    requires Distinct(a) && Distinct(b) && Members(a) == Members(b)
    ensures Share(l, pool, proposer, a) == Share(l, pool, proposer, b)
  {
    DistinctSize(a);
    DistinctSize(b);
    if a != [] && pool > 0 {
      PayEachIsAtOnce(l, a, pool / |a|);
      PayEachIsAtOnce(l, b, pool / |a|);
    }
  }

  /** Property: fee and reward distribution depend on the set of attestors only: any order, any repeats. */
  lemma AttestorOrderIrrelevant(l: Ledger, fee: int, b: Block, c: Block, cfg: Config)
    requires c == b.(attestors := c.attestors) && Members(b.attestors) == Members(c.attestors)
    requires Capped(b.attestors, cfg) == b.attestors && Capped(c.attestors, cfg) == c.attestors
    ensures DistributeFee(l, fee, b, cfg) == DistributeFee(l, fee, c, cfg)
    ensures MintReward(l, b, cfg) == MintReward(l, c, cfg)
  {
    var ub, uc := Unique(b.attestors, b.proposer), Unique(c.attestors, c.proposer);
    UniqueElements(b.attestors, b.proposer);
    UniqueElements(c.attestors, c.proposer);
    forall id ensures id in ub <==> id in uc {
      assert id in b.attestors <==> id in Members(b.attestors);
      assert id in c.attestors <==> id in Members(c.attestors);
    }
    assert Members(ub) == Members(uc);
    var l1 := AddBalance(AddSupply(l, -BurnPart(fee)), b.proposer, ProposerPart(fee));
    ShareBySet(l1, fee - (BurnPart(fee) + ProposerPart(fee)), b.proposer, ub, uc);
    var reward := Reward(l.supply, OrZero(cfg.baseReward));
    var share := reward * 40 / 100;
    ShareBySet(AddSupply(AddBalance(l, b.proposer, share), reward), reward - share, b.proposer, ub, uc);
  }

  /** All unique attestors other than the proposer receive the same; the proposer receives the dust. */
  lemma EqualPay(l: Ledger, pool: int, proposer: string, attestors: seq<string>, id: string)
    requires Distinct(attestors) && proposer !in attestors && pool > 0 && attestors != []
    ensures Get(Share(l, pool, proposer, attestors), id).balance == Get(l, id).balance +
            (if id in attestors then pool / |attestors| else if id == proposer then pool % |attestors| else 0)
  {
    PayEachIsAtOnce(l, attestors, pool / |attestors|);
    assert forall i :: i in attestors <==> i in Members(attestors);
  }

  lemma {:induction false} TransactionsBySet(l: Ledger, txs: seq<Tx>, b: Block, c: Block, cfg: Config)
    requires c == b.(attestors := c.attestors) && Members(b.attestors) == Members(c.attestors)
    requires Capped(b.attestors, cfg) == b.attestors && Capped(c.attestors, cfg) == c.attestors
    ensures ApplyAll(l, txs, b, cfg) == ApplyAll(l, txs, c, cfg)
  {
    if txs != [] {
      var init, tx := txs[..|txs| - 1], txs[|txs| - 1];
      TransactionsBySet(l, init, b, c, cfg);
      var l1 := AlignNonce(ApplyAll(l, init, b, cfg).0, tx);
      var l2 := SubBalance(l1, tx.sender, Cost(tx)).0;
      AttestorOrderIrrelevant(AddBalance(l1, tx.receiver, OrZero(tx.amount)), GasFee(tx), b, c, cfg);
      AttestorOrderIrrelevant(AddBalance(l2, tx.receiver, OrZero(tx.amount)), GasFee(tx), b, c, cfg);
    }
  }

  /** Property: two blocks that differ only in the order and repetition of their attestors execute alike. */
  lemma ExecutionBySet(l: Ledger, b: Block, c: Block, cfg: Config)
    requires c == b.(attestors := c.attestors) && Members(b.attestors) == Members(c.attestors)
    requires Capped(b.attestors, cfg) == b.attestors && Capped(c.attestors, cfg) == c.attestors
    ensures Execute(l, b, cfg) == Execute(l, c, cfg)
  {
    TransactionsBySet(l, b.txs, b, c, cfg);
    AttestorOrderIrrelevant(ApplyAll(l, b.txs, b, cfg).0, 0, b, c, cfg);
  }
}
