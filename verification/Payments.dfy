/** Who pays and who is paid, address by address and in plain numbers: fees, rewards and transactions. */
module Payments {
  import opened Basics
  import opened Ordering
  import opened Records
  import opened Accounts
  import opened Execution
  import opened Conservation
  import opened Nonces

  // ---------------------------------------------------------------- attestors

  /** The attestors that share: the names among the first listed ones, without the proposer and empty names. The cap is
      the number of validators of the chain parameters, or 100. */
  function Sharers(b: Block, cfg: Config): set<string> {
    var cap := if cfg.hasParams && cfg.maxValidators > 0 then cfg.maxValidators else 100;
    (set i | 0 <= i < |b.attestors| && i < cap :: b.attestors[i]) - {"", b.proposer}
  }

  lemma CappedNames(b: Block, cfg: Config, id: string)
    ensures id in Capped(b.attestors, cfg) && id != "" && id != b.proposer <==> id in Sharers(b, cfg)
  {
    var capped := Capped(b.attestors, cfg);
    if id in capped {
      var i :| 0 <= i < |capped| && capped[i] == id;
      assert b.attestors[i] == id;
    }
    if id in Sharers(b, cfg) {
      var i :| 0 <= i < |b.attestors| && i < (if cfg.hasParams && cfg.maxValidators > 0 then cfg.maxValidators else 100)
               && b.attestors[i] == id;
      assert capped[i] == id;
    }
  }

  lemma UniqueIsSharers(b: Block, cfg: Config, unique: seq<string>)
    requires unique == Unique(Capped(b.attestors, cfg), b.proposer)
    ensures Distinct(unique) && b.proposer !in unique && |unique| == |Sharers(b, cfg)|
    ensures forall id :: id in unique <==> id in Sharers(b, cfg)
  {
    UniqueElements(Capped(b.attestors, cfg), b.proposer);
    forall id ensures id in unique <==> id in Sharers(b, cfg) { CappedNames(b, cfg, id); }
    DistinctSize(unique);
    assert Members(unique) == Sharers(b, cfg);
  }

  /** The part of a pool that goes to `x`: equal parts to the sharers, the remainder or else everything to the proposer. */
  function PoolPart(pool: int, b: Block, cfg: Config, x: string): int {
    var n := |Sharers(b, cfg)|;
    if n == 0 then (if x == b.proposer then pool else 0)
    else if x in Sharers(b, cfg) then pool / n
    else if x == b.proposer then pool % n else 0
  }

  lemma ShareParts(l: Ledger, pool: int, b: Block, cfg: Config, x: string)
    requires pool > 0
    ensures var l' := Share(l, pool, b.proposer, Unique(Capped(b.attestors, cfg), b.proposer));
            Get(l', x).balance == Get(l, x).balance + PoolPart(pool, b, cfg, x) && l'.supply == l.supply
  {
    var unique := Unique(Capped(b.attestors, cfg), b.proposer);
    UniqueIsSharers(b, cfg, unique);
    if unique != [] {
      EqualPay(l, pool, b.proposer, unique, x);
      PayKeepsSupply(l, unique, pool / |unique|);
    }
  }

  lemma {:induction false} PayKeepsSupply(l: Ledger, ids: seq<string>, amount: int)
    ensures PayEach(l, ids, amount).supply == l.supply
  {
    if ids != [] { PayKeepsSupply(l, ids[..|ids| - 1], amount); }
  }

  // ---------------------------------------------------------------- fees and rewards

  /** What a fee brings to `x`: the proposer 10 percent and the dust, the sharers equal parts of 20 percent. */
  function FeePart(fee: int, b: Block, cfg: Config, x: string): int {
    if fee <= 0 || b.proposer == "" then 0
    else (if x == b.proposer then fee * 10 / 100 else 0) + PoolPart(fee - fee * 70 / 100 - fee * 10 / 100, b, cfg, x)
  }

  /** Property: of every fee 70 percent are burned, the proposer gets 10 percent and the dust, each sharer an equal part of
      the rest, and nobody else anything; a block without a proposer shares nothing. */
  lemma FeeSplit(l: Ledger, fee: int, b: Block, cfg: Config, x: string)
    ensures var l' := DistributeFee(l, fee, b, cfg);
            && Get(l', x).balance == Get(l, x).balance + FeePart(fee, b, cfg, x)
            && l'.supply == l.supply - (if fee <= 0 || b.proposer == "" then 0 else fee * 70 / 100)
  {
    if fee > 0 && b.proposer != "" {
      var l1 := AddBalance(AddSupply(l, -(fee * 70 / 100)), b.proposer, fee * 10 / 100);
      ShareParts(l1, fee - fee * 70 / 100 - fee * 10 / 100, b, cfg, x);
    }
  }

  /** What a reward brings to `x`: the proposer 40 percent and the dust, the sharers equal parts of 60 percent. */
  function RewardPart(reward: int, b: Block, cfg: Config, x: string): int {
    (if x == b.proposer then reward * 40 / 100 else 0) + PoolPart(reward - reward * 40 / 100, b, cfg, x)
  }

  /** The reward of a block: none for blocks 0 and 1, and what still fits under five billion coins above. */
  function BlockReward(supply: int, b: Block, cfg: Config): int {
    var base := if cfg.baseReward.Some? then cfg.baseReward.value else 0;
    var room := 5_000_000_000 * 1_000_000_000_000_000_000 - supply;
    if !cfg.hasParams || b.proposer == "" || b.height < 2 || base <= 0 || room <= 0 then 0
    else if base <= room then base else room
  }

  /** Property: a block above height 1 mints the base reward, or what fits under the cap, 40 percent to the proposer and 60
      percent shared; block 1 mints nothing, and block 0 mints the allocations to its proposer. */
  lemma RewardSplit(l: Ledger, b: Block, cfg: Config, x: string)
    ensures var l', reward := MintReward(l, b, cfg), BlockReward(l.supply, b, cfg);
            var genesis := if cfg.hasParams && b.height == 0 && b.proposer != "" then TotalAllocated(cfg.allocations) else 0;
            && l'.supply == l.supply + reward + genesis
            && Get(l', x).balance == Get(l, x).balance
                 + (if reward > 0 then RewardPart(reward, b, cfg, x) else 0) + (if x == b.proposer then genesis else 0)
  {
    var reward := BlockReward(l.supply, b, cfg);
    if reward > 0 { ShareRewardParts(l, reward, b, cfg, x); }
  }

  lemma ShareRewardParts(l: Ledger, reward: int, b: Block, cfg: Config, x: string)
    requires reward > 0
    ensures var l' := ShareReward(l, reward, b, cfg);
            l'.supply == l.supply + reward && Get(l', x).balance == Get(l, x).balance + RewardPart(reward, b, cfg, x)
  {
    var l1 := AddSupply(AddBalance(l, b.proposer, reward * 40 / 100), reward);
    ShareParts(l1, reward - reward * 40 / 100, b, cfg, x);
  }

  // ---------------------------------------------------------------- transactions

  /** The fee in plain numbers: gas limit times gas price, nothing if either is missing. */
  function Fee(tx: Tx): int {
    if tx.gasLimit.Some? && tx.gasPrice.Some? then tx.gasLimit.value * tx.gasPrice.value else 0
  }

  function AmountOf(tx: Tx): int {
    if tx.amount.Some? then tx.amount.value else 0
  }

  /** The transaction itself is in order: in time, complete, with a positive amount and no negative gas, its fingerprint
      the sender's if it has one, and not addressed to the vault. */
  predicate WellFormed(tx: Tx) {
    && tx.timely && tx.sender != "" && tx.receiver != "" && AmountOf(tx) > 0
    && (tx.gasLimit.Some? ==> tx.gasLimit.value >= 0) && (tx.gasPrice.Some? ==> tx.gasPrice.value >= 0)
    && (tx.fingerprint == "" || tx.fingerprint == tx.sender)
    && tx.receiver != "0000000000000000000000000000000000000001"
  }

  /** Devnet lets a transaction through without a key to check it with; a bad signature is never accepted. */
  predicate HasSignature(tx: Tx, cfg: Config) {
    match tx.signature
    case Bad => false
    case NoKey => cfg.hasParams && cfg.devnetChain
    case _ => true
  }

  /** Property: a transaction other than a genesis one is refused if and only if it is not in order, not signed, out of
      turn where turns are kept, or not covered where cover is demanded. */
  lemma RefusedExactly(l: Ledger, tx: Tx, b: Block, cfg: Config)
    ensures var outcome := ApplyTx(l, tx, b, cfg).1;
            var lenient := cfg.devMode || (cfg.hasParams && cfg.devnetChain);
            var covered := Get(l, tx.sender).balance >= AmountOf(tx) + Fee(tx);
            && (outcome.Skipped? <==> tx.sender == "genesis")
            && (outcome.Refused? <==>
                  tx.sender != "genesis" && !(
                    && WellFormed(tx) && HasSignature(tx, cfg)
                    && (tx.nonce == Get(l, tx.sender).nonce || lenient || cfg.peerSync) && (covered || lenient)))
            && (outcome.Funded? ==> covered) && (outcome.Unfunded? ==> !covered)
  {
  }

  /** A refused or skipped transaction moves nothing. */
  lemma RefusedMovesNothing(l: Ledger, tx: Tx, b: Block, cfg: Config, x: string)
    requires !Executed(ApplyTx(l, tx, b, cfg).1)
    ensures var l' := ApplyTx(l, tx, b, cfg).0; Get(l', x).balance == Get(l, x).balance && l'.supply == l.supply
  {
  }

  lemma SettleParts(l: Ledger, tx: Tx, b: Block, cfg: Config, x: string)
    requires AmountOf(tx) > 0
    ensures var l' := Settle(l, tx, b, cfg);
            && Get(l', x).balance
                 == Get(l, x).balance + (if x == tx.receiver then AmountOf(tx) else 0) + FeePart(Fee(tx), b, cfg, x)
            && l'.supply == l.supply - (if Fee(tx) <= 0 || b.proposer == "" then 0 else Fee(tx) * 70 / 100)
  {
    var paid := AddBalance(l, tx.receiver, AmountOf(tx));
    FeeSplit(paid, Fee(tx), b, cfg, x);
    var shared := DistributeFee(paid, Fee(tx), b, cfg);
    assert Settle(l, tx, b, cfg) == IncrementNonce(shared, tx.sender);
  }

  /** Property: an executed transaction takes amount and fee from the sender, unless it was let through unfunded, gives the
      amount to the receiver and the parts of the fee to those who share it, burns 70 percent of the fee, and changes no
      other balance. */
  lemma TransactionPays(l: Ledger, tx: Tx, b: Block, cfg: Config, x: string)
    requires Executed(ApplyTx(l, tx, b, cfg).1)
    ensures var (l', outcome) := ApplyTx(l, tx, b, cfg);
            && Get(l', x).balance == Get(l, x).balance
                 - (if x == tx.sender && outcome.Funded? then AmountOf(tx) + Fee(tx) else 0)
                 + (if x == tx.receiver then AmountOf(tx) else 0)
                 + FeePart(Fee(tx), b, cfg, x)
            && l'.supply == l.supply - (if Fee(tx) <= 0 || b.proposer == "" then 0 else Fee(tx) * 70 / 100)
  {
    FeeNonNegative(tx);
    var l1 := AlignNonce(l, tx);
    assert Get(l1, x).balance == Get(l, x).balance && Get(l1, tx.sender).balance == Get(l, tx.sender).balance;
    if ApplyTx(l, tx, b, cfg).1.Funded? {
      SettleParts(SubBalance(l1, tx.sender, AmountOf(tx) + Fee(tx)).0, tx, b, cfg, x);
    } else {
      SettleParts(l1, tx, b, cfg, x);
    }
  }

  lemma AlignedNonce(l: Ledger, tx: Tx, x: string)
    ensures Get(AlignNonce(l, tx), x).nonce == if x == tx.sender then tx.nonce else Get(l, x).nonce
  {
  }

  lemma ChargedNonce(l: Ledger, id: string, amount: int, x: string)
    ensures Get(SubBalance(l, id, amount).0, x).nonce == Get(l, x).nonce
  {
  }

  lemma SettledNonce(l: Ledger, tx: Tx, b: Block, cfg: Config, x: string)
    ensures Get(Settle(l, tx, b, cfg), x).nonce
         == if x == tx.sender then (Get(l, x).nonce + 1) % U64 else Get(l, x).nonce
  {
    SettleNonces(l, tx, b, cfg);
  }

  /** In every mode an executed transaction leaves the sender's nonce one past its own and all other nonces alone. */
  lemma TransactionNumbers(l: Ledger, tx: Tx, b: Block, cfg: Config, x: string)
    requires Executed(ApplyTx(l, tx, b, cfg).1)
    ensures Get(ApplyTx(l, tx, b, cfg).0, x).nonce == if x == tx.sender then (tx.nonce + 1) % U64 else Get(l, x).nonce
  {
    var l1 := AlignNonce(l, tx);
    AlignedNonce(l, tx, x);
    if ApplyTx(l, tx, b, cfg).1.Funded? {
      ChargedNonce(l1, tx.sender, AmountOf(tx) + Fee(tx), x);
      SettledNonce(SubBalance(l1, tx.sender, AmountOf(tx) + Fee(tx)).0, tx, b, cfg, x);
    } else {
      SettledNonce(l1, tx, b, cfg, x);
    }
  }

  // ---------------------------------------------------------------- blocks

  /** Transaction `i` is accepted by ledger `i` and leads to the next one. */
  predicate StepAt(ledgers: seq<Ledger>, b: Block, cfg: Config, i: nat)
    requires |ledgers| == |b.txs| + 1 && i < |b.txs|
  {
    var step := ApplyTx(ledgers[i], b.txs[i], b, cfg);
    !step.1.Refused? && step.0 == ledgers[i + 1]
  }

  /** A chain of ledgers, one transaction apart, none of them refused. */
  ghost predicate Steps(ledgers: seq<Ledger>, l: Ledger, b: Block, cfg: Config) {
    |ledgers| == |b.txs| + 1 && ledgers[0] == l && forall i :: 0 <= i < |b.txs| ==> StepAt(ledgers, b, cfg, i)
  }

  lemma {:induction false} ApplyAllSteps(l: Ledger, b: Block, cfg: Config, ledgers: seq<Ledger>, n: nat)
    requires Steps(ledgers, l, b, cfg) && n <= |b.txs|
    ensures ApplyAll(l, b.txs[..n], b, cfg) == (ledgers[n], true)
  {
    if n > 0 {
      ApplyAllSteps(l, b, cfg, ledgers, n - 1);
      assert b.txs[..n][..n - 1] == b.txs[..n - 1];
      assert StepAt(ledgers, b, cfg, n - 1);
    }
  }

  lemma {:induction false} AcceptedPrefix(l: Ledger, txs: seq<Tx>, b: Block, cfg: Config, n: nat)
    requires n <= |txs| && ApplyAll(l, txs, b, cfg).1
    ensures ApplyAll(l, txs[..n], b, cfg).1
    decreases |txs|
  {
    if n == |txs| {
      assert txs[..n] == txs;
    } else {
      assert txs[..|txs| - 1][..n] == txs[..n];
      AcceptedPrefix(l, txs[..|txs| - 1], b, cfg, n);
    }
  }

  /** The ledger after the first `i` transactions. */
  function LedgerAt(l: Ledger, b: Block, cfg: Config, i: nat): Ledger
    requires i <= |b.txs|
  {
    ApplyAll(l, b.txs[..i], b, cfg).0
  }

  lemma AcceptedAt(l: Ledger, b: Block, cfg: Config, i: nat)
    requires i < |b.txs| && ApplyAll(l, b.txs, b, cfg).1
    ensures var step := ApplyTx(LedgerAt(l, b, cfg, i), b.txs[i], b, cfg);
            !step.1.Refused? && step.0 == LedgerAt(l, b, cfg, i + 1)
  {
    AcceptedPrefix(l, b.txs, b, cfg, i);
    AcceptedPrefix(l, b.txs, b, cfg, i + 1);
    assert b.txs[..i + 1][..i] == b.txs[..i];
  }

  lemma AcceptedSteps(l: Ledger, b: Block, cfg: Config) returns (ledgers: seq<Ledger>)
    requires ApplyAll(l, b.txs, b, cfg).1
    ensures Steps(ledgers, l, b, cfg)
  {
    ledgers := seq(|b.txs| + 1, i requires 0 <= i <= |b.txs| => LedgerAt(l, b, cfg, i));
    assert ledgers[0] == l by { assert b.txs[..0] == []; }
    forall i | 0 <= i < |b.txs| ensures StepAt(ledgers, b, cfg, i) {
      AcceptedAt(l, b, cfg, i);
      assert ledgers[i] == LedgerAt(l, b, cfg, i) && ledgers[i + 1] == LedgerAt(l, b, cfg, i + 1);
    }
  }

  /** Property: a block executes to `l'` if and only if its transactions, each applied to the ledger the one before left,
      are all accepted, and `l'` is what the block reward makes of the last ledger. */
  lemma BlockIsSteps(l: Ledger, b: Block, cfg: Config, l': Ledger)
    ensures Execute(l, b, cfg) == Some(l') <==>
            exists ledgers :: Steps(ledgers, l, b, cfg) && l' == MintReward(ledgers[|b.txs|], b, cfg)
  {
    assert b.txs[..|b.txs|] == b.txs;
    if ApplyAll(l, b.txs, b, cfg).1 {
      var ledgers := AcceptedSteps(l, b, cfg);
      ApplyAllSteps(l, b, cfg, ledgers, |b.txs|);
    }
    forall ledgers | Steps(ledgers, l, b, cfg) ensures Execute(l, b, cfg) == Some(MintReward(ledgers[|b.txs|], b, cfg)) {
      ApplyAllSteps(l, b, cfg, ledgers, |b.txs|);
    }
  }
}
