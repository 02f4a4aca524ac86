/** Block execution on the plain ledger: transfers, the 70/20/10 fee split, the capped block reward and the genesis
    distribution (src/core/executor.go, with the checks of src/core/transaction). */
module Execution {
  import opened Basics
  import opened Accounts

  const QTX: int := 1_000_000_000_000_000_000
  const MAX_SUPPLY: int := 5_000_000_000 * QTX
  const VAULT := "0000000000000000000000000000000000000001"
  const GENESIS_SENDER := "genesis"
  const DEFAULT_MAX_ATTESTORS: nat := 100

  /** How signature verification of a transaction ends: not attempted, no public key to check with, refused, or
      accepted together with the key the sender supplied. */
  datatype Signature = Unchecked | NoKey | Bad | Good(key: string)

  datatype Tx = Tx(
    sender: string, receiver: string, amount: Option<int>, gasLimit: Option<int>, gasPrice: Option<int>,
    nonce: uint64, fingerprint: string, timely: bool, signature: Signature)

  datatype Block = Block(height: nat, proposer: string, txs: seq<Tx>, attestors: seq<string>)

  datatype Allocation = Allocation(address: string, balance: Option<nat>)

  /** `hasParams` is false for a chain without parameters, which is then neither devnet nor minting. */
  datatype Config = Config(
    hasParams: bool, devnetChain: bool, devMode: bool, peerSync: bool,
    maxValidators: int, baseReward: Option<int>, allocations: seq<Allocation>)

  predicate Lenient(cfg: Config) {
    cfg.devMode || (cfg.hasParams && cfg.devnetChain)
  }

  /** Neither devnet nor dev-mode nor peer synchronisation. */
  predicate Strict(cfg: Config) {
    !Lenient(cfg) && !cfg.peerSync
  }

  function OrZero(o: Option<int>): int {
    match o case Some(n) => n case None => 0
  }

  /** Transaction.SanityCheck. */
  predicate Sane(tx: Tx) {
    && tx.timely && tx.sender != "" && tx.receiver != ""
    && OrZero(tx.amount) > 0 && OrZero(tx.gasLimit) >= 0 && OrZero(tx.gasPrice) >= 0
    && (tx.fingerprint == "" || tx.fingerprint == tx.sender)
  }

  /** Transaction.GetGasFee. */
  function GasFee(tx: Tx): int {
    if tx.gasLimit.None? || tx.gasPrice.None? then 0 else tx.gasLimit.value * tx.gasPrice.value
  }

  lemma FeeNonNegative(tx: Tx)
    requires Sane(tx)
    ensures GasFee(tx) >= 0
  {
  }

  // ---------------------------------------------------------------- sharing among attestors

  function Capped(attestors: seq<string>, cfg: Config): seq<string> {
    var cap := if cfg.hasParams && cfg.maxValidators > 0 then cfg.maxValidators else DEFAULT_MAX_ATTESTORS;
    if |attestors| > cap then attestors[..cap] else attestors
  }

  /** The attestors once each, in order of appearance, without the proposer and empty names. */
  function Unique(attestors: seq<string>, proposer: string): seq<string> {
    if attestors == [] then []
    else
      var u := Unique(attestors[..|attestors| - 1], proposer);
      var id := attestors[|attestors| - 1];
      if id == "" || id == proposer || id in u then u else u + [id]
  }

  function PayEach(l: Ledger, ids: seq<string>, amount: int): Ledger {
    if ids == [] then l
    else AddBalance(PayEach(l, ids[..|ids| - 1], amount), ids[|ids| - 1], amount)
  }

  /** Equal parts to the attestors and the rest to the proposer; everything to the proposer if there are none. */
  function Share(l: Ledger, pool: int, proposer: string, attestors: seq<string>): Ledger {
    if attestors != [] && pool > 0 then
      AddBalance(PayEach(l, attestors, pool / |attestors|), proposer, pool % |attestors|)
    else AddBalance(l, proposer, pool)
  }

  function BurnPart(fee: int): int { fee * 70 / 100 }
  function ProposerPart(fee: int): int { fee * 10 / 100 }

  /** distributeGasFee. */
  function DistributeFee(l: Ledger, fee: int, b: Block, cfg: Config): Ledger {
    if fee <= 0 || b.proposer == "" then l
    else
      var l1 := AddBalance(AddSupply(l, -BurnPart(fee)), b.proposer, ProposerPart(fee));
      Share(l1, fee - (BurnPart(fee) + ProposerPart(fee)), b.proposer, Unique(Capped(b.attestors, cfg), b.proposer))
  }

  // ---------------------------------------------------------------- transactions

  datatype Outcome = Skipped | Refused | Funded | Unfunded

  predicate Executed(o: Outcome) {
    o.Funded? || o.Unfunded?
  }

  predicate SignatureAccepted(tx: Tx, cfg: Config) {
    tx.signature.Unchecked? || tx.signature.Good? || (tx.signature.NoKey? && cfg.hasParams && cfg.devnetChain)
  }

  predicate NonceAccepted(l: Ledger, tx: Tx, cfg: Config) {
    tx.nonce == Get(l, tx.sender).nonce || Lenient(cfg) || cfg.peerSync
  }

  /** The nonce jump that devnet and peer synchronisation allow. */
  function AlignNonce(l: Ledger, tx: Tx): Ledger {
    if tx.nonce == Get(l, tx.sender).nonce then l else SetNonce(l, tx.sender, tx.nonce)
  }

  /** What follows once the sender has been charged, or let off. */
  function Settle(l: Ledger, tx: Tx, b: Block, cfg: Config): Ledger {
    IncrementNonce(DistributeFee(AddBalance(l, tx.receiver, OrZero(tx.amount)), GasFee(tx), b, cfg), tx.sender)
  }

  function ApplyTx(l: Ledger, tx: Tx, b: Block, cfg: Config): (Ledger, Outcome) {
    if tx.sender == GENESIS_SENDER then (l, Skipped)
    else if !Sane(tx) || tx.receiver == VAULT || !SignatureAccepted(tx, cfg) || !NonceAccepted(l, tx, cfg) then (l, Refused)
    else
      var l1 := AlignNonce(l, tx);
      var cost := OrZero(tx.amount) + GasFee(tx);
      if Get(l1, tx.sender).balance < cost then
        if Lenient(cfg) then (Settle(l1, tx, b, cfg), Unfunded) else (l1, Refused)
      else (Settle(SubBalance(l1, tx.sender, cost).0, tx, b, cfg), Funded)
  }

  /** applyTransactions: the first refusal ends the block. */
  function ApplyAll(l: Ledger, txs: seq<Tx>, b: Block, cfg: Config): (Ledger, bool) {
    if txs == [] then (l, true)
    else
      var before := ApplyAll(l, txs[..|txs| - 1], b, cfg);
      if !before.1 then before
      else
        var step := ApplyTx(before.0, txs[|txs| - 1], b, cfg);
        (step.0, !step.1.Refused?)
  }

  // ---------------------------------------------------------------- rewards and blocks

  function TotalAllocated(allocations: seq<Allocation>): nat {
    if allocations == [] then 0
    else
      var last := allocations[|allocations| - 1];
      TotalAllocated(allocations[..|allocations| - 1]) + (if last.balance.Some? then last.balance.value else 0)
  }

  /** The block reward that still fits under the cap. */
  function Reward(supply: int, base: int): int {
    if supply + base > MAX_SUPPLY then MAX_SUPPLY - supply else base
  }

  function ShareReward(l: Ledger, reward: int, b: Block, cfg: Config): Ledger {
    var proposerShare := reward * 40 / 100;
    Share(AddSupply(AddBalance(l, b.proposer, proposerShare), reward), reward - proposerShare, b.proposer,
          Unique(Capped(b.attestors, cfg), b.proposer))
  }

  /** mintBlockReward. */
  function MintReward(l: Ledger, b: Block, cfg: Config): Ledger {
    if !cfg.hasParams || b.proposer == "" then l
    else if b.height == 0 then
      AddSupply(AddBalance(l, b.proposer, TotalAllocated(cfg.allocations)), TotalAllocated(cfg.allocations))
    else if b.height == 1 || OrZero(cfg.baseReward) <= 0 then l
    else
      var reward := Reward(l.supply, OrZero(cfg.baseReward));
      if reward <= 0 then l else ShareReward(l, reward, b, cfg)
  }

  /** ExecuteBlock: the ledger to commit, or None if a transaction was refused. */
  function Execute(l: Ledger, b: Block, cfg: Config): Option<Ledger> {
    var applied := ApplyAll(l, b.txs, b, cfg);
    if applied.1 then Some(MintReward(applied.0, b, cfg)) else None
  }

  // ---------------------------------------------------------------- genesis

  /** Moves a positive allocation out of the vault. */
  function PayOut(l: Ledger, alloc: Allocation): (Ledger, bool) {
    if alloc.balance.None? || alloc.balance.value == 0 then (l, true)
    else
      var paid := SubBalance(l, VAULT, alloc.balance.value);
      if !paid.1 then paid else (AddBalance(paid.0, alloc.address, alloc.balance.value), true)
  }

  /** Pays out the allocations in order; stops when the vault cannot pay. */
  function Distribute(l: Ledger, allocations: seq<Allocation>): (Ledger, bool) {
    if allocations == [] then (l, true)
    else
      var before := Distribute(l, allocations[..|allocations| - 1]);
      if before.1 then PayOut(before.0, allocations[|allocations| - 1]) else before
  }

  predicate AlreadyDistributed(l: Ledger, cfg: Config) {
    cfg.allocations != [] && Get(l, cfg.allocations[0].address).balance > 0
  }

  /** ExecuteGenesisBlock: the durable ledger afterwards and whether it succeeded, given whether the write that funds the
      vault and the one that pays it out succeed. */
  function ExecuteGenesis(l: Ledger, genesis: Block, cfg: Config, funds: bool, pays: bool): (Ledger, bool) {
    if AlreadyDistributed(l, cfg) then (l, true)
    else match Execute(l, genesis, cfg)
      case None => (l, false)
      case Some(funded) =>
        var d := Distribute(funded, cfg.allocations);
        if !funds then (l, false) else if d.1 && pays then d else (funded, false)
  }
}
