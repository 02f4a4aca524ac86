/** Nonce discipline of committed blocks in strict mode. */
module Nonces {
  import opened Basics
  import opened Records
  import opened Accounts
  import opened Execution
  import opened Conservation

  /** An executed transaction, as far as replay is concerned. */
  datatype Done = Done(sender: string, nonce: uint64)

  function DoneBy(tx: Tx, outcome: Outcome): seq<Done> {
    if Executed(outcome) then [Done(tx.sender, tx.nonce)] else []
  }

  function Trace(l: Ledger, txs: seq<Tx>, b: Block, cfg: Config): seq<Done> {
    if txs == [] then []
    else
      var init := txs[..|txs| - 1];
      var before := ApplyAll(l, init, b, cfg);
      if !before.1 then Trace(l, init, b, cfg)
      else Trace(l, init, b, cfg) + DoneBy(txs[|txs| - 1], ApplyTx(before.0, txs[|txs| - 1], b, cfg).1)
  }

  /** Everything executed by the committed blocks of a run, in order. */
  function RunTrace(l: Ledger, entries: seq<Entry>): seq<Done> {
    if entries == [] then []
    else
      var init, e := entries[..|entries| - 1], entries[|entries| - 1];
      RunTrace(l, init)
        + if Execute(Run(l, init), e.block, e.cfg).Some? then Trace(Run(l, init), e.block.txs, e.block, e.cfg) else []
  }

  function Count(trace: seq<Done>, sender: string): nat {
    if trace == [] then 0
    else Count(trace[..|trace| - 1], sender) + (if trace[|trace| - 1].sender == sender then 1 else 0)
  }

  // ---------------------------------------------------------------- what touches nonces

  ghost predicate SameNonces(l: Ledger, l': Ledger) {
    forall a :: Get(l', a).nonce == Get(l, a).nonce
  }

  lemma {:induction false} PayKeepsNonces(l: Ledger, ids: seq<string>, amount: int)
    ensures SameNonces(l, PayEach(l, ids, amount))
  {
    if ids != [] { PayKeepsNonces(l, ids[..|ids| - 1], amount); }
  }

  lemma ShareKeepsNonces(l: Ledger, pool: int, proposer: string, attestors: seq<string>)
    ensures SameNonces(l, Share(l, pool, proposer, attestors))
  {
    if attestors != [] { PayKeepsNonces(l, attestors, pool / |attestors|); }
  }

  lemma FeeKeepsNonces(l: Ledger, fee: int, b: Block, cfg: Config)
    ensures SameNonces(l, DistributeFee(l, fee, b, cfg))
  {
    var l1 := AddBalance(AddSupply(l, -BurnPart(fee)), b.proposer, ProposerPart(fee));
    ShareKeepsNonces(l1, fee - (BurnPart(fee) + ProposerPart(fee)), b.proposer, Unique(Capped(b.attestors, cfg), b.proposer));
  }

  lemma MintKeepsNonces(l: Ledger, b: Block, cfg: Config)
    ensures SameNonces(l, MintReward(l, b, cfg))
  {
    var reward := Reward(l.supply, OrZero(cfg.baseReward));
    var share := reward * 40 / 100;
    ShareKeepsNonces(AddSupply(AddBalance(l, b.proposer, share), reward), reward - share, b.proposer,
                     Unique(Capped(b.attestors, cfg), b.proposer));
  }

  /** Settling pays the receiver and the fee takers and advances the sender's nonce only. */
  lemma SettleNonces(l: Ledger, tx: Tx, b: Block, cfg: Config)
    ensures Advanced(l, tx.sender, Settle(l, tx, b, cfg))
  {
    var paid := AddBalance(l, tx.receiver, OrZero(tx.amount));
    var shared := DistributeFee(paid, GasFee(tx), b, cfg);
    FeeKeepsNonces(paid, GasFee(tx), b, cfg);
    forall a ensures Get(shared, a).nonce == Get(l, a).nonce {
      assert Get(shared, a).nonce == Get(paid, a).nonce;
    }
    assert Settle(l, tx, b, cfg) == IncrementNonce(shared, tx.sender);
  }

  ghost predicate Advanced(l: Ledger, sender: string, l': Ledger) {
    forall a :: Get(l', a).nonce == if a == sender then (Get(l, a).nonce + 1) % U64 else Get(l, a).nonce
  }

  /** In strict mode an executed transaction carries the sender's nonce and advances that one nonce. */
  lemma TxNonces(l: Ledger, tx: Tx, b: Block, cfg: Config, l': Ledger, outcome: Outcome)
    requires Strict(cfg) && ApplyTx(l, tx, b, cfg) == (l', outcome)
    ensures Executed(outcome) ==> tx.nonce == Get(l, tx.sender).nonce && Advanced(l, tx.sender, l')
    ensures !Executed(outcome) ==> l' == l
  {
    if Executed(outcome) {
      var charged := SubBalance(l, tx.sender, OrZero(tx.amount) + GasFee(tx)).0;
      assert l' == Settle(charged, tx, b, cfg);
      SettleNonces(charged, tx, b, cfg);
      forall a ensures Get(charged, a).nonce == Get(l, a).nonce { }
    }
  }

  // ---------------------------------------------------------------- contiguous nonces

  /** The nonce of an account after it has sent `n` transactions. */
  function After(start: Ledger, a: string, n: nat): uint64 {
    (Get(start, a).nonce + n) % U64
  }

  /** `l` has advanced every nonce by as many steps as the trace has entries for it. */
  ghost predicate Tracks(start: Ledger, trace: seq<Done>, l: Ledger) {
    forall a :: Get(l, a).nonce == After(start, a, Count(trace, a))
  }

  /** The entries of each sender carry consecutive nonces, counting on from the start. */
  ghost predicate Contiguous(start: Ledger, trace: seq<Done>) {
    forall i :: 0 <= i < |trace| ==> trace[i].nonce == After(start, trace[i].sender, Count(trace[..i], trace[i].sender))
  }

  lemma CountAppend(trace: seq<Done>, d: Done, a: string)
    ensures Count(trace + [d], a) == Count(trace, a) + if a == d.sender then 1 else 0
  {
    assert (trace + [d])[..|trace|] == trace;
  }

  lemma OneOn(start: Ledger, a: string, n: nat)
    ensures (After(start, a, n) + 1) % U64 == After(start, a, n + 1)
  {
  }

  lemma Extend(start: Ledger, trace: seq<Done>, d: Done)
    requires Contiguous(start, trace) && d.nonce == After(start, d.sender, Count(trace, d.sender))
    ensures Contiguous(start, trace + [d])
  {
    var longer := trace + [d];
    forall i | 0 <= i < |longer|
      ensures longer[i].nonce == After(start, longer[i].sender, Count(longer[..i], longer[i].sender))
    {
      if i < |trace| {
        assert longer[..i] == trace[..i] && longer[i] == trace[i];
      } else {
        assert longer[..i] == trace;
      }
    }
  }

  lemma Advance(start: Ledger, trace: seq<Done>, l: Ledger, d: Done, l': Ledger)
    requires Tracks(start, trace, l) && Advanced(l, d.sender, l')
    ensures Tracks(start, trace + [d], l')
  {
    forall a ensures Get(l', a).nonce == After(start, a, Count(trace + [d], a)) {
      CountAppend(trace, d, a);
      OneOn(start, a, Count(trace, a));
    }
  }

  lemma {:induction false} TraceContiguous(start: Ledger, trace: seq<Done>, l: Ledger, txs: seq<Tx>, b: Block, cfg: Config)
    requires Strict(cfg) && Tracks(start, trace, l) && Contiguous(start, trace)
    ensures Tracks(start, trace + Trace(l, txs, b, cfg), ApplyAll(l, txs, b, cfg).0)
    ensures Contiguous(start, trace + Trace(l, txs, b, cfg))
  {
    if txs == [] {
      assert trace + Trace(l, txs, b, cfg) == trace;
    } else {
      var init, tx := txs[..|txs| - 1], txs[|txs| - 1];
      TraceContiguous(start, trace, l, init, b, cfg);
      var before := ApplyAll(l, init, b, cfg);
      if before.1 { OneMore(start, trace + Trace(l, init, b, cfg), before.0, tx, b, cfg); }
      assert trace + Trace(l, txs, b, cfg) == trace + Trace(l, init, b, cfg)
        + if before.1 then DoneBy(tx, ApplyTx(before.0, tx, b, cfg).1) else [];
    }
  }

  lemma OneMore(start: Ledger, trace: seq<Done>, l: Ledger, tx: Tx, b: Block, cfg: Config)
    requires Strict(cfg) && Tracks(start, trace, l) && Contiguous(start, trace)
    ensures var (l', outcome) := ApplyTx(l, tx, b, cfg);
            && Tracks(start, trace + DoneBy(tx, outcome), l')
            && Contiguous(start, trace + DoneBy(tx, outcome))
  {
    var (l', outcome) := ApplyTx(l, tx, b, cfg);
    TxNonces(l, tx, b, cfg, l', outcome);
    if Executed(outcome) {
      Extend(start, trace, Done(tx.sender, tx.nonce));
      Advance(start, trace, l, Done(tx.sender, tx.nonce), l');
    } else {
      assert trace + DoneBy(tx, outcome) == trace;
    }
  }

  ghost predicate AllStrict(entries: seq<Entry>) {
    forall i :: 0 <= i < |entries| ==> Strict(entries[i].cfg)
  }

  /** Property: in strict mode each sender's executed nonces are contiguous from its starting nonce, over any run. */
  lemma {:induction false} RunContiguous(l: Ledger, entries: seq<Entry>)
    requires AllStrict(entries)
    ensures Tracks(l, RunTrace(l, entries), Run(l, entries))
    ensures Contiguous(l, RunTrace(l, entries))
  {
    if entries != [] {
      var init, e := entries[..|entries| - 1], entries[|entries| - 1];
      RunContiguous(l, init);
      var before := Run(l, init);
      TraceContiguous(l, RunTrace(l, init), before, e.block.txs, e.block, e.cfg);
      MintKeepsNonces(ApplyAll(before, e.block.txs, e.block, e.cfg).0, e.block, e.cfg);
      if Execute(before, e.block, e.cfg).None? { assert RunTrace(l, entries) == RunTrace(l, init); }
    }
  }

  // ---------------------------------------------------------------- no replay

  lemma {:induction false} CountGrows(trace: seq<Done>, i: nat, j: nat, sender: string)
    requires i <= j <= |trace|
    ensures Count(trace[..i], sender) <= Count(trace[..j], sender)
    ensures i < j && trace[i].sender == sender ==> Count(trace[..i], sender) < Count(trace[..j], sender)
    decreases j
  {
    if i < j {
      assert trace[..j][..j - 1] == trace[..j - 1];
      CountGrows(trace, i, j - 1, sender);
    }
  }

  /** For each number below the count there is an entry with exactly that many before it. */
  lemma {:induction false} NthEntry(trace: seq<Done>, sender: string, n: nat) returns (i: nat)
    requires n < Count(trace, sender)
    ensures i < |trace| && trace[i].sender == sender && Count(trace[..i], sender) == n
  {
    var init := trace[..|trace| - 1];
    if n < Count(init, sender) {
      i := NthEntry(init, sender, n);
      assert init[..i] == trace[..i];
    } else {
      i := |trace| - 1;
    }
  }

  ghost predicate Replayed(trace: seq<Done>, sender: string) {
    exists i, j :: 0 <= i < j < |trace| && trace[i] == trace[j] && trace[i].sender == sender
  }

  lemma {:induction false} SameAfter(start: Ledger, a: string, m: nat, n: nat)
    requires m < n && After(start, a, m) == After(start, a, n)
    ensures n - m >= U64
  {
  }

  lemma RepeatNeedsWrap(start: Ledger, trace: seq<Done>, i: nat, j: nat)
    requires Contiguous(start, trace) && i < j < |trace| && trace[i] == trace[j]
    ensures Count(trace, trace[i].sender) > U64
  {
    var a := trace[i].sender;
    CountGrows(trace, i, j, a);
    CountGrows(trace, j, |trace|, a);
    assert trace[..|trace|] == trace;
    SameAfter(start, a, Count(trace[..i], a), Count(trace[..j], a));
  }

  lemma WrapRepeats(start: Ledger, trace: seq<Done>, a: string)
    requires Contiguous(start, trace) && Count(trace, a) > U64
    ensures Replayed(trace, a)
  {
    var i := NthEntry(trace, a, 0);
    var j := NthEntry(trace, a, U64);
    if j <= i { CountGrows(trace, j, i, a); }
    assert After(start, a, 0) == After(start, a, U64);
    assert trace[i] == trace[j];
  }

  /** Property, exactly: in strict mode a (sender, nonce) pair is executed twice in a run if and only if the sender
      executes more than 2^64 transactions, when the 64-bit counter has gone round. */
  lemma NoReplay(l: Ledger, entries: seq<Entry>, sender: string)
    requires AllStrict(entries)
    ensures Replayed(RunTrace(l, entries), sender) <==> Count(RunTrace(l, entries), sender) > U64
  {
    var trace := RunTrace(l, entries);
    RunContiguous(l, entries);
    if Count(trace, sender) > U64 { WrapRepeats(l, trace, sender); }
    if i, j :| 0 <= i < j < |trace| && trace[i] == trace[j] && trace[i].sender == sender {
      RepeatNeedsWrap(l, trace, i, j);
    }
  }

  // ---------------------------------------------------------------- a replay

  const STRICT := Config(false, false, false, false, 0, None, [])

  /** The ledger after `n` payments: one coin of "a", and its nonce. */
  function Paid(n: nat): Ledger {
    Ledger(map["a" := Account(1, n % U64)], 0)
  }

  /** "a" pays its only coin to itself. */
  function Payment(i: nat): Entry {
    Entry(Block(2, "p", [Tx("a", "a", Some(1), None, None, i % U64, "", true, Unchecked)], []), STRICT)
  }

  function Payments(n: nat): (entries: seq<Entry>)
    ensures |entries| == n
  {
    seq(n, i requires 0 <= i < n => Payment(i))
  }

  lemma OnePayment(i: nat)
    ensures ApplyTx(Paid(i), Payment(i).block.txs[0], Payment(i).block, STRICT) == (Paid(i + 1), Funded)
  {
    var l := Paid(i);
    var tx := Payment(i).block.txs[0];
    var charged := SubBalance(l, "a", 1).0;
    assert charged == Ledger(map["a" := Account(0, i % U64)], 0);
    var paid := AddBalance(charged, "a", 1);
    assert paid == l;
    OneOn(Paid(0), "a", i);
    assert IncrementNonce(l, "a") == Paid(i + 1);
    assert tx.receiver != VAULT;
  }

  lemma OneBlock(i: nat)
    ensures Execute(Paid(i), Payment(i).block, STRICT) == Some(Paid(i + 1))
    ensures Trace(Paid(i), Payment(i).block.txs, Payment(i).block, STRICT) == [Done("a", i % U64)]
  {
    OnePayment(i);
    var txs := Payment(i).block.txs;
    assert txs[..0] == [];
    assert ApplyAll(Paid(i), [], Payment(i).block, STRICT) == (Paid(i), true);
    assert Trace(Paid(i), [], Payment(i).block, STRICT) == [];
  }

  lemma {:induction false} PaymentsRun(n: nat)
    ensures Run(Paid(0), Payments(n)) == Paid(n)
    ensures Count(RunTrace(Paid(0), Payments(n)), "a") == n
  {
    if n > 0 {
      var init := Payments(n - 1);
      PaymentsRun(n - 1);
      assert Payments(n)[..n - 1] == init;
      OneBlock(n - 1);
      CountAppend(RunTrace(Paid(0), init), Done("a", (n - 1) % U64), "a");
    }
  }

  /** The replay does happen: a run of 2^64 + 1 committed blocks in strict mode executes one pair twice. */
  lemma ReplayHappens()
    ensures AllStrict(Payments(U64 + 1)) && Replayed(RunTrace(Paid(0), Payments(U64 + 1)), "a")
  {
    PaymentsRun(U64 + 1);
    NoReplay(Paid(0), Payments(U64 + 1), "a");
  }
}
