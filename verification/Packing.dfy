/** Choosing the transactions of a block, and the size check that other nodes make (src/core/blockchain.go). */
module Packing {
  import opened Basics
  import opened Ordering

  const MAX_TX_COUNT: nat := 5
  const BLOCK_OVERHEAD: nat := 1000
  const HEADER_SIZE: nat := 80

  /** `size` is what the memory pool computes for the transaction. */
  datatype Tx = Tx(
    sender: string, nonce: uint64, size: uint64, gasLimit: Option<int>, amount: Option<int>, signatureLength: nat)

  datatype Params = Params(maxBlockSize: uint64, maxTransactionSize: uint64, blockGasLimit: Option<int>)

  // ---------------------------------------------------------------- sizes and gas

  function TotalSize(txs: seq<Tx>): nat {
    if txs == [] then 0 else TotalSize(txs[..|txs| - 1]) + txs[|txs| - 1].size
  }

  /** getTransactionGas. */
  function Gas(tx: Tx): int {
    if tx.gasLimit.Some? && tx.gasLimit.value > 0 then tx.gasLimit.value
    else 21000 + 100 * tx.signatureLength + if tx.amount.Some? && tx.amount.value > 0 then 9000 else 0
  }

  function TotalGas(txs: seq<Tx>): int {
    if txs == [] then 0 else TotalGas(txs[..|txs| - 1]) + Gas(txs[|txs| - 1])
  }

  /** The block size as computed in 64 bits. */
  function BlockSize(txs: seq<Tx>): uint64 {
    (HEADER_SIZE + TotalSize(txs)) % U64
  }

  ghost predicate SmallTxs(txs: seq<Tx>, max: uint64) {
    forall i :: 0 <= i < |txs| ==> txs[i].size <= max
  }

  /** What ValidateBlockSize accepts. */
  ghost predicate PassesSizeCheck(txs: seq<Tx>, p: Params) {
    BlockSize(txs) <= p.maxBlockSize && SmallTxs(txs, p.maxTransactionSize)
  }

  method CalculateBlockSize(txs: seq<Tx>) returns (size: uint64)
    ensures size == BlockSize(txs) == (80 + TotalSize(txs)) % 0x1_0000_0000_0000_0000
  {
    size := 0;
    size := size + HEADER_SIZE;
    for i := 0 to |txs|
      invariant size == BlockSize(txs[..i])
    {
      assert txs[..i + 1][..i] == txs[..i];
      size := (size + txs[i].size) % U64;
    }
    assert txs[..|txs|] == txs;
  }

  datatype Verdict = NoParameters | BlockTooLarge | TransactionTooLarge(index: nat) | Fits

  method ValidateBlockSize(txs: seq<Tx>, params: Option<Params>) returns (v: Verdict)
    ensures v.NoParameters? <==> params.None?
    ensures params.Some? ==> (v.Fits? <==> PassesSizeCheck(txs, params.value))
    ensures params.Some? ==> (v.BlockTooLarge? <==> BlockSize(txs) > params.value.maxBlockSize)
    ensures v.TransactionTooLarge? && params.Some? ==>
              v.index < |txs| && txs[v.index].size > params.value.maxTransactionSize
              && SmallTxs(txs[..v.index], params.value.maxTransactionSize)
  {
    if params.None? { return NoParameters; }
    var blockSize := CalculateBlockSize(txs);
    if blockSize > params.value.maxBlockSize { return BlockTooLarge; }
    for i := 0 to |txs|
      invariant SmallTxs(txs[..i], params.value.maxTransactionSize)
    {
      if txs[i].size > params.value.maxTransactionSize { return TransactionTooLarge(i); }
    }
    assert txs[..|txs|] == txs;
    return Fits;
  }

  // ---------------------------------------------------------------- selection

  /** The room left for transactions, computed in 64 bits: it wraps below the overhead. */
  function Available(p: Params): uint64 {
    (p.maxBlockSize as int - BLOCK_OVERHEAD) % U64
  }

  /** 95% of the room, computed in 64 bits. */
  function NearlyFull(p: Params): uint64 {
    Available(p) * 95 % U64 / 100
  }

  datatype Pack = Pack(chosen: seq<Tx>, size: uint64, gas: int, done: bool)

  const EMPTY := Pack([], 0, 0, false)

  predicate Admits(k: Pack, tx: Tx, p: Params) {
    && tx.size <= p.maxTransactionSize && (k.size + tx.size) % U64 <= Available(p)
    && (p.blockGasLimit.Some? ==> k.gas + Gas(tx) <= p.blockGasLimit.value)
  }

  function Add(k: Pack, tx: Tx, p: Params): Pack {
    var size := (k.size + tx.size) % U64;
    Pack(k.chosen + [tx], size, if p.blockGasLimit.Some? then k.gas + Gas(tx) else k.gas, size >= NearlyFull(p))
  }

  function Full(k: Pack): bool {
    k.done || |k.chosen| >= MAX_TX_COUNT
  }

  /** The greedy choice over the pending transactions in order. */
  function Packed(pending: seq<Tx>, p: Params): Pack {
    if pending == [] then EMPTY
    else
      var k := Packed(pending[..|pending| - 1], p);
      var tx := pending[|pending| - 1];
      if Full(k) || !Admits(k, tx, p) then k else Add(k, tx, p)
  }

  /** By sender, then by nonce. */
  predicate Earlier(a: Tx, b: Tx) {
    if a.sender == b.sender then a.nonce < b.nonce else Before(a.sender, b.sender)
  }

  function Arranged(txs: seq<Tx>): seq<Tx> {
    Sort(Earlier, txs)
  }

  lemma {:induction false} FullStays(pending: seq<Tx>, i: nat, p: Params)
    requires i <= |pending| && Full(Packed(pending[..i], p))
    ensures Packed(pending, p) == Packed(pending[..i], p)
    decreases |pending|
  {
    if i == |pending| {
      assert pending[..i] == pending;
    } else {
      assert pending[..|pending| - 1][..i] == pending[..i];
      FullStays(pending[..|pending| - 1], i, p);
    }
  }

  datatype Selection = TooSmall | Selected(txs: seq<Tx>, size: uint64)

  /** The chosen transactions in order, with their size and the overhead. */
  function Announced(k: Pack): Selection {
    Selected(Arranged(k.chosen), (k.size + BLOCK_OVERHEAD) % U64)
  }

  function Selecting(k: Pack, p: Params): Selection {
    if Available(p) == 0 then TooSmall else Announced(k)
  }

  method SelectTransactionsForBlock(pending: seq<Tx>, p: Params) returns (r: Selection)
    ensures r == Selecting(Packed(pending, p), p)
  {
    var availableSize := Available(p);
    if availableSize <= 0 { return TooSmall; }
    var k := Choose(pending, p, availableSize);
    return Announced(k);
  }

  /** The selection loop. */
  method Choose(pending: seq<Tx>, p: Params, availableSize: uint64) returns (k: Pack)
    requires availableSize == Available(p)
    ensures k == Packed(pending, p)
  {
    var selected, currentSize: uint64, currentGas, done := [], 0, 0, false;
    for i := 0 to |pending|
      invariant Pack(selected, currentSize, currentGas, done) == Packed(pending[..i], p) && !done
    {
      if |selected| >= MAX_TX_COUNT {
        FullStays(pending, i, p);
        return Pack(selected, currentSize, currentGas, done);
      }
      var tx := pending[i];
      PackedStep(pending, i, p);
      if tx.size > p.maxTransactionSize { continue; }
      if (currentSize + tx.size) % U64 > availableSize { continue; }
      if p.blockGasLimit.Some? {
        var proposedGas := currentGas + Gas(tx);
        if proposedGas > p.blockGasLimit.value { continue; }
        currentGas := proposedGas;
      }
      selected := selected + [tx];
      currentSize := (currentSize + tx.size) % U64;
      done := currentSize >= availableSize * 95 % U64 / 100;
      assert Pack(selected, currentSize, currentGas, done) == Packed(pending[..i + 1], p);
      if done {
        FullStays(pending, i + 1, p);
        return Pack(selected, currentSize, currentGas, done);
      }
    }
    assert pending[..|pending|] == pending;
    return Pack(selected, currentSize, currentGas, done);
  }

  lemma PackedStep(pending: seq<Tx>, i: nat, p: Params)
    requires i < |pending|
    ensures var k := Packed(pending[..i], p);
            Packed(pending[..i + 1], p) == if Full(k) || !Admits(k, pending[i], p) then k else Add(k, pending[i], p)
  {
    assert pending[..i + 1][..i] == pending[..i];
  }

  // ---------------------------------------------------------------- what is packed

  /** `part` results from `whole` by leaving out elements. */
  ghost predicate Subsequence(part: seq<Tx>, whole: seq<Tx>) {
    || part == []
    || (whole != [] && part[|part| - 1] == whole[|whole| - 1]
        && Subsequence(part[..|part| - 1], whole[..|whole| - 1]))
    || (whole != [] && Subsequence(part, whole[..|whole| - 1]))
  }

  /** The loop's bookkeeping: the 64-bit size and the gas are those of the chosen transactions, within the limits. */
  ghost predicate Accounted(k: Pack, p: Params) {
    && |k.chosen| <= MAX_TX_COUNT && SmallTxs(k.chosen, p.maxTransactionSize)
    && k.size == TotalSize(k.chosen) % U64 && (k.chosen != [] ==> k.size <= Available(p))
    && (p.blockGasLimit.Some? ==> k.gas == TotalGas(k.chosen) && (k.chosen != [] ==> k.gas <= p.blockGasLimit.value))
  }

  lemma AddAccounted(k: Pack, tx: Tx, p: Params)
    requires Accounted(k, p) && !Full(k) && Admits(k, tx, p)
    ensures Accounted(Add(k, tx, p), p)
  {
    Totals(k.chosen, tx);
    WrapAdd(TotalSize(k.chosen), tx.size);
  }

  lemma Totals(chosen: seq<Tx>, tx: Tx)
    ensures TotalSize(chosen + [tx]) == TotalSize(chosen) + tx.size
    ensures TotalGas(chosen + [tx]) == TotalGas(chosen) + Gas(tx)
  {
    assert (chosen + [tx])[..|chosen|] == chosen;
  }

  lemma WrapAdd(a: nat, b: nat)
    ensures (a % U64 + b) % U64 == (a + b) % U64
  {
  }

  lemma {:induction false} PackedAccounted(pending: seq<Tx>, p: Params)
    ensures Accounted(Packed(pending, p), p)
  {
    if pending != [] {
      var init, tx := pending[..|pending| - 1], pending[|pending| - 1];
      PackedAccounted(init, p);
      var k := Packed(init, p);
      if !Full(k) && Admits(k, tx, p) { AddAccounted(k, tx, p); }
    }
  }

  lemma {:induction false} PackedSubsequence(pending: seq<Tx>, p: Params)
    ensures Subsequence(Packed(pending, p).chosen, pending)
  {
    if pending != [] {
      var init, tx := pending[..|pending| - 1], pending[|pending| - 1];
      PackedSubsequence(init, p);
      var k := Packed(init, p);
      if !Full(k) && Admits(k, tx, p) { assert (k.chosen + [tx])[..|k.chosen|] == k.chosen; }
    }
  }

  // ---------------------------------------------------------------- sorting keeps totals

  lemma EarlierIsStrictOrder()
    ensures StrictOrder(Earlier)
  {
    BeforeIsStrictOrder();
    forall x, y, z | Earlier(x, y) && Earlier(y, z) ensures Earlier(x, z) {
      if x.sender != y.sender && y.sender != z.sender { BeforeTransitive(x.sender, y.sender, z.sender); }
      BeforeIrreflexive(x.sender);
    }
  }

  lemma {:induction false} TotalsConcat(a: seq<Tx>, b: seq<Tx>)
    ensures TotalSize(a + b) == TotalSize(a) + TotalSize(b)
    ensures TotalGas(a + b) == TotalGas(a) + TotalGas(b)
  {
    if b == [] {
      assert a + b == a;
    } else {
      assert (a + b)[..|a + b| - 1] == a + b[..|b| - 1];
      TotalsConcat(a, b[..|b| - 1]);
    }
  }

  lemma {:induction false} TotalsInsert(s: seq<Tx>, x: Tx)
    ensures TotalSize(Insert(Earlier, s, x)) == TotalSize(s) + TotalSize([x])
    ensures TotalGas(Insert(Earlier, s, x)) == TotalGas(s) + TotalGas([x])
  {
    if s != [] {
      TotalsConcat([x], s);
      TotalsInsert(s[1..], x);
      TotalsConcat([s[0]], s[1..]);
      TotalsConcat([s[0]], Insert(Earlier, s[1..], x));
      assert s == [s[0]] + s[1..];
    }
  }

  lemma SortLast(s: seq<Tx>)
    requires s != []
    ensures Arranged(s) == Insert(Earlier, Arranged(s[..|s| - 1]), s[|s| - 1])
  {
  }

  lemma TotalsLast(s: seq<Tx>)
    requires s != []
    ensures TotalSize(s) == TotalSize(s[..|s| - 1]) + TotalSize([s[|s| - 1]])
    ensures TotalGas(s) == TotalGas(s[..|s| - 1]) + TotalGas([s[|s| - 1]])
  {
    assert s == s[..|s| - 1] + [s[|s| - 1]];
    TotalsConcat(s[..|s| - 1], [s[|s| - 1]]);
  }

  lemma {:induction false} TotalsArranged(s: seq<Tx>, sorted: seq<Tx>)
    requires sorted == Arranged(s)
    ensures TotalSize(sorted) == TotalSize(s) && TotalGas(sorted) == TotalGas(s)
    decreases |s|
  {
    if s != [] {
      var init, last := s[..|s| - 1], s[|s| - 1];
      var before := Arranged(init);
      TotalsArranged(init, before);
      SortLast(s);
      TotalsInsert(before, last);
      TotalsLast(s);
    }
  }

  lemma ArrangedSmall(s: seq<Tx>, max: uint64)
    requires SmallTxs(s, max)
    ensures SmallTxs(Arranged(s), max)
  {
    SameElements(Arranged(s), s);
    forall i | 0 <= i < |Arranged(s)| ensures Arranged(s)[i].size <= max { assert Arranged(s)[i] in s; }
  }

  // ---------------------------------------------------------------- main results

  /** Property: a packed list is a (sender, nonce)-sorted rearrangement of a subsequence of the pending list, within the
      count and gas limits. */
  lemma PackedWithinLimits(pending: seq<Tx>, p: Params, chosen: seq<Tx>, txs: seq<Tx>)
    requires chosen == Packed(pending, p).chosen && txs == Arranged(chosen)
    ensures Subsequence(chosen, pending) && multiset(txs) == multiset(chosen) && Sorted(Earlier, txs)
    ensures InOrder(txs) && |txs| <= 5
    ensures p.blockGasLimit.Some? && txs != [] ==> TotalGas(txs) <= p.blockGasLimit.value
  {
    PackedSubsequence(pending, p);
    PackedAccounted(pending, p);
    TotalsArranged(chosen, txs);
    EarlierIsStrictOrder();
    SortSorts(Earlier, chosen);
    SortedInOrder(txs);
    SameElements(txs, chosen);
  }

  /** Senders in ascending order, and the nonces of each sender too. */
  ghost predicate InOrder(txs: seq<Tx>) {
    forall i, j | 0 <= i < j < |txs| ::
      if txs[i].sender == txs[j].sender then txs[i].nonce <= txs[j].nonce else Before(txs[i].sender, txs[j].sender)
  }

  lemma SortedInOrder(txs: seq<Tx>)
    requires Sorted(Earlier, txs)
    ensures InOrder(txs)
  {
    forall i, j | 0 <= i < j < |txs| && txs[i].sender != txs[j].sender ensures Before(txs[i].sender, txs[j].sender) {
      assert !Earlier(txs[j], txs[i]);
      BeforeTotal(txs[i].sender, txs[j].sender);
    }
  }

  /** Property: transactions of one sender with one nonce keep the order in which they were pending. */
  lemma EqualsKeepOrder(chosen: seq<Tx>, tx: Tx)
    ensures Peers(Earlier, Arranged(chosen), tx) == Peers(Earlier, chosen, tx)
  {
    EarlierIsStrictOrder();
    forall x, y, z | Earlier(x, y) && !Earlier(z, y) ensures Earlier(x, z) {
      BeforeTotal(y.sender, z.sender);
      if Before(y.sender, z.sender) && Before(x.sender, y.sender) { BeforeTransitive(x.sender, y.sender, z.sender); }
    }
    SortIsStable(Earlier, chosen, tx);
  }

  // ---------------------------------------------------------------- nothing is left out without reason

  /** The selection stops exactly when the chosen transactions fill 95 percent of the room. */
  lemma {:induction false} DoneExactly(pending: seq<Tx>, p: Params)
    ensures var k := Packed(pending, p); k.done <==> k.chosen != [] && k.size >= NearlyFull(p)
  {
    if pending != [] { DoneExactly(pending[..|pending| - 1], p); }
  }

  /** The room in plain numbers: the block size limit less 1000, in 64 bits. */
  function Room(p: Params): nat {
    (p.maxBlockSize as int - 1000) % 0x1_0000_0000_0000_0000
  }

  /** What keeps a transaction out, given those chosen before it. */
  predicate KeptOut(tx: Tx, before: seq<Tx>, p: Params) {
    var size := TotalSize(before) % 0x1_0000_0000_0000_0000;
    || |before| >= 5
    || (before != [] && size >= Room(p) * 95 % 0x1_0000_0000_0000_0000 / 100)
    || tx.size > p.maxTransactionSize
    || (size + tx.size) % 0x1_0000_0000_0000_0000 > Room(p)
    || (p.blockGasLimit.Some? && TotalGas(before) + Gas(tx) > p.blockGasLimit.value)
  }

  /** Property: a pending transaction is left out if and only if five were chosen before it, or those filled 95 percent of
      the room, or it exceeds the transaction size limit, or with those it would exceed the room or the gas limit; and
      otherwise it is taken. */
  lemma LeftOutExactly(pending: seq<Tx>, p: Params, i: nat)
    requires i < |pending|
    ensures var before := Packed(pending[..i], p).chosen;
            Packed(pending[..i + 1], p).chosen == if KeptOut(pending[i], before, p) then before else before + [pending[i]]
  {
    PackedStep(pending, i, p);
    PackedAccounted(pending[..i], p);
    DoneExactly(pending[..i], p);
  }

  lemma {:induction false} PrefixSizes(txs: seq<Tx>, n: nat)
    requires n <= |txs|
    ensures TotalSize(txs[..n]) <= TotalSize(txs) && n <= TotalGas(txs[..n]) <= TotalGas(txs) - (|txs| - n)
    decreases |txs|
  {
    EveryTxTakesGas(txs[..n]);
    if n < |txs| {
      assert txs[..|txs| - 1][..n] == txs[..n];
      PrefixSizes(txs[..|txs| - 1], n);
    } else {
      assert txs[..n] == txs;
    }
  }

  /** A list that fits: at most five transactions within the size limit each, within room and gas limit together, with 95
      percent of the room not reached before the last. */
  ghost predicate FitsWhole(pending: seq<Tx>, p: Params) {
    && |pending| <= 5 && SmallTxs(pending, p.maxTransactionSize) && TotalSize(pending) <= Room(p)
    && (p.blockGasLimit.Some? ==> TotalGas(pending) <= p.blockGasLimit.value)
    && forall i :: 0 < i < |pending| ==> TotalSize(pending[..i]) < Room(p) * 95 % 0x1_0000_0000_0000_0000 / 100
  }

  lemma FittingIsTaken(pending: seq<Tx>, p: Params, i: nat)
    requires FitsWhole(pending, p) && i < |pending|
    ensures !KeptOut(pending[i], pending[..i], p)
  {
    PrefixSizes(pending, i);
    PrefixSizes(pending, i + 1);
    OneMoreTx(pending, i);
    RoomBound(p);
    Unwrapped(TotalSize(pending[..i]));
    Unwrapped(TotalSize(pending[..i + 1]));
  }

  lemma OneMoreTx(txs: seq<Tx>, i: nat)
    requires i < |txs|
    ensures TotalSize(txs[..i + 1]) == TotalSize(txs[..i]) + txs[i].size
    ensures TotalGas(txs[..i + 1]) == TotalGas(txs[..i]) + Gas(txs[i])
  {
    assert txs[..i + 1][..i] == txs[..i];
  }

  lemma RoomBound(p: Params)
    ensures Room(p) < 0x1_0000_0000_0000_0000
  {
  }

  lemma Unwrapped(n: nat)
    ensures n < 0x1_0000_0000_0000_0000 ==> n % 0x1_0000_0000_0000_0000 == n
  {
  }

  lemma TakenNext(pending: seq<Tx>, p: Params, i: nat)
    requires FitsWhole(pending, p) && i < |pending| && Packed(pending[..i], p).chosen == pending[..i]
    ensures Packed(pending[..i + 1], p).chosen == pending[..i + 1]
  {
    FittingIsTaken(pending, p, i);
    LeftOutExactly(pending, p, i);
    assert pending[..i + 1] == pending[..i] + [pending[i]];
  }

  /** Property: such a list is taken whole, and announced with its true size and the overhead. */
  lemma {:induction false} TakenWhole(pending: seq<Tx>, p: Params, n: nat)
    requires FitsWhole(pending, p) && n <= |pending|
    ensures Packed(pending[..n], p).chosen == pending[..n]
  {
    if n > 0 {
      var i := n - 1;
      TakenWhole(pending, p, i);
      TakenNext(pending, p, i);
    }
  }

  /** Property: at an ordinary block size nothing wraps: with a limit from 1001 bytes up to a hundredth of 2^64, the room is
      the limit less 1000 and the selection stops at 95 percent of it. */
  lemma OrdinaryRoom(p: Params)
    requires 1000 < p.maxBlockSize < 0x1_0000_0000_0000_0000 / 100
    ensures Room(p) == p.maxBlockSize - 1000
    ensures Room(p) * 95 % 0x1_0000_0000_0000_0000 / 100 == (p.maxBlockSize - 1000) * 95 / 100
  {
  }

  /** Plain transfers, with an amount and without a gas limit, take 30000 units of gas and 100 for each byte of signature. */
  lemma {:induction false} TransfersTakeGas(txs: seq<Tx>, signature: nat)
    requires forall i :: 0 <= i < |txs| ==>
               txs[i].gasLimit.None? && txs[i].amount.Some? && txs[i].amount.value > 0 && txs[i].signatureLength == signature
    ensures TotalGas(txs) == |txs| * (30000 + 100 * signature)
  {
    if txs != [] {
      TransfersTakeGas(txs[..|txs| - 1], signature);
      assert |txs| * (30000 + 100 * signature) == (|txs| - 1) * (30000 + 100 * signature) + (30000 + 100 * signature);
    }
  }

  /** The most transactions a block can hold: five, or fewer if the gas limit is tighter, as each takes a unit. */
  function MostTxs(p: Params): nat {
    if p.blockGasLimit.None? || p.blockGasLimit.value >= MAX_TX_COUNT then MAX_TX_COUNT
    else if p.blockGasLimit.value < 0 then 0 else p.blockGasLimit.value
  }

  lemma {:induction false} EveryTxTakesGas(txs: seq<Tx>)
    ensures TotalGas(txs) >= |txs|
  {
    if txs != [] { EveryTxTakesGas(txs[..|txs| - 1]); }
  }

  lemma PackedSize(pending: seq<Tx>, p: Params, txs: seq<Tx>)
    requires txs == Arranged(Packed(pending, p).chosen)
    ensures |txs| <= MostTxs(p) && SmallTxs(txs, p.maxTransactionSize)
    ensures txs != [] ==> TotalSize(txs) % U64 <= Available(p)
  {
    var k := Packed(pending, p);
    PackedAccounted(pending, p);
    EveryTxTakesGas(k.chosen);
    TotalsArranged(k.chosen, txs);
    ArrangedSmall(k.chosen, p.maxTransactionSize);
    SameElements(txs, k.chosen);
  }

  lemma HeaderFits(n: nat, room: nat)
    requires n % U64 <= room && room + BLOCK_OVERHEAD < U64
    ensures (HEADER_SIZE + n) % U64 <= room + HEADER_SIZE
  {
    WrapAdd(n, HEADER_SIZE);
  }

  lemma RoomPasses(txs: seq<Tx>, p: Params)
    requires p.maxBlockSize > BLOCK_OVERHEAD && SmallTxs(txs, p.maxTransactionSize)
    requires txs != [] ==> TotalSize(txs) % U64 <= Available(p)
    ensures PassesSizeCheck(txs, p)
  {
    assert Available(p) == p.maxBlockSize - BLOCK_OVERHEAD;
    HeaderFits(TotalSize(txs), Available(p));
  }

  /** Property: with room beyond the overhead, every packed list passes the size check of the other nodes, even if the
      64-bit additions of sizes go round. */
  lemma PackedPasses(pending: seq<Tx>, p: Params, txs: seq<Tx>)
    requires p.maxBlockSize > BLOCK_OVERHEAD && txs == Arranged(Packed(pending, p).chosen)
    ensures PassesSizeCheck(txs, p)
  {
    PackedSize(pending, p, txs);
    RoomPasses(txs, p);
  }

  lemma {:induction false} SmallTotal(txs: seq<Tx>, max: uint64)
    requires SmallTxs(txs, max)
    ensures TotalSize(txs) <= |txs| * max
  {
    if txs != [] { SmallTotal(txs[..|txs| - 1], max); }
  }

  /** The header and as many transactions of the largest size as can be taken fit. */
  predicate MostFit(p: Params) {
    HEADER_SIZE + MostTxs(p) * p.maxTransactionSize <= p.maxBlockSize
  }

  lemma Product(a: nat, b: nat, c: nat)
    requires a <= b
    ensures a * c <= b * c
  {
  }

  lemma MostPass(txs: seq<Tx>, p: Params)
    requires MostFit(p) && |txs| <= MostTxs(p) && SmallTxs(txs, p.maxTransactionSize)
    ensures PassesSizeCheck(txs, p)
  {
    SmallTotal(txs, p.maxTransactionSize);
    Product(|txs|, MostTxs(p), p.maxTransactionSize);
  }

  // ---------------------------------------------------------------- blocks too small for the overhead

  function Sample(size: uint64): Tx {
    Tx("a", 0, size, Some(1), None, 0)
  }

  function Samples(n: nat, size: uint64): (s: seq<Tx>)
    ensures |s| == n
  {
    seq(n, _ => Sample(size))
  }

  lemma {:induction false} SampleTotals(n: nat, size: uint64)
    ensures TotalSize(Samples(n, size)) == n * size && TotalGas(Samples(n, size)) == n
  {
    if n > 0 {
      assert Samples(n, size)[..n - 1] == Samples(n - 1, size);
      SampleTotals(n - 1, size);
    }
  }

  /** Below the overhead the room wraps to nearly 2^64 bytes. */
  lemma WrappedRoom(p: Params)
    requires p.maxBlockSize < BLOCK_OVERHEAD
    ensures Available(p) > 5000 && NearlyFull(p) > 5000
  {
    var d := BLOCK_OVERHEAD - p.maxBlockSize;
    assert Available(p) == U64 - d;
    assert (U64 - d) * 95 == 94 * U64 + (U64 - 95 * d);
    assert Available(p) * 95 % U64 == U64 - 95 * d;
  }

  lemma TakeSample(k: Pack, size: uint64, p: Params)
    requires p.maxBlockSize < BLOCK_OVERHEAD && size <= p.maxTransactionSize && k.size + size <= 5000
    requires |k.chosen| < MAX_TX_COUNT && !k.done && (p.blockGasLimit.Some? ==> k.gas < p.blockGasLimit.value)
    ensures !Full(k) && Admits(k, Sample(size), p)
    ensures Add(k, Sample(size), p)
         == Pack(k.chosen + [Sample(size)], k.size + size, if p.blockGasLimit.Some? then k.gas + 1 else k.gas, false)
  {
    WrappedRoom(p);
  }

  function SamplePack(n: nat, size: uint64, p: Params): Pack
    requires n <= MAX_TX_COUNT && size <= BLOCK_OVERHEAD
  {
    Product(n, MAX_TX_COUNT, size);
    Pack(Samples(n, size), n * size, if p.blockGasLimit.Some? then n else 0, false)
  }

  lemma SamplesGrow(n: nat, size: uint64, p: Params)
    requires n < MostTxs(p) && size <= p.maxTransactionSize && size <= BLOCK_OVERHEAD
    requires p.maxBlockSize < BLOCK_OVERHEAD
    ensures !Full(SamplePack(n, size, p)) && Admits(SamplePack(n, size, p), Sample(size), p)
    ensures Add(SamplePack(n, size, p), Sample(size), p) == SamplePack(n + 1, size, p)
  {
    var k := SamplePack(n, size, p);
    Product(n + 1, MAX_TX_COUNT, size);
    assert k.size + size == (n + 1) * size;
    TakeSample(k, size, p);
    assert Samples(n + 1, size) == Samples(n, size) + [Sample(size)];
  }

  /** Small samples are then all taken. */
  lemma {:induction false} SamplesPacked(n: nat, size: uint64, p: Params)
    requires n <= MostTxs(p) && size <= p.maxTransactionSize && size <= BLOCK_OVERHEAD
    requires p.maxBlockSize < BLOCK_OVERHEAD
    ensures Packed(Samples(n, size), p) == SamplePack(n, size, p)
  {
    if n > 0 {
      SamplesPacked(n - 1, size, p);
      SamplesGrow(n - 1, size, p);
      var pending := Samples(n, size);
      assert pending[..n - 1] == Samples(n - 1, size);
      PackedLast(pending, p);
    } else {
      assert Samples(0, size) == [];
    }
  }

  lemma PackedLast(pending: seq<Tx>, p: Params)
    requires pending != []
    ensures var k, tx := Packed(pending[..|pending| - 1], p), pending[|pending| - 1];
            Packed(pending, p) == if Full(k) || !Admits(k, tx, p) then k else Add(k, tx, p)
  {
  }

  /** `txs` is what is packed from some list of pending transactions. */
  ghost predicate Packable(txs: seq<Tx>, p: Params) {
    exists pending :: txs == Arranged(Packed(pending, p).chosen)
  }

  /** Some packed block fails the check. */
  ghost predicate CanFail(p: Params) {
    Available(p) != 0 && exists txs :: Packable(txs, p) && !PassesSizeCheck(txs, p)
  }

  lemma TooLarge(txs: seq<Tx>, p: Params)
    requires p.maxBlockSize < HEADER_SIZE + TotalSize(txs) < U64
    ensures !PassesSizeCheck(txs, p)
  {
  }

  lemma SamplesFail(p: Params, n: nat, size: uint64) returns (txs: seq<Tx>)
    requires n == MostTxs(p) && size <= p.maxTransactionSize && size <= BLOCK_OVERHEAD
    requires p.maxBlockSize < BLOCK_OVERHEAD
    requires HEADER_SIZE + n * size > p.maxBlockSize
    ensures Packable(txs, p) && !PassesSizeCheck(txs, p)
  {
    var samples := Samples(n, size);
    SamplesPacked(n, size, p);
    assert Packed(samples, p).chosen == samples;
    txs := Arranged(samples);
    SampleTotals(n, size);
    Product(n, MAX_TX_COUNT, size);
    TotalsArranged(samples, txs);
    TooLarge(txs, p);
  }

  lemma PackablePasses(txs: seq<Tx>, p: Params)
    requires Packable(txs, p) && (p.maxBlockSize > BLOCK_OVERHEAD || MostFit(p))
    ensures PassesSizeCheck(txs, p)
  {
    var pending :| txs == Arranged(Packed(pending, p).chosen);
    PackedSize(pending, p, txs);
    if MostFit(p) { MostPass(txs, p); } else { PackedPasses(pending, p, txs); }
  }

  lemma TightCanFail(p: Params)
    requires p.maxBlockSize < BLOCK_OVERHEAD && !MostFit(p)
    ensures CanFail(p)
  {
    WrappedRoom(p);
    var n := MostTxs(p);
    var size := if p.maxTransactionSize < BLOCK_OVERHEAD then p.maxTransactionSize else BLOCK_OVERHEAD;
    if n > 0 { Product(1, n, size); }
    assert HEADER_SIZE + n * size > p.maxBlockSize;
    var txs := SamplesFail(p, n, size);
  }

  lemma OthersPass(p: Params)
    requires p.maxBlockSize >= BLOCK_OVERHEAD || MostFit(p)
    ensures !CanFail(p)
  {
    if p.maxBlockSize == BLOCK_OVERHEAD {
      assert Available(p) == 0;
    } else {
      forall txs | Packable(txs, p) ensures PassesSizeCheck(txs, p) { PackablePasses(txs, p); }
    }
  }

  /** Property, exactly: packing can yield a block that fails the check if and only if the block size limit is below the
      overhead and as many transactions of the largest size as can be taken exceed it. */
  lemma PackingCanFail(p: Params)
    ensures CanFail(p) <==> p.maxBlockSize < BLOCK_OVERHEAD && !MostFit(p)
  {
    if p.maxBlockSize < BLOCK_OVERHEAD && !MostFit(p) { TightCanFail(p); } else { OthersPass(p); }
  }
}
