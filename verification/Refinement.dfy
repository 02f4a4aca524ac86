/** Whole sequences of operations on the cached store behave like the same sequences on plain tables. */
module Refinement {
  import opened Basics
  import opened Merkle
  import opened Accounts
  import opened StateDb

  datatype Operation =
    | ReadBalance(address: string)
    | ReadNonce(address: string)
    | ReadSupply
    | WriteBalance(address: string, amount: int)
    | Credit(address: string, amount: int)
    | Debit(address: string, amount: int)
    | WriteNonce(address: string, nonce: uint64)
    | BumpNonce(address: string)
    | Mint(amount: int)
    | Burn(amount: int)
    | RegisterKey(address: string, key: string)
    | CommitChanges(ioOk: bool)
    | Reopen

  /** Two plain tables: the one being worked on, and the one that survives reopening. */
  datatype Plain = Plain(working: Ledger, durable: Ledger)

  /** What an operation answers: nothing, a number, whether a withdrawal was accepted, or the root of a commit, which
      is None when the write fails. */
  datatype Answer = Done | Number(n: int) | Accepted(yes: bool) | Committed(root: Option<Digest>)

  /** The effect of an operation on plain tables and the answer it gives; the root of a commit is that of the table. */
  ghost function PlainStep(p: Plain, op: Operation): (Plain, Answer) {
    match op
    case ReadBalance(a) => (p, Number(Get(p.working, a).balance))
    case ReadNonce(a) => (p, Number(Get(p.working, a).nonce))
    case ReadSupply => (p, Number(p.working.supply))
    case WriteBalance(a, n) => (p.(working := SetBalance(p.working, a, n)), Done)
    case Credit(a, n) => (p.(working := AddBalance(p.working, a, n)), Done)
    case Debit(a, n) => (p.(working := SubBalance(p.working, a, n).0), Accepted(SubBalance(p.working, a, n).1))
    case WriteNonce(a, n) => (p.(working := SetNonce(p.working, a, n)), Done)
    case BumpNonce(a) => (p.(working := IncrementNonce(p.working, a)), Done)
    case Mint(n) => (p.(working := AddSupply(p.working, n)), Done)
    case Burn(n) => (p.(working := AddSupply(p.working, -n)), Done)
    case RegisterKey(_, _) => (p, Done)
    case CommitChanges(ioOk) =>
      if ioOk then (p.(durable := p.working), Committed(Some(TableRoot(p.working.accounts)))) else (p, Committed(None))
    case Reopen => (p.(working := p.durable), Done)
  }

  ghost function PlainRun(p: Plain, ops: seq<Operation>): (Plain, seq<Answer>) {
    if ops == [] then (p, [])
    else
      var before := PlainRun(p, ops[..|ops| - 1]);
      var step := PlainStep(before.0, ops[|ops| - 1]);
      (step.0, before.1 + [step.1])
  }

  /** Equal answers, up to which root a successful commit returned. */
  predicate Alike(x: Answer, y: Answer) {
    x == y || (x.Committed? && y.Committed? && x.root.Some? && y.root.Some?)
  }

  ghost predicate AllAlike(x: seq<Answer>, y: seq<Answer>) {
    |x| == |y| && forall i :: 0 <= i < |x| ==> Alike(x[i], y[i])
  }

  /** One operation on the cached store. */
  method Perform(s: StateDB, op: Operation) returns (s': StateDB, answer: Answer)
    requires s.db.Valid()
    modifies s, s.db
    ensures s'.db == s.db && s.db.Valid() && (s' == s || fresh(s'))
    ensures KeepsCanonical(old(s.db.data), s.db.data)
    ensures Plain(s'.View(), s.db.ledger) == PlainStep(old(Plain(s.View(), s.db.ledger)), op).0
    ensures Alike(answer, PlainStep(old(Plain(s.View(), s.db.ledger)), op).1)
    ensures old(Canonical(s.db.data)) ==> answer == PlainStep(old(Plain(s.View(), s.db.ledger)), op).1
  {
    s', answer := s, Done;
    match op
    case ReadBalance(a) => { var n := s.GetBalance(a); answer := Number(n); }
    case ReadNonce(a) => { var n := s.GetNonce(a); answer := Number(n); }
    case ReadSupply => answer := Number(s.totalSupply);
    case WriteBalance(a, n) => s.SetBalance(a, n);
    case Credit(a, n) => s.AddBalance(a, n);
    case Debit(a, n) => { var ok := s.SubBalance(a, n); answer := Accepted(ok); }
    case WriteNonce(a, n) => s.SetNonce(a, n);
    case BumpNonce(a) => s.IncrementNonce(a);
    case Mint(n) => s.IncrementTotalSupply(n);
    case Burn(n) => s.DecrementTotalSupply(n);
    case RegisterKey(a, k) => s.RegisterPublicKey(a, k);
    case CommitChanges(ioOk) => { var root := s.Commit(ioOk); answer := Committed(root); }
    case Reopen => s' := new StateDB(s.db);
  }

  /** Property: every sequence of reads, writes, commits and reopenings answers exactly like plain tables, state roots
      included, and leaves the store holding exactly the plain durable table. On a store with foreign account records
      only the roots can differ. */
  method Replay(db: Store, ops: seq<Operation>) returns (answers: seq<Answer>)
    requires db.Valid()
    modifies db
    ensures db.Valid() && KeepsCanonical(old(db.data), db.data)
    ensures db.ledger == PlainRun(Plain(old(db.ledger), old(db.ledger)), ops).0.durable
    ensures AllAlike(answers, PlainRun(Plain(old(db.ledger), old(db.ledger)), ops).1)
    ensures old(Canonical(db.data)) ==> answers == PlainRun(Plain(old(db.ledger), old(db.ledger)), ops).1
  {
    ghost var start := Plain(db.ledger, db.ledger);
    ghost var canonical := Canonical(db.data);
    var s := new StateDB(db);
    answers := [];
    for i := 0 to |ops|
      invariant fresh(s) && s.db == db && db.Valid() && (canonical ==> Canonical(db.data))
      invariant Plain(s.View(), db.ledger) == PlainRun(start, ops[..i]).0
      invariant AllAlike(answers, PlainRun(start, ops[..i]).1)
      invariant canonical ==> answers == PlainRun(start, ops[..i]).1
    {
      assert ops[..i + 1][..i] == ops[..i];
      var answer;
      s, answer := Perform(s, ops[i]);
      answers := answers + [answer];
    }
    assert ops[..|ops|] == ops;
  }
}
