/** Stores grown from empty by executing blocks, and what their state roots tell. */
module Chains {
  import opened Basics
  import opened Merkle
  import opened Accounts
  import opened StateDb
  import opened Execution
  import opened Executor
  import opened Conservation

  /** A block, the mode it is executed in, and whether the write that commits it succeeds. */
  datatype Attempt = Attempt(entry: Entry, ioOk: bool)

  /** The ledger after a list of attempts on an empty store: refused and unwritten blocks leave no trace. */
  function Grown(attempts: seq<Attempt>): Ledger {
    if attempts == [] then Ledger(map[], 0)
    else
      var before, last := Grown(attempts[..|attempts| - 1]), attempts[|attempts| - 1];
      if last.ioOk then After(before, last.entry) else before
  }

  /** The root that the last attempt returns: that of the table it leaves, if it is executed and written. */
  ghost function RootAfter(attempts: seq<Attempt>): Option<Digest>
    requires attempts != []
  {
    var before, last := Grown(attempts[..|attempts| - 1]), attempts[|attempts| - 1];
    if last.ioOk && Execute(before, last.entry.block, last.entry.cfg).Some? then Some(TableRoot(Grown(attempts).accounts))
    else None
  }

  /** Executes the blocks one after the other on a new store; the roots are a function of the plain ledgers. */
  method Grow(attempts: seq<Attempt>) returns (db: Store, roots: seq<Option<Digest>>)
    ensures fresh(db) && db.Valid() && Canonical(db.data) && db.ledger == Grown(attempts)
    ensures |roots| == |attempts| && forall i :: 0 <= i < |roots| ==> roots[i] == RootAfter(attempts[..i + 1])
  {
    db := new Store();
    roots := [];
    for n := 0 to |attempts|
      invariant fresh(db) && db.Valid() && Canonical(db.data) && db.ledger == Grown(attempts[..n])
      invariant |roots| == n && forall i :: 0 <= i < n ==> roots[i] == RootAfter(attempts[..i + 1])
    {
      assert attempts[..n + 1] == attempts[..n] + [attempts[n]];
      var root := GrowBy(db, attempts[..n], attempts[n]);
      roots := roots + [root];
    }
    assert attempts[..|attempts|] == attempts;
  }

  method GrowBy(db: Store, ghost before: seq<Attempt>, a: Attempt) returns (root: Option<Digest>)
    requires db.Valid() && Canonical(db.data) && db.ledger == Grown(before)
    modifies db
    ensures db.Valid() && Canonical(db.data) && db.ledger == Grown(before + [a])
    ensures root == RootAfter(before + [a])
  {
    assert (before + [a])[..|before|] == before;
    root := ExecuteBlock(db, a.entry.block, a.entry.cfg, a.ioOk);
  }

  /** Property: two nodes that execute blocks from empty stores return the same root if and only if their account tables
      are the same, however different the blocks, the failures on the way and the recorded public keys. */
  lemma RootsTell(x: seq<Attempt>, y: seq<Attempt>)
    requires x != [] && y != [] && RootAfter(x).Some? && RootAfter(y).Some?
    ensures RootAfter(x) == RootAfter(y) <==> Grown(x).accounts == Grown(y).accounts
  {
    TableRootExact(Grown(x).accounts, Grown(y).accounts);
  }

  /** Property: the order in which a node lists the attestors of a block, and how often, does not change the root. */
  lemma AttestorOrderKeepsRoot(before: seq<Attempt>, b: Block, c: Block, cfg: Config, ioOk: bool)
    requires c == b.(attestors := c.attestors) && Members(b.attestors) == Members(c.attestors)
    requires Capped(b.attestors, cfg) == b.attestors && Capped(c.attestors, cfg) == c.attestors
    ensures var x, y := before + [Attempt(Entry(b, cfg), ioOk)], before + [Attempt(Entry(c, cfg), ioOk)];
            Grown(x) == Grown(y) && RootAfter(x) == RootAfter(y)
  {
    var x, y := before + [Attempt(Entry(b, cfg), ioOk)], before + [Attempt(Entry(c, cfg), ioOk)];
    assert x[..|before|] == before && y[..|before|] == before;
    ExecutionBySet(Grown(before), b, c, cfg);
  }
}
