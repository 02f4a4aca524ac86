/** How votes add up: what a node needs to decide a block or to commit itself to one, and how a table fills. */
module Counting {
  import opened Basics
  import opened Sums
  import opened Staking
  import opened Engine
  import opened Progress

  /** The quorum rule in plain numbers: strictly more than two thirds of a total that is not zero. */
  lemma QuorumExact(r: Registry, voters: set<string>)
    ensures HasQuorum(r, voters) <==> r.total != 0 && 3 * Weight(Stakes(r), voters) > 2 * r.total
  {
  }

  // ---------------------------------------------------------------- one vote

  predicate WorksOn(n: Node, hash: Hash) {
    n.ballot.locked == Some(hash.block) || n.ballot.prepared == Some(hash.block)
  }

  /** Exactly when a commit vote decides its block. */
  ghost predicate Decisive(n: Node, v: Vote, r: Registry, e: Env)
    requires n.chain != []
  {
    var known := Votes(n.ballot.commitVotes, v.hash).Keys;
    && e.sigOk && v.voter !in known && r.total != 0 && 3 * Weight(Stakes(r), known + {v.voter}) > 2 * r.total
    && WorksOn(n, v.hash) && v.hash.block.height == Tip(n) + 1 && e.commitOk
  }

  /** Property: a commit vote decides the block if and only if it is signed, new, brings the recorded voters over two
      thirds of the stake, names the block worked on at the next height, and the chain takes it. The decision carries all
      recorded voters, and the node starts the next round at view one. */
  lemma VoteDecides(n: Node, v: Vote, r: Registry, e: Env)
    requires n.chain != []
    ensures var (n', effect) := ProcessVote(n, v, r, e);
            && (effect.Decide? <==> Decisive(n, v, r, e))
            && (effect.Decide? ==>
                  && effect == Decide(v.hash.block, Votes(n.ballot.commitVotes, v.hash).Keys + {v.voter})
                  && n'.chain == n.chain + [v.hash.block] && n'.height == v.hash.block.height && n'.view == 1
                  && n'.ballot == FRESH && n'.timeoutVotes == map[] && n'.lead == n.lead.(viewChanges := 0)
                  && n'.sticky == if n.sticky.height <= v.hash.block.height then Sticky(None, 0) else n.sticky)
  {
    var votes := Votes(n.ballot.commitVotes, v.hash);
    assert votes[v.voter := v].Keys == votes.Keys + {v.voter};
    QuorumExact(r, votes.Keys + {v.voter});
  }

  /** A table after a vote: its voters are the known ones and the new one, and other hashes keep theirs. */
  ghost predicate Joined(before: VoteTable, v: Vote, after: VoteTable) {
    && Votes(after, v.hash).Keys == Votes(before, v.hash).Keys + {v.voter}
    && (forall h :: h != v.hash ==> Votes(after, h) == Votes(before, h))
  }

  lemma TableJoins(table: VoteTable, v: Vote)
    ensures var votes := Votes(table, v.hash);
            && Joined(table, v, table[v.hash := votes[v.voter := v]])
            && (v.voter in votes ==> Joined(table, v, table[v.hash := votes]))
  {
    var votes := Votes(table, v.hash);
    assert votes[v.voter := v].Keys == votes.Keys + {v.voter};
    assert v.voter in votes ==> votes.Keys + {v.voter} == votes.Keys;
  }

  /** A signed commit vote that does not decide joins the table of its hash and changes nothing else that counts. */
  lemma VoteJoins(n: Node, v: Vote, r: Registry, e: Env)
    requires n.chain != [] && e.sigOk && !Decisive(n, v, r, e)
    ensures var n' := ProcessVote(n, v, r, e).0;
            && Joined(n.ballot.commitVotes, v, n'.ballot.commitVotes)
            && n'.chain == n.chain && n'.ballot.prepared == n.ballot.prepared && n'.ballot.locked == n.ballot.locked
            && n'.ballot.prepareVotes == n.ballot.prepareVotes
  {
    TableJoins(n.ballot.commitVotes, v);
    QuorumExact(r, Votes(n.ballot.commitVotes, v.hash).Keys + {v.voter});
  }

  /** A prepare vote completes a certificate for the block under consideration. */
  ghost predicate Certifies(n: Node, v: Vote, r: Registry, e: Env) {
    var known := Votes(n.ballot.prepareVotes, v.hash).Keys;
    && e.sigOk && v.voter !in known && r.total != 0 && 3 * Weight(Stakes(r), known + {v.voter}) > 2 * r.total
    && n.ballot.prepared == Some(v.hash.block)
  }

  /** Exactly when a prepare vote makes the node lock the block. */
  ghost predicate Convincing(n: Node, v: Vote, r: Registry, e: Env) {
    Certifies(n, v, r, e) && n.ballot.phase == PrePrepared
  }

  /** Property: a prepare vote locks the block if and only if it is signed, new, brings the recorded voters over two
      thirds of the stake and names the proposal under consideration; the node then sends its own commit vote, unless it
      has sent one for that hash or cannot sign. */
  lemma PrepareLocks(n: Node, v: Vote, r: Registry, e: Env)
    ensures var (n', effect) := ProcessPrepareVote(n, v, r, e);
            && (Convincing(n, v, r, e) ==>
                  && n'.ballot.locked == Some(v.hash.block) && n'.ballot.phase == Prepared
                  && effect == if v.hash !in n.ballot.sentCommit && e.signOk then SendCommit(Vote(v.hash, v.view, n.id))
                               else Silent)
            && (!Convincing(n, v, r, e) ==>
                  n'.ballot.locked == n.ballot.locked && n'.ballot.phase == n.ballot.phase && effect == Silent)
            && n'.sticky == if Certifies(n, v, r, e) then Sticky(Some(v.hash.block), n.height) else n.sticky
  {
    QuorumExact(r, Votes(n.ballot.prepareVotes, v.hash).Keys + {v.voter});
  }

  /** Every signed prepare vote joins the table of its hash. */
  lemma PrepareJoins(n: Node, v: Vote, r: Registry, e: Env)
    requires e.sigOk
    ensures var n' := ProcessPrepareVote(n, v, r, e).0;
            && Joined(n.ballot.prepareVotes, v, n'.ballot.prepareVotes)
            && n'.chain == n.chain && n'.ballot.prepared == n.ballot.prepared
            && n'.ballot.commitVotes == n.ballot.commitVotes
  {
    TableJoins(n.ballot.prepareVotes, v);
  }

  // ---------------------------------------------------------------- sequences of votes

  ghost predicate SignedCommits(inputs: seq<Input>, hash: Hash) {
    forall i :: 0 <= i < |inputs| ==> inputs[i].event.OnCommit? && inputs[i].event.vote.hash == hash && inputs[i].env.sigOk
  }

  ghost predicate SignedPrepares(inputs: seq<Input>, hash: Hash) {
    forall i :: 0 <= i < |inputs| ==> inputs[i].event.OnPrepare? && inputs[i].event.vote.hash == hash && inputs[i].env.sigOk
  }

  function VoterOf(ev: Event): string {
    if ev.OnPrepare? || ev.OnCommit? then ev.vote.voter else ""
  }

  /** The known voters and those of the first `k` inputs. */
  function Heard(known: set<string>, inputs: seq<Input>, k: nat): set<string>
    requires k <= |inputs|
  {
    known + set i | 0 <= i < k :: VoterOf(inputs[i].event)
  }

  lemma HeardMore(known: set<string>, inputs: seq<Input>, k: nat)
    requires k < |inputs|
    ensures Heard(known, inputs, k + 1) == Heard(known, inputs, k) + {VoterOf(inputs[k].event)}
  {
  }

  lemma HeardNone(known: set<string>, inputs: seq<Input>)
    ensures Heard(known, inputs, 0) == known
  {
  }

  /** Neither the known voters nor any of the first `k` votes bring the voters over two thirds. */
  ghost predicate Short(r: Registry, known: set<string>, inputs: seq<Input>, k: nat)
    requires k <= |inputs|
  {
    forall i :: 0 <= i <= k ==> !HasQuorum(r, Heard(known, inputs, i))
  }

  /** Waiting for commit votes: `n'` is `n` with `voters` in the table of `hash`. */
  ghost predicate Collected(n: Node, n': Node, hash: Hash, voters: set<string>) {
    && Votes(n'.ballot.commitVotes, hash).Keys == voters
    && n'.chain == n.chain && n'.ballot.prepared == n.ballot.prepared && n'.ballot.locked == n.ballot.locked
  }

  /** As long as the delivered votes fall short, the table holds exactly their voters and nothing is decided. */
  lemma {:induction false} CommitsCollect(n: Node, r: Registry, hash: Hash, inputs: seq<Input>, k: nat)
    requires n.chain != [] && SignedCommits(inputs, hash) && k <= |inputs|
    requires Short(r, Votes(n.ballot.commitVotes, hash).Keys, inputs, k)
    ensures Collected(n, Play(n, r, inputs[..k]), hash, Heard(Votes(n.ballot.commitVotes, hash).Keys, inputs, k))
  {
    var known := Votes(n.ballot.commitVotes, hash).Keys;
    if k == 0 {
      HeardNone(known, inputs);
      assert inputs[..0] == [];
    } else {
      CommitsCollect(n, r, hash, inputs, k - 1);
      PlayMore(n, r, inputs, k - 1);
      HeardMore(known, inputs, k - 1);
      QuorumExact(r, Heard(known, inputs, k));
      VoteJoins(Play(n, r, inputs[..k - 1]), inputs[k - 1].event.vote, r, inputs[k - 1].env);
    }
  }

  lemma QuorumNow(n: Node, m: Node, hash: Hash, voters: set<string>, v: Vote, r: Registry, e: Env)
    requires n.chain != [] && Collected(n, m, hash, voters) && v.hash == hash && e.sigOk && e.commitOk
    requires WorksOn(n, hash) && hash.block.height == Tip(n) + 1
    requires !HasQuorum(r, voters) && HasQuorum(r, voters + {v.voter})
    ensures ProcessVote(m, v, r, e).1 == Decide(hash.block, voters + {v.voter})
  {
    assert v.voter in voters ==> voters + {v.voter} == voters;
    QuorumExact(r, voters + {v.voter});
    VoteDecides(m, v, r, e);
  }

  lemma QuorumLater(n: Node, m: Node, hash: Hash, voters: set<string>, v: Vote, r: Registry, e: Env)
    requires n.chain != [] && Collected(n, m, hash, voters) && v.hash == hash
    requires !HasQuorum(r, voters + {v.voter})
    ensures !ProcessVote(m, v, r, e).1.Decide?
  {
    QuorumExact(r, voters + {v.voter});
    VoteDecides(m, v, r, e);
  }

  /** What the engine shows at input `i` of a run. */
  ghost function Shown(n: Node, r: Registry, inputs: seq<Input>, i: nat): Effect
    requires n.chain != [] && i < |inputs|
  {
    Step(Play(n, r, inputs[..i]), inputs[i].event, r, inputs[i].env).1
  }

  /** Property: over any sequence of signed commit votes for the block worked on at the next height, nothing is decided
      before the voters heard weigh more than two thirds of the stake. */
  lemma NoDecisionBefore(n: Node, r: Registry, hash: Hash, inputs: seq<Input>, i: nat)
    requires n.chain != [] && SignedCommits(inputs, hash) && i < |inputs|
    requires Short(r, Votes(n.ballot.commitVotes, hash).Keys, inputs, i + 1)
    ensures !Shown(n, r, inputs, i).Decide?
  {
    var known := Votes(n.ballot.commitVotes, hash).Keys;
    CommitsCollect(n, r, hash, inputs, i);
    HeardMore(known, inputs, i);
    QuorumLater(n, Play(n, r, inputs[..i]), hash, Heard(known, inputs, i), inputs[i].event.vote, r, inputs[i].env);
  }

  /** Property: and the first vote that brings them over it decides the block, with exactly the voters heard. */
  lemma FirstQuorumDecides(n: Node, r: Registry, hash: Hash, inputs: seq<Input>, k: nat)
    requires n.chain != [] && SignedCommits(inputs, hash) && k < |inputs|
    requires WorksOn(n, hash) && hash.block.height == Tip(n) + 1 && inputs[k].env.commitOk
    requires Short(r, Votes(n.ballot.commitVotes, hash).Keys, inputs, k)
    requires HasQuorum(r, Heard(Votes(n.ballot.commitVotes, hash).Keys, inputs, k + 1))
    ensures Shown(n, r, inputs, k) == Decide(hash.block, Heard(Votes(n.ballot.commitVotes, hash).Keys, inputs, k + 1))
  {
    var known := Votes(n.ballot.commitVotes, hash).Keys;
    CommitsCollect(n, r, hash, inputs, k);
    HeardMore(known, inputs, k);
    QuorumNow(n, Play(n, r, inputs[..k]), hash, Heard(known, inputs, k), inputs[k].event.vote, r, inputs[k].env);
  }

  /** While prepare votes arrive, short of a quorum: their voters are exactly in the table and the rest stands. */
  ghost predicate Preparing(n: Node, n': Node, hash: Hash, voters: set<string>) {
    && Votes(n'.ballot.prepareVotes, hash).Keys == voters && n'.id == n.id && n'.chain == n.chain
    && n'.ballot == n.ballot.(prepareVotes := n'.ballot.prepareVotes)
  }

  lemma PrepareWaits(n: Node, v: Vote, r: Registry, e: Env)
    requires e.sigOk && !HasQuorum(r, Votes(n.ballot.prepareVotes, v.hash).Keys + {v.voter})
    ensures Preparing(n, ProcessPrepareVote(n, v, r, e).0, v.hash, Votes(n.ballot.prepareVotes, v.hash).Keys + {v.voter})
  {
    TableJoins(n.ballot.prepareVotes, v);
  }

  lemma PreparingMore(n: Node, m: Node, hash: Hash, voters: set<string>, v: Vote, r: Registry, e: Env)
    requires Preparing(n, m, hash, voters) && v.hash == hash && e.sigOk && !HasQuorum(r, voters + {v.voter})
    ensures Preparing(n, ProcessPrepareVote(m, v, r, e).0, hash, voters + {v.voter})
  {
    PrepareWaits(m, v, r, e);
  }

  lemma {:induction false} PreparesCollect(n: Node, r: Registry, hash: Hash, inputs: seq<Input>, k: nat)
    requires n.chain != [] && SignedPrepares(inputs, hash) && k <= |inputs|
    requires Short(r, Votes(n.ballot.prepareVotes, hash).Keys, inputs, k)
    ensures Preparing(n, Play(n, r, inputs[..k]), hash, Heard(Votes(n.ballot.prepareVotes, hash).Keys, inputs, k))
  {
    var known := Votes(n.ballot.prepareVotes, hash).Keys;
    if k == 0 {
      HeardNone(known, inputs);
      assert inputs[..0] == [];
    } else {
      PreparesCollect(n, r, hash, inputs, k - 1);
      PlayMore(n, r, inputs, k - 1);
      HeardMore(known, inputs, k - 1);
      PreparingMore(n, Play(n, r, inputs[..k - 1]), hash, Heard(known, inputs, k - 1), inputs[k - 1].event.vote, r,
                    inputs[k - 1].env);
    }
  }

  lemma PrepareNow(n: Node, m: Node, hash: Hash, voters: set<string>, v: Vote, r: Registry, e: Env)
    requires Preparing(n, m, hash, voters) && v.hash == hash && e.sigOk && e.signOk
    requires n.ballot.prepared == Some(hash.block) && n.ballot.phase == PrePrepared && hash !in n.ballot.sentCommit
    requires !HasQuorum(r, voters) && HasQuorum(r, voters + {v.voter})
    ensures var (m', effect) := ProcessPrepareVote(m, v, r, e);
            m'.ballot.locked == Some(hash.block) && effect == SendCommit(Vote(hash, v.view, n.id))
  {
    assert v.voter in voters ==> voters + {v.voter} == voters;
    QuorumExact(r, voters + {v.voter});
    PrepareLocks(m, v, r, e);
  }

  /** Property: over any sequence of signed prepare votes for the proposal under consideration, the node locks it and
      sends its commit vote at the first vote that brings the voters heard over two thirds of the stake. */
  lemma FirstQuorumCommits(n: Node, r: Registry, hash: Hash, inputs: seq<Input>, k: nat)
    requires n.chain != [] && SignedPrepares(inputs, hash) && k < |inputs|
    requires n.ballot.prepared == Some(hash.block) && n.ballot.phase == PrePrepared
    requires hash !in n.ballot.sentCommit && inputs[k].env.signOk
    requires Short(r, Votes(n.ballot.prepareVotes, hash).Keys, inputs, k)
    requires HasQuorum(r, Heard(Votes(n.ballot.prepareVotes, hash).Keys, inputs, k + 1))
    ensures Play(n, r, inputs[..k]).ballot.locked == n.ballot.locked
    ensures Play(n, r, inputs[..k + 1]).ballot.locked == Some(hash.block)
    ensures Shown(n, r, inputs, k) == SendCommit(Vote(hash, inputs[k].event.vote.view, n.id))
  {
    var known := Votes(n.ballot.prepareVotes, hash).Keys;
    PreparesCollect(n, r, hash, inputs, k);
    HeardMore(known, inputs, k);
    PrepareNow(n, Play(n, r, inputs[..k]), hash, Heard(known, inputs, k), inputs[k].event.vote, r, inputs[k].env);
    PlayMore(n, r, inputs, k);
  }
}
