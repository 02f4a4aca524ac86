/** Runs of many engine nodes that share one validator set, with a monotone record of every vote ever sent.
    The nodes of the system are the correct ones; a vote naming anybody else may appear at any time. */
module Protocol {
  import opened Basics
  import opened Sums
  import opened Staking
  import opened Engine

  datatype Decision = Decision(node: string, block: Block, attestors: set<string>)

  datatype System = System(
    nodes: map<string, Node>,
    prepares: set<Vote>,
    commits: set<Vote>,
    accepted: set<(string, Block)>,
    decisions: set<Decision>)

  datatype Label =
    | Local(id: string, event: Event, env: Env, clockEpoch: nat)
    | FaultyPrepare(vote: Vote)
    | FaultyCommit(vote: Vote)

  /** Delivered votes were sent before; votes that no correct node sends can be forged by the others only. */
  ghost predicate Enabled(s: System, r: Registry, l: Label) {
    match l
    case Local(id, ev, e, clockEpoch) =>
      && Rostered(e, ev, r, clockEpoch)
      && id in s.nodes && s.nodes[id].chain != []
      && (ev.OnPrepare? ==> ev.vote in s.prepares)
      && (ev.OnCommit? ==> ev.vote in s.commits)
    case FaultyPrepare(v) => v.voter !in s.nodes
    case FaultyCommit(v) => v.voter !in s.nodes
  }

  /** The block a node now works on joins the record of accepted proposals. */
  function Accepted(n: Node): set<(string, Block)> {
    if n.ballot.prepared.Some? then {(n.id, n.ballot.prepared.value)} else {}
  }

  /** Node `id` moves to `n`, and its effect joins the record. */
  function Record(s: System, id: string, n: Node, effect: Effect): System {
    var s1 := s.(nodes := s.nodes[id := n], accepted := s.accepted + Accepted(n));
    match effect
    case SendPrepare(v) => s1.(prepares := s.prepares + {v})
    case SendCommit(v) => s1.(commits := s.commits + {v})
    case Decide(b, attestors) => s1.(decisions := s.decisions + {Decision(id, b, attestors)})
    case _ => s1
  }

  ghost function Next(s: System, r: Registry, l: Label): System {
    if !Enabled(s, r, l) then s
    else match l
      case FaultyPrepare(v) => s.(prepares := s.prepares + {v})
      case FaultyCommit(v) => s.(commits := s.commits + {v})
      case Local(id, ev, e, _) =>
        var result := Step(s.nodes[id], ev, r, e);
        Record(s, id, result.0, result.1)
  }

  ghost function Run(s: System, r: Registry, labels: seq<Label>): System {
    if labels == [] then s else Next(Run(s, r, labels[..|labels| - 1]), r, labels[|labels| - 1])
  }

  /** All nodes start from the same genesis block and nothing has been said yet. */
  ghost predicate Genesis(s: System, genesis: Block) {
    && (forall id :: id in s.nodes ==> s.nodes[id] == Initial(id, genesis))
    && s.prepares == {} && s.commits == {} && s.accepted == {} && s.decisions == {}
  }

  // ---------------------------------------------------------------- what every step keeps

  ghost predicate Voted(votes: set<Vote>, id: string, hash: Hash) {
    exists v :: v in votes && v.voter == id && v.hash == hash
  }

  ghost predicate AllVoted(votes: set<Vote>, ids: set<string>, hash: Hash) {
    forall id :: id in ids ==> Voted(votes, id, hash)
  }

  /** Some quorum of distinct voters sent a prepare vote for `hash`. */
  ghost predicate Certified(r: Registry, prepares: set<Vote>, hash: Hash) {
    exists voters :: HasQuorum(r, voters) && AllVoted(prepares, voters, hash)
  }

  ghost predicate Backed(table: VoteTable, votes: set<Vote>) {
    forall hash :: hash in table ==> AllVoted(votes, table[hash].Keys, hash)
  }

  ghost predicate NodeOk(n: Node, prepares: set<Vote>, commits: set<Vote>, accepted: set<(string, Block)>) {
    && n.chain != []
    && Backed(n.ballot.prepareVotes, prepares)
    && Backed(n.ballot.commitVotes, commits)
    && (n.ballot.prepared.Some? ==> (n.id, n.ballot.prepared.value) in accepted)
    && (n.ballot.locked.Some? ==> (n.id, n.ballot.locked.value) in accepted)
  }

  ghost predicate EffectOk(effect: Effect, id: string, r: Registry, prepares: set<Vote>, commits: set<Vote>,
                           accepted: set<(string, Block)>) {
    match effect
    case SendPrepare(v) => v.voter == id && (id, v.hash.block) in accepted
    case SendCommit(v) => v.voter == id && Certified(r, prepares, v.hash) && (id, v.hash.block) in accepted
    case Decide(b, attestors) => HasQuorum(r, attestors) && AllVoted(commits, attestors, HashOf(b))
    case _ => true
  }

  lemma BackedUpdate(table: VoteTable, votes: set<Vote>, v: Vote)
    requires Backed(table, votes) && v in votes
    ensures var was := Votes(table, v.hash);
            && AllVoted(votes, was.Keys + {v.voter}, v.hash)
            && Backed(table[v.hash := was], votes)
            && Backed(table[v.hash := was[v.voter := v]], votes)
  {
    var was := Votes(table, v.hash);
    assert Voted(votes, v.voter, v.hash);
    assert was[v.voter := v].Keys == was.Keys + {v.voter};
  }

  /** `m` carries no evidence that `n` did not. */
  ghost predicate Follows(n: Node, m: Node) {
    && m.id == n.id && m.chain != []
    && (m.ballot == n.ballot || m.ballot == FRESH || m.ballot == n.ballot.(prepared := None, preparedView := 0))
  }

  lemma FollowsOk(n: Node, m: Node, prepares: set<Vote>, commits: set<Vote>, accepted: set<(string, Block)>)
    requires NodeOk(n, prepares, commits, accepted) && Follows(n, m)
    ensures NodeOk(m, prepares, commits, accepted)
  {
  }

  lemma JudgeOk(n: Node, p: Proposal, r: Registry, e: Env,
                prepares: set<Vote>, commits: set<Vote>, accepted: set<(string, Block)>)
    requires NodeOk(n, prepares, commits, accepted)
    ensures var (n', effect) := JudgeProposal(n, p, e);
            var accepted' := accepted + Accepted(n');
            n'.id == n.id && NodeOk(n', prepares, commits, accepted') && EffectOk(effect, n.id, r, prepares, commits, accepted')
  {
  }

  lemma ProposalOk(n: Node, p: Proposal, r: Registry, e: Env,
                   prepares: set<Vote>, commits: set<Vote>, accepted: set<(string, Block)>)
    requires NodeOk(n, prepares, commits, accepted)
    ensures var (n', effect) := ProcessProposal(n, p, e);
            var accepted' := accepted + Accepted(n');
            n'.id == n.id && NodeOk(n', prepares, commits, accepted') && EffectOk(effect, n.id, r, prepares, commits, accepted')
  {
    var n1 := DropStale(n, p.block.height);
    FollowsOk(n, n1, prepares, commits, accepted);
    var n2 := if p.view > n1.view then Elect(Reset(n1.(view := p.view)), e) else n1;
    FollowsOk(n1, n2, prepares, commits, accepted);
    JudgeOk(n2, p, r, e, prepares, commits, accepted);
  }

  lemma PrepareVoteOk(n: Node, v: Vote, r: Registry, e: Env,
                      prepares: set<Vote>, commits: set<Vote>, accepted: set<(string, Block)>)
    requires NodeOk(n, prepares, commits, accepted) && v in prepares
    ensures var (n', effect) := ProcessPrepareVote(n, v, r, e);
            n'.id == n.id && NodeOk(n', prepares, commits, accepted) && EffectOk(effect, n.id, r, prepares, commits, accepted)
  {
    BackedUpdate(n.ballot.prepareVotes, prepares, v);
  }

  lemma CommitVoteOk(n: Node, v: Vote, r: Registry, e: Env,
                     prepares: set<Vote>, commits: set<Vote>, accepted: set<(string, Block)>)
    requires NodeOk(n, prepares, commits, accepted) && v in commits
    ensures var (n', effect) := ProcessVote(n, v, r, e);
            n'.id == n.id && NodeOk(n', prepares, commits, accepted) && EffectOk(effect, n.id, r, prepares, commits, accepted)
  {
    BackedUpdate(n.ballot.commitVotes, commits, v);
    var votes := Votes(n.ballot.commitVotes, v.hash);
    assert votes[v.voter := v].Keys == votes.Keys + {v.voter};
  }

  lemma OtherStepOk(n: Node, ev: Event, r: Registry, e: Env,
                    prepares: set<Vote>, commits: set<Vote>, accepted: set<(string, Block)>)
    requires NodeOk(n, prepares, commits, accepted)
    requires !ev.OnProposal? && !ev.OnPrepare? && !ev.OnCommit?
    ensures var (n', effect) := Step(n, ev, r, e);
            n'.id == n.id && NodeOk(n', prepares, commits, accepted) && EffectOk(effect, n.id, r, prepares, commits, accepted)
  {
    FollowsOk(n, Step(n, ev, r, e).0, prepares, commits, accepted);
  }

  lemma StepOk(n: Node, ev: Event, r: Registry, e: Env,
               prepares: set<Vote>, commits: set<Vote>, accepted: set<(string, Block)>)
    requires NodeOk(n, prepares, commits, accepted)
    requires (ev.OnPrepare? ==> ev.vote in prepares) && (ev.OnCommit? ==> ev.vote in commits)
    ensures var (n', effect) := Step(n, ev, r, e);
            var accepted' := accepted + Accepted(n');
            n'.id == n.id && NodeOk(n', prepares, commits, accepted') && EffectOk(effect, n.id, r, prepares, commits, accepted')
  {
    match ev
    case OnProposal(p) => ProposalOk(n, p, r, e, prepares, commits, accepted);
    case OnPrepare(v) => PrepareVoteOk(n, v, r, e, prepares, commits, accepted);
    case OnCommit(v) => CommitVoteOk(n, v, r, e, prepares, commits, accepted);
    case _ => OtherStepOk(n, ev, r, e, prepares, commits, accepted);
  }

  ghost predicate CommitsOk(s: System, r: Registry) {
    forall v :: v in s.commits && v.voter in s.nodes ==>
      Certified(r, s.prepares, v.hash) && (v.voter, v.hash.block) in s.accepted
  }

  ghost predicate DecisionsOk(s: System, r: Registry) {
    forall d :: d in s.decisions ==> HasQuorum(r, d.attestors) && AllVoted(s.commits, d.attestors, HashOf(d.block))
  }

  ghost predicate NodesOk(s: System) {
    forall id :: id in s.nodes ==> s.nodes[id].id == id && NodeOk(s.nodes[id], s.prepares, s.commits, s.accepted)
  }

  ghost predicate Inv(s: System, r: Registry) {
    NodesOk(s) && CommitsOk(s, r) && DecisionsOk(s, r)
  }

  ghost predicate Grows(s: System, s': System) {
    s.prepares <= s'.prepares && s.commits <= s'.commits && s.accepted <= s'.accepted && s.decisions <= s'.decisions
  }

  lemma AllVotedGrows(votes: set<Vote>, votes': set<Vote>, ids: set<string>, hash: Hash)
    requires votes <= votes' && AllVoted(votes, ids, hash)
    ensures AllVoted(votes', ids, hash)
  {
    forall id | id in ids ensures Voted(votes', id, hash) { assert Voted(votes, id, hash); }
  }

  lemma CertifiedGrows(r: Registry, votes: set<Vote>, votes': set<Vote>, hash: Hash)
    requires votes <= votes' && Certified(r, votes, hash)
    ensures Certified(r, votes', hash)
  {
    var voters :| HasQuorum(r, voters) && AllVoted(votes, voters, hash);
    AllVotedGrows(votes, votes', voters, hash);
  }

  lemma NodeOkGrows(n: Node, s: System, s': System)
    requires Grows(s, s') && NodeOk(n, s.prepares, s.commits, s.accepted)
    ensures NodeOk(n, s'.prepares, s'.commits, s'.accepted)
  {
    forall hash | hash in n.ballot.prepareVotes ensures AllVoted(s'.prepares, n.ballot.prepareVotes[hash].Keys, hash) {
      AllVotedGrows(s.prepares, s'.prepares, n.ballot.prepareVotes[hash].Keys, hash);
    }
    forall hash | hash in n.ballot.commitVotes ensures AllVoted(s'.commits, n.ballot.commitVotes[hash].Keys, hash) {
      AllVotedGrows(s.commits, s'.commits, n.ballot.commitVotes[hash].Keys, hash);
    }
  }

  lemma NextGrows(s: System, r: Registry, l: Label)
    ensures Grows(s, Next(s, r, l)) && Next(s, r, l).nodes.Keys == s.nodes.Keys
  {
  }

  /** What a step adds is justified by the state before it. */
  ghost predicate Adds(s: System, s': System, r: Registry) {
    && (forall id | id in s'.nodes ::
          s'.nodes[id].id == id && NodeOk(s'.nodes[id], s.prepares, s.commits, s'.accepted))
    && (forall v | v in s'.commits && v !in s.commits && v.voter in s.nodes ::
          Certified(r, s.prepares, v.hash) && (v.voter, v.hash.block) in s'.accepted)
    && (forall d | d in s'.decisions && d !in s.decisions ::
          HasQuorum(r, d.attestors) && AllVoted(s.commits, d.attestors, HashOf(d.block)))
  }

  lemma RecordAdds(s: System, r: Registry, id: string, n: Node, effect: Effect)
    requires Inv(s, r) && n.id == id
    requires NodeOk(n, s.prepares, s.commits, s.accepted + Accepted(n))
    requires EffectOk(effect, id, r, s.prepares, s.commits, s.accepted + Accepted(n))
    ensures Adds(s, Record(s, id, n, effect), r)
  {
  }

  lemma NextAdds(s: System, r: Registry, l: Label)
    requires Inv(s, r)
    ensures Adds(s, Next(s, r, l), r)
  {
    if Enabled(s, r, l) && l.Local? {
      var n := s.nodes[l.id];
      StepOk(n, l.event, r, l.env, s.prepares, s.commits, s.accepted);
      RecordAdds(s, r, l.id, Step(n, l.event, r, l.env).0, Step(n, l.event, r, l.env).1);
    }
  }

  lemma NextInv(s: System, r: Registry, l: Label)
    requires Inv(s, r)
    ensures Inv(Next(s, r, l), r)
  {
    var s' := Next(s, r, l);
    NextGrows(s, r, l);
    NextAdds(s, r, l);
    forall id | id in s'.nodes ensures NodeOk(s'.nodes[id], s'.prepares, s'.commits, s'.accepted) {
      NodeOkGrows(s'.nodes[id], s.(accepted := s'.accepted), s');
    }
    forall v | v in s'.commits && v.voter in s'.nodes
      ensures Certified(r, s'.prepares, v.hash) && (v.voter, v.hash.block) in s'.accepted
    {
      CertifiedGrows(r, s.prepares, s'.prepares, v.hash);
    }
    forall d | d in s'.decisions
      ensures HasQuorum(r, d.attestors) && AllVoted(s'.commits, d.attestors, HashOf(d.block))
    {
      AllVotedGrows(s.commits, s'.commits, d.attestors, HashOf(d.block));
    }
  }

  lemma {:induction false} RunInv(s: System, genesis: Block, r: Registry, labels: seq<Label>)
    requires Genesis(s, genesis)
    ensures Inv(Run(s, r, labels), r) && Run(s, r, labels).nodes.Keys == s.nodes.Keys
  {
    if labels != [] {
      RunInv(s, genesis, r, labels[..|labels| - 1]);
      NextInv(Run(s, r, labels[..|labels| - 1]), r, labels[|labels| - 1]);
      NextGrows(Run(s, r, labels[..|labels| - 1]), r, labels[|labels| - 1]);
    }
  }

  // ---------------------------------------------------------------- safety theorems

  /** Two quorums share strictly more than a third of all stake. */
  lemma QuorumOverlap(r: Registry, a: set<string>, b: set<string>)
    requires Balanced(r) && NonNegative(r) && HasQuorum(r, a) && HasQuorum(r, b)
    ensures 3 * Weight(Stakes(r), a * b) > r.total
  {
    WeightUnion(Stakes(r), a, b);
    WeightMonotone(Stakes(r), a + b, a + b);
  }

  /** Validators that sent commit votes for both hashes. */
  ghost function DoubleVoters(s: System, r: Registry, h1: Hash, h2: Hash): set<string> {
    set id | id in r.validators && Voted(s.commits, id, h1) && Voted(s.commits, id, h2)
  }

  /** For every run and whatever the faulty stake: behind any two decisions stand validators with strictly more than a
      third of the total stake that sent commit votes for both blocks. */
  lemma DecisionsOverlap(s: System, genesis: Block, r: Registry, labels: seq<Label>, d1: Decision, d2: Decision)
    requires Genesis(s, genesis) && Balanced(r) && NonNegative(r)
    requires d1 in Run(s, r, labels).decisions && d2 in Run(s, r, labels).decisions
    ensures 3 * Weight(Stakes(r), DoubleVoters(Run(s, r, labels), r, HashOf(d1.block), HashOf(d2.block))) > r.total
  {
    var t := Run(s, r, labels);
    RunInv(s, genesis, r, labels);
    var both := DoubleVoters(t, r, HashOf(d1.block), HashOf(d2.block));
    var overlap := d1.attestors * d2.attestors;
    QuorumOverlap(r, d1.attestors, d2.attestors);
    WeightInside(r, overlap);
    forall id | id in overlap * r.validators.Keys ensures id in both {
      assert Voted(t.commits, id, HashOf(d1.block)) && Voted(t.commits, id, HashOf(d2.block));
    }
    WeightMonotone(Stakes(r), overlap * r.validators.Keys, both);
  }

  /** Validators that sent commit votes for two different blocks of one height. */
  ghost function Equivocators(s: System, r: Registry, height: nat): set<string> {
    set id | id in r.validators && exists v, w ::
      v in s.commits && w in s.commits && v.voter == id == w.voter
      && v.hash != w.hash && v.hash.block.height == height == w.hash.block.height
  }

  /** Accountable safety: if two nodes decide different blocks at one height, validators with strictly more than a
      third of the total stake are caught with commit votes for two different blocks of that height. */
  lemma AccountableSafety(s: System, genesis: Block, r: Registry, labels: seq<Label>, d1: Decision, d2: Decision)
    requires Genesis(s, genesis) && Balanced(r) && NonNegative(r)
    requires d1 in Run(s, r, labels).decisions && d2 in Run(s, r, labels).decisions
    requires d1.block.height == d2.block.height && d1.block != d2.block
    ensures 3 * Weight(Stakes(r), DoubleVoters(Run(s, r, labels), r, HashOf(d1.block), HashOf(d2.block))) > r.total
    ensures 3 * Weight(Stakes(r), Equivocators(Run(s, r, labels), r, d1.block.height)) > r.total
  {
    var t := Run(s, r, labels);
    DecisionsOverlap(s, genesis, r, labels, d1, d2);
    var both, caught := DoubleVoters(t, r, HashOf(d1.block), HashOf(d2.block)), Equivocators(t, r, d1.block.height);
    forall id | id in both ensures id in caught {
      var v :| v in t.commits && v.voter == id && v.hash == HashOf(d1.block);
      var w :| w in t.commits && w.voter == id && w.hash == HashOf(d2.block);
    }
    WeightMonotone(Stakes(r), both, caught);
  }

  /** Identifiers without a record weigh nothing. */
  lemma WeightInside(r: Registry, s: set<string>)
    ensures Weight(Stakes(r), s) == Weight(Stakes(r), s * r.validators.Keys)
  {
    assert (map k | k in Stakes(r) && k in s :: Stakes(r)[k])
        == (map k | k in Stakes(r) && k in s * r.validators.Keys :: Stakes(r)[k]);
  }

  /** Validators that are not correct nodes of the system. */
  ghost function Faulty(s: System, r: Registry): set<string> {
    r.validators.Keys - s.nodes.Keys
  }

  /** A set heavier than the faulty stake contains a correct validator. */
  lemma CorrectMember(s: System, r: Registry, ids: set<string>) returns (id: string)
    requires NonNegative(r) && Weight(Stakes(r), ids) > Weight(Stakes(r), Faulty(s, r))
    ensures id in ids && id in s.nodes && id in r.validators
  {
    WeightInside(r, ids);
    var inside := ids * r.validators.Keys;
    if inside <= Faulty(s, r) {
      WeightMonotone(Stakes(r), inside, Faulty(s, r));
    }
    id :| id in inside && id !in Faulty(s, r);
  }

  /** Node `n` has locked the block of `hash` and holds, in its own table, a quorum of prepare votes for it, all of
      them sent. */
  ghost predicate HoldsCertificate(n: Node, r: Registry, prepares: set<Vote>, hash: Hash) {
    var voters := Votes(n.ballot.prepareVotes, hash).Keys;
    n.ballot.locked == Some(hash.block) && HasQuorum(r, voters) && AllVoted(prepares, voters, hash)
  }

  /** The only step of a node that sends a commit vote is the one in which its own table reaches a prepare quorum. */
  lemma CommitVoteNeedsTable(n: Node, ev: Event, r: Registry, e: Env, prepares: set<Vote>)
    requires n.chain != [] && Backed(n.ballot.prepareVotes, prepares) && (ev.OnPrepare? ==> ev.vote in prepares)
    ensures var (n', effect) := Step(n, ev, r, e);
            effect.SendCommit? ==> effect.vote.voter == n.id && HoldsCertificate(n', r, prepares, effect.vote.hash)
  {
    if ev.OnPrepare? {
      var v := ev.vote;
      BackedUpdate(n.ballot.prepareVotes, prepares, v);
      var votes := Votes(n.ballot.prepareVotes, v.hash);
      assert votes[v.voter := v].Keys == votes.Keys + {v.voter};
    }
  }

  /** Certificate chain, step form: at the step that first sends a commit vote of a correct node, that node itself has
      collected a quorum of prepare votes for the same hash, all sent before, and has locked the block. */
  lemma CommitVotePreceded(s: System, genesis: Block, r: Registry, labels: seq<Label>, l: Label, v: Vote)
    requires Genesis(s, genesis) && v.voter in s.nodes
    requires v in Next(Run(s, r, labels), r, l).commits && v !in Run(s, r, labels).commits
    ensures v.voter in Next(Run(s, r, labels), r, l).nodes
    ensures HoldsCertificate(Next(Run(s, r, labels), r, l).nodes[v.voter], r, Run(s, r, labels).prepares, v.hash)
    ensures Certified(r, Run(s, r, labels).prepares, v.hash)
  {
    var t := Run(s, r, labels);
    RunInv(s, genesis, r, labels);
    assert l.Local? && Enabled(t, r, l);
    CommitVoteNeedsTable(t.nodes[l.id], l.event, r, l.env, t.prepares);
  }

  /** Step `i` of the run first sends `v`, and its voter then holds the certificate. */
  ghost predicate Origin(s: System, r: Registry, labels: seq<Label>, v: Vote, i: nat)
    requires i < |labels|
  {
    var before, after := Run(s, r, labels[..i]), Run(s, r, labels[..i + 1]);
    && v !in before.commits && v in after.commits
    && v.voter in after.nodes && HoldsCertificate(after.nodes[v.voter], r, before.prepares, v.hash)
  }

  lemma OriginStays(s: System, r: Registry, labels: seq<Label>, v: Vote, i: nat)
    requires i < |labels| - 1 && Origin(s, r, labels[..|labels| - 1], v, i)
    ensures Origin(s, r, labels, v, i)
  {
    assert labels[..|labels| - 1][..i] == labels[..i];
    assert labels[..|labels| - 1][..i + 1] == labels[..i + 1];
  }

  /** Certificate chain, run form: every commit vote of a correct node in a reachable state goes back to such a step. */
  lemma {:induction false} CommitVoteOrigin(s: System, genesis: Block, r: Registry, labels: seq<Label>, v: Vote)
      returns (i: nat)
    requires Genesis(s, genesis) && v.voter in s.nodes && v in Run(s, r, labels).commits
    ensures i < |labels| && Origin(s, r, labels, v, i)
  {
    var init := labels[..|labels| - 1];
    if v in Run(s, r, init).commits {
      i := CommitVoteOrigin(s, genesis, r, init, v);
      OriginStays(s, r, labels, v, i);
    } else {
      i := |labels| - 1;
      assert labels[..i + 1] == labels;
      CommitVotePreceded(s, genesis, r, init, labels[i], v);
    }
  }

  /** Certificate chain: with at most a third of the stake faulty, every block decided by votes has a prepare
      certificate of more than two thirds of the stake. */
  lemma DecisionsAreCertified(s: System, genesis: Block, r: Registry, labels: seq<Label>, d: Decision)
    requires Genesis(s, genesis) && Balanced(r) && NonNegative(r)
    requires 3 * Weight(Stakes(r), Faulty(s, r)) <= r.total
    requires d in Run(s, r, labels).decisions
    ensures Certified(r, Run(s, r, labels).prepares, HashOf(d.block))
  {
    var t := Run(s, r, labels);
    RunInv(s, genesis, r, labels);
    SumNonNegative(Stakes(r));
    var id := CorrectMember(t, r, d.attestors);
    assert Voted(t.commits, id, HashOf(d.block));
  }

  /** A fork with at most a third of the stake faulty shows that some correct validator accepted two different
      proposals for that height, and committed itself to both. */
  lemma ForkNeedsDoubleAcceptance(
    s: System, genesis: Block, r: Registry, labels: seq<Label>, d1: Decision, d2: Decision) returns (id: string)
    requires Genesis(s, genesis) && Balanced(r) && NonNegative(r)
    requires 3 * Weight(Stakes(r), Faulty(s, r)) <= r.total
    requires d1 in Run(s, r, labels).decisions && d2 in Run(s, r, labels).decisions
    requires d1.block.height == d2.block.height && d1.block != d2.block
    ensures id in s.nodes && id in r.validators
    ensures var t := Run(s, r, labels);
            && (id, d1.block) in t.accepted && (id, d2.block) in t.accepted
            && Voted(t.commits, id, HashOf(d1.block)) && Voted(t.commits, id, HashOf(d2.block))
  {
    var t := Run(s, r, labels);
    AccountableSafety(s, genesis, r, labels, d1, d2);
    RunInv(s, genesis, r, labels);
    id := CorrectMember(t, r, DoubleVoters(t, r, HashOf(d1.block), HashOf(d2.block)));
  }

  /** The leader a node expects for the block after its tip. */
  function Expected(n: Node, e: Env): string
    requires n.chain != []
  {
    if e.followerList != [] then At(e.followerList, Tip(n) + 1)
    else Choose(e.electionList, Tip(n) + 1, n.lead.suspected).0
  }

  predicate FromLeader(n: Node, p: Proposal, e: Env)
    requires n.chain != []
  {
    if Expected(n, e) != "" then p.proposer == Expected(n, e) else e.peers != [] && p.proposer == At(e.peers, p.view)
  }

  /** Electing once more, on the suspects the first election left, names the same leader. */
  lemma ElectAgain(n: Node, e: Env)
    requires n.chain != []
    ensures Elect(n, e).lead.elected == Choose(e.electionList, Tip(n) + 1, n.lead.suspected).0
    ensures Elect(Elect(n, e), e).lead.elected == Elect(n, e).lead.elected
  {
  }

  /** Why a fork is possible: exactly when a node takes up a proposal for a block it is not already working on. What it
      accepted before for that height, and what it is locked on, plays no part. */
  lemma AcceptanceGuard(n: Node, p: Proposal, e: Env)
    requires n.chain != [] && n.ballot.prepared != Some(p.block)
    ensures ProcessProposal(n, p, e).0.ballot.prepared == Some(p.block) <==>
            e.blockValid && e.sigOk && p.view >= n.view && p.block.height == Tip(n) + 1 && FromLeader(n, p, e)
  {
    var n1 := DropStale(n, p.block.height);
    if p.view > n.view {
      var n2 := Reset(n1.(view := p.view));
      SameExpectation(n, n2, p, e);
      LeaderKept(n2, p, e);
      JudgeGuard(Elect(n2, e), p, e);
    } else {
      SameExpectation(n, n1, p, e);
      JudgeGuard(n1, p, e);
    }
  }

  lemma SameExpectation(n: Node, m: Node, p: Proposal, e: Env)
    requires n.chain != [] && m.chain == n.chain && m.lead == n.lead
    ensures FromLeader(m, p, e) <==> FromLeader(n, p, e)
  {
  }

  lemma LeaderKept(n: Node, p: Proposal, e: Env)
    requires n.chain != []
    ensures FromLeader(Elect(n, e), p, e) <==> FromLeader(n, p, e)
  {
    ElectAgain(n, e);
  }

  lemma JudgeGuard(n: Node, p: Proposal, e: Env)
    requires n.chain != [] && n.ballot.prepared != Some(p.block)
    ensures JudgeProposal(n, p, e).0.ballot.prepared == Some(p.block) <==>
            p.block.height == Tip(n) + 1 && FromLeader(n, p, e)
  {
  }

  /** Property: what a proposal does. A taken one is under consideration at its view, clears its proposer of suspicion and
      the count of view changes, and is answered by a prepare vote unless one was sent for that hash in this view or
      signing fails. A refused one is not answered and at most raises the view and drops a stale block. */
  lemma ProposalOutcome(n: Node, p: Proposal, e: Env)
    requires n.chain != [] && n.ballot.prepared != Some(p.block)
    ensures var (n', effect) := ProcessProposal(n, p, e);
            var stale := n.ballot.prepared.Some? && p.block.height > n.ballot.prepared.value.height;
            if n'.ballot.prepared == Some(p.block) then
              && n'.view == p.view && n'.ballot.preparedView == p.view && n'.ballot.phase == PrePrepared
              && p.proposer !in n'.lead.suspected && n'.lead.viewChanges == 0
              && effect == (if e.signOk && (p.view > n.view || HashOf(p.block) !in n.ballot.sentPrepare)
                            then SendPrepare(Vote(HashOf(p.block), p.view, n.id)) else Silent)
            else
              && effect == Silent
              && n'.view == (if e.blockValid && e.sigOk && p.view > n.view then p.view else n.view)
              && n'.ballot.prepared
                   == (if e.blockValid && (stale || (e.sigOk && p.view > n.view)) then None else n.ballot.prepared)
  {
    var n1 := DropStale(n, p.block.height);
    JudgeOutcome(if p.view > n1.view then Elect(Reset(n1.(view := p.view)), e) else n1, p, e);
  }

  lemma JudgeOutcome(n: Node, p: Proposal, e: Env)
    requires n.chain != [] && n.ballot.prepared != Some(p.block)
    ensures var (n', effect) := JudgeProposal(n, p, e);
            && n'.view == n.view
            && if n'.ballot.prepared == Some(p.block) then
                 && n'.ballot.preparedView == p.view && n'.ballot.phase == PrePrepared
                 && p.proposer !in n'.lead.suspected && n'.lead.viewChanges == 0
                 && effect == (if e.signOk && HashOf(p.block) !in n.ballot.sentPrepare
                               then SendPrepare(Vote(HashOf(p.block), p.view, n.id)) else Silent)
               else effect == Silent && n'.ballot == n.ballot
  {
  }
}
