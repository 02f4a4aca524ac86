/** A run with less than a third of the stake faulty in which two correct nodes decide different blocks. */
module Fork {
  import opened Basics
  import opened Sums
  import opened Ordering
  import opened Staking
  import opened Engine
  import opened Protocol

  function Unit(stake: int): StakedValidator {
    StakedValidator(stake, "", "", 0, 0, false)
  }

  /** One faulty validator "L" with a quarter of the stake, and a correct one "H" with the rest. */
  const REGISTRY := Registry(map["H" := Unit(3), "L" := Unit(1)], 4, 0)
  const GENESIS := Block(0, "")
  const A := Block(1, "A")
  const B := Block(1, "B")
  const LIST := ["H", "L"]
  const ENV := Env(true, true, true, true, false, false, false, [], LIST, LIST)

  function VoteOfH(b: Block): Vote {
    Vote(HashOf(b), 0, "H")
  }

  lemma Facts()
    ensures Balanced(REGISTRY) && NonNegative(REGISTRY)
    ensures HasQuorum(REGISTRY, {"H"})
    ensures Weight(Stakes(REGISTRY), {"L"}) == 1
  {
    var stakes := Stakes(REGISTRY);
    assert stakes == map["H" := 3, "L" := 1];
    SumWithout(stakes, "H");
    SumWithout(stakes - {"H"}, "L");
    assert stakes - {"H"} - {"L"} == map[];
    WeightNone(stakes, {});
    WeightAdd(stakes, {}, "H");
    WeightAdd(stakes, {}, "L");
    assert {} + {"H"} == {"H"} && {} + {"L"} == {"L"};
  }

  lemma ActiveList(epoch: nat)
    ensures ActiveIds(REGISTRY, epoch) == LIST
  {
    BeforeIsStrictOrder();
    assert Before("H", "L");
    AscendingUnique(Before, LIST, ActiveIds(REGISTRY, epoch));
  }

  lemma AlwaysRostered(ev: Event)
    ensures Rostered(ENV, ev, REGISTRY, 0)
  {
    ActiveList(0);
    if ev.OnProposal? { ActiveList(ev.proposal.block.height / SLOTS_PER_EPOCH); }
  }

  /** "L" leads height one, so its proposal is accepted in any phase and whatever was accepted before. */
  lemma Accepts(n: Node, b: Block)
    requires n.chain == [GENESIS] && n.view == 0 && b.height == 1
    requires n.ballot.prepared.Some? ==> n.ballot.prepared.value.height == 1 && n.ballot.prepared.value != b
    requires HashOf(b) !in n.ballot.sentPrepare
    ensures var (n', effect) := ProcessProposal(n, Proposal(b, 0, "L"), ENV);
            && effect == SendPrepare(Vote(HashOf(b), 0, n.id))
            && n'.id == n.id && n'.chain == n.chain && n'.view == 0 && n'.sticky == n.sticky
            && n'.ballot == n.ballot.(prepared := Some(b), preparedView := 0, phase := PrePrepared,
                                      sentPrepare := n.ballot.sentPrepare + {HashOf(b)})
  {
    assert At(LIST, 1) == "L";
  }

  /** The vote of "H" alone is a prepare quorum. */
  lemma Prepares(n: Node, b: Block)
    requires n.chain == [GENESIS] && n.ballot.prepared == Some(b) && n.ballot.phase == PrePrepared
    requires HashOf(b) !in n.ballot.prepareVotes && HashOf(b) !in n.ballot.sentCommit
    ensures var (n', effect) := ProcessPrepareVote(n, VoteOfH(b), REGISTRY, ENV);
            && effect == SendCommit(Vote(HashOf(b), 0, n.id))
            && n'.id == n.id && n'.chain == n.chain && n'.view == n.view
            && n'.ballot == n.ballot.(phase := Prepared, locked := Some(b), sentCommit := n.ballot.sentCommit + {HashOf(b)},
                                      prepareVotes := n.ballot.prepareVotes[HashOf(b) := map["H" := VoteOfH(b)]])
  {
    Facts();
    assert Votes(n.ballot.prepareVotes, HashOf(b)).Keys + {"H"} == {"H"};
  }

  /** The vote of "H" alone is a commit quorum. */
  lemma Decides(n: Node, b: Block)
    requires n.chain == [GENESIS] && n.ballot.prepared == Some(b) && b.height == 1
    requires HashOf(b) !in n.ballot.commitVotes
    ensures ProcessVote(n, VoteOfH(b), REGISTRY, ENV).1 == Decide(b, {"H"})
  {
    Facts();
    assert Votes(n.ballot.commitVotes, HashOf(b)).Keys + {"H"} == {"H"};
    assert (map["H" := VoteOfH(b)]).Keys == {"H"};
  }

  function AtNode(id: string, ev: Event): Label {
    Local(id, ev, ENV, 0)
  }

  lemma {:induction false} RunAppend(s: System, r: Registry, a: seq<Label>, b: seq<Label>)
    ensures Protocol.Run(s, r, a + b) == Protocol.Run(Protocol.Run(s, r, a), r, b)
  {
    if b == [] {
      assert a + b == a;
    } else {
      RunAppend(s, r, a, b[..|b| - 1]);
      assert (a + b)[..|a + b| - 1] == a + b[..|b| - 1];
    }
  }

  /** Some run takes `s` to `t`. */
  ghost predicate Leads(s: System, t: System) {
    exists labels :: t == Protocol.Run(s, REGISTRY, labels)
  }

  lemma LeadsByStep(s: System, l: Label)
    ensures Leads(s, Next(s, REGISTRY, l))
  {
    assert Protocol.Run(s, REGISTRY, [l][..0]) == s;
    assert Next(s, REGISTRY, l) == Protocol.Run(s, REGISTRY, [l]);
  }

  lemma LeadsOn(s: System, t: System, u: System)
    requires Leads(s, t) && Leads(t, u)
    ensures Leads(s, u)
  {
    var a :| t == Protocol.Run(s, REGISTRY, a);
    var b :| u == Protocol.Run(t, REGISTRY, b);
    RunAppend(s, REGISTRY, a, b);
  }

  lemma AcceptStep(s: System, id: string, b: Block) returns (s': System)
    requires id in s.nodes && s.nodes[id].id == id && s.nodes[id].chain == [GENESIS] && s.nodes[id].view == 0
    requires b.height == 1 && HashOf(b) !in s.nodes[id].ballot.sentPrepare
    requires var p := s.nodes[id].ballot.prepared; p.Some? ==> p.value.height == 1 && p.value != b
    ensures Leads(s, s')
    ensures id in s'.nodes && s'.nodes == s.nodes[id := s'.nodes[id]]
    ensures s'.nodes[id].id == id && s'.nodes[id].chain == [GENESIS] && s'.nodes[id].view == 0
    ensures var n := s.nodes[id];
            s'.nodes[id].ballot == n.ballot.(prepared := Some(b), preparedView := 0, phase := PrePrepared,
                                             sentPrepare := n.ballot.sentPrepare + {HashOf(b)})
    ensures s'.prepares == s.prepares + {Vote(HashOf(b), 0, id)} && s'.commits == s.commits && s'.decisions == s.decisions
  {
    var ev := OnProposal(Proposal(b, 0, "L"));
    AlwaysRostered(ev);
    Accepts(s.nodes[id], b);
    LeadsByStep(s, AtNode(id, ev));
    s' := Next(s, REGISTRY, AtNode(id, ev));
  }

  lemma PrepareStep(s: System, b: Block) returns (s': System)
    requires "H" in s.nodes && s.nodes["H"].id == "H" && s.nodes["H"].chain == [GENESIS] && s.nodes["H"].view == 0
    requires s.nodes["H"].ballot.prepared == Some(b) && s.nodes["H"].ballot.phase == PrePrepared
    requires HashOf(b) !in s.nodes["H"].ballot.prepareVotes && HashOf(b) !in s.nodes["H"].ballot.sentCommit
    requires VoteOfH(b) in s.prepares
    ensures Leads(s, s')
    ensures "H" in s'.nodes && s'.nodes == s.nodes["H" := s'.nodes["H"]]
    ensures s'.nodes["H"].id == "H" && s'.nodes["H"].chain == [GENESIS] && s'.nodes["H"].view == 0
    ensures var n := s.nodes["H"];
            s'.nodes["H"].ballot == n.ballot.(phase := Prepared, locked := Some(b),
                                              sentCommit := n.ballot.sentCommit + {HashOf(b)},
                                              prepareVotes := n.ballot.prepareVotes[HashOf(b) := map["H" := VoteOfH(b)]])
    ensures s'.commits == s.commits + {VoteOfH(b)} && s'.decisions == s.decisions
  {
    AlwaysRostered(OnPrepare(VoteOfH(b)));
    Prepares(s.nodes["H"], b);
    LeadsByStep(s, AtNode("H", OnPrepare(VoteOfH(b))));
    s' := Next(s, REGISTRY, AtNode("H", OnPrepare(VoteOfH(b))));
  }

  lemma DecideStep(s: System, id: string, b: Block) returns (s': System)
    requires id in s.nodes && s.nodes[id].chain == [GENESIS] && b.height == 1
    requires s.nodes[id].ballot.prepared == Some(b) && HashOf(b) !in s.nodes[id].ballot.commitVotes
    requires VoteOfH(b) in s.commits
    ensures Leads(s, s')
    ensures id in s'.nodes && s'.nodes == s.nodes[id := s'.nodes[id]]
    ensures s'.commits == s.commits && s'.decisions == s.decisions + {Decision(id, b, {"H"})}
  {
    AlwaysRostered(OnCommit(VoteOfH(b)));
    Decides(s.nodes[id], b);
    LeadsByStep(s, AtNode(id, OnCommit(VoteOfH(b))));
    s' := Next(s, REGISTRY, AtNode(id, OnCommit(VoteOfH(b))));
  }

  const START := System(map["H" := Initial("H", GENESIS), "O" := Initial("O", GENESIS)], {}, {}, {}, {})

  /** "H" commits to both proposals of "L" in turn and decides the second; "O" sees only the first. */
  lemma BothDecided(s: System) returns (t: System)
    requires s == START
    ensures Leads(s, t) && Decision("O", A, {"H"}) in t.decisions && Decision("H", B, {"H"}) in t.decisions
  {
    var s1 := AcceptStep(s, "H", A);
    var s2 := PrepareStep(s1, A);
    LeadsOn(s, s1, s2);
    var s3 := AcceptStep(s2, "H", B);
    LeadsOn(s, s2, s3);
    var s4 := PrepareStep(s3, B);
    LeadsOn(s, s3, s4);
    var s5 := DecideStep(s4, "H", B);
    LeadsOn(s, s4, s5);
    var s6 := AcceptStep(s5, "O", A);
    LeadsOn(s, s5, s6);
    t := DecideStep(s6, "O", A);
    LeadsOn(s, s6, t);
  }

  /** Unconditional agreement fails: one faulty leader with a quarter of the stake suffices, because a second
      proposal for the same height is accepted and voted for like the first. */
  lemma AgreementFails() returns (labels: seq<Label>, d1: Decision, d2: Decision)
    ensures Genesis(START, GENESIS) && Balanced(REGISTRY) && NonNegative(REGISTRY)
    ensures 3 * Weight(Stakes(REGISTRY), Faulty(START, REGISTRY)) <= REGISTRY.total
    ensures d1 in Protocol.Run(START, REGISTRY, labels).decisions
    ensures d2 in Protocol.Run(START, REGISTRY, labels).decisions
    ensures d1.node in START.nodes && d2.node in START.nodes
    ensures d1.block.height == d2.block.height && d1.block != d2.block
  {
    Facts();
    assert Faulty(START, REGISTRY) == {"L"};
    d1, d2 := Decision("O", A, {"H"}), Decision("H", B, {"H"});
    var t := BothDecided(START);
    labels :| t == Protocol.Run(START, REGISTRY, labels);
  }
}
