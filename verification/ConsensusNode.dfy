/** The engine as the mutable object it is in src/consensus/consensus.go, each handler proved to perform the
    corresponding step of module Engine. */
module ConsensusNode {
  import opened Basics
  import opened Sums
  import opened Staking
  import opened Engine

  /** The surroundings of a step, completed by the validator list that the registry gives for the clock's epoch. */
  ghost function Electing(e: Env, r: Registry, clockEpoch: nat): Env {
    e.(electionList := ElectionList(r, clockEpoch, e.peers))
  }

  /** And by the list for the epoch of a proposed height. */
  ghost function Judging(e: Env, r: Registry, clockEpoch: nat, height: nat): Env {
    Electing(e, r, clockEpoch).(followerList := FollowerList(r, height, e.peers))
  }

  /** Votes are handled without the validator lists. */
  lemma VotesIgnoreLists(n: Node, v: Vote, r: Registry, e: Env, used: Env)
    requires n.chain != [] && used == e.(electionList := used.electionList)
    ensures ProcessPrepareVote(n, v, r, e) == ProcessPrepareVote(n, v, r, used)
    ensures ProcessVote(n, v, r, e) == ProcessVote(n, v, r, used)
  {
  }

  class Consensus {
    const nodeID: string
    const validatorSet: ValidatorSet
    var chain: seq<Block>
    var currentView: uint64
    var currentHeight: nat
    var timeoutVotes: map<uint64, set<string>>
    var highestSeenView: uint64
    var ballot: Ballot
    var lead: Leadership
    var lastPrepared: Sticky

    constructor (nodeID: string, validatorSet: ValidatorSet, genesis: Block)
      ensures State() == Initial(nodeID, genesis) && this.validatorSet == validatorSet
    {
      this.nodeID, this.validatorSet, chain := nodeID, validatorSet, [genesis];
      currentView, currentHeight, timeoutVotes, highestSeenView := 0, 0, map[], 0;
      ballot, lead, lastPrepared := FRESH, Leadership("", false, {}, 0), Sticky(None, 0);
    }

    ghost function State(): Node reads this {
      Node(nodeID, chain, currentView, currentHeight, highestSeenView, timeoutVotes, ballot, lead, lastPrepared)
    }

    /** The summing loop shared by hasQuorum and hasPrepareQuorum, and their threshold. */
    method HasStakeQuorum(votes: map<string, Vote>) returns (quorum: bool)
      ensures quorum <==> HasQuorum(validatorSet.Value(), votes.Keys)
    {
      var voted := 0;
      var rest, done := votes.Keys, {};
      ghost var stakes := Stakes(validatorSet.Value());
      WeightNone(stakes, done);
      while rest != {}
        invariant done !! rest && done + rest == votes.Keys
        invariant voted == Weight(stakes, done)
        decreases rest
      {
        var id :| id in rest;
        WeightAdd(stakes, done, id);
        if id in validatorSet.validators { voted := voted + validatorSet.validators[id].stake; }
        rest, done := rest - {id}, done + {id};
      }
      assert done == votes.Keys;
      if validatorSet.totalStake == 0 { return false; }
      var required := validatorSet.totalStake * 2 / 3 + 1;
      quorum := voted >= required;
    }

    method ResetConsensusState()
      modifies this`ballot
      ensures State() == Reset(old(State()))
    {
      ballot := Ballot(Idle, None, None, 0, map[], map[], {}, {});
    }

    /** The epoch walk of updateLeaderStatusLocked. */
    method ElectionValidators(clockEpoch: nat, peers: seq<string>) returns (validators: seq<string>)
      ensures validators == ElectionList(validatorSet.Value(), clockEpoch, peers)
    {
      var ep: int := clockEpoch;
      while ep >= 0
        invariant -1 <= ep <= clockEpoch
        invariant ElectionList(validatorSet.Value(), clockEpoch, peers) ==
          if ep >= 0 then ElectionList(validatorSet.Value(), ep, peers) else peers
      {
        validators := validatorSet.GetActiveValidators(ep);
        if |validators| > 0 { return; }
        ep := ep - 1;
      }
      validators := peers;
    }

    /** The list a proposer is checked against. */
    method FollowerValidators(height: nat, peers: seq<string>) returns (validators: seq<string>)
      ensures validators == FollowerList(validatorSet.Value(), height, peers)
    {
      validators := validatorSet.GetActiveValidators(height / SLOTS_PER_EPOCH);
      if |validators| == 0 { validators := peers; }
    }

    method UpdateLeaderStatus(e: Env, clockEpoch: nat)
      requires chain != []
      modifies this`lead
      ensures State() == Elect(old(State()), Electing(e, validatorSet.Value(), clockEpoch))
    {
      var validators := ElectionValidators(clockEpoch, e.peers);
      ElectFrom(e.(electionList := validators));
    }

    /** The choice from the list: the scheduled leader, or the next one that is not suspected. */
    method ElectFrom(e: Env)
      requires chain != []
      modifies this`lead
      ensures State() == Elect(old(State()), e)
    {
      var validators := e.electionList;
      if |validators| == 0 {
        lead := lead.(isLeader := false, elected := "");
        return;
      }
      var nextHeight := chain[|chain| - 1].height + 1;
      var electedIndex := nextHeight % |validators|;
      var electedID := validators[electedIndex];
      if electedID in lead.suspected {
        var alternate := FindAlternate(validators, electedIndex);
        match alternate
        case Some(id) => electedID := id;
        case None => lead := lead.(suspected := {}, viewChanges := 0);
      }
      lead := lead.(elected := electedID, isLeader := electedID == nodeID);
    }

    /** The rotation past suspected leaders. */
    method FindAlternate(validators: seq<string>, electedIndex: nat) returns (alternate: Option<string>)
      requires validators != []
      ensures alternate ==
        FirstTrusted(validators, lead.suspected, electedIndex + 1, electedIndex + |validators|)
    {
      ghost var suspected, end := lead.suspected, electedIndex + |validators|;
      var offset := 1;
      while offset <= |validators|
        invariant 1 <= offset <= |validators| + 1
        invariant FirstTrusted(validators, suspected, electedIndex + 1, end)
               == FirstTrusted(validators, suspected, electedIndex + offset, end)
      {
        var altID := At(validators, electedIndex + offset);
        if altID !in lead.suspected { return Some(altID); }
        offset := offset + 1;
      }
      return None;
    }

    method SendPrepareVote(hash: Hash, view: uint64, e: Env) returns (effect: Effect)
      modifies this`ballot
      ensures (State(), effect) == Engine.SendPrepareVote(old(State()), hash, view, e)
    {
      if hash in ballot.sentPrepare || !e.signOk { return Silent; }
      ballot := ballot.(sentPrepare := ballot.sentPrepare + {hash});
      return SendPrepare(Vote(hash, view, nodeID));
    }

    method VoteForBlock(hash: Hash, view: uint64, e: Env) returns (effect: Effect)
      modifies this`ballot
      ensures (State(), effect) == Engine.VoteForBlock(old(State()), hash, view, e)
    {
      if hash in ballot.sentCommit { return Silent; }
      if !Is(ballot.locked, hash) && !Is(ballot.prepared, hash) { return Silent; }
      if !e.signOk { return Silent; }
      ballot := ballot.(sentCommit := ballot.sentCommit + {hash});
      return SendCommit(Vote(hash, view, nodeID));
    }

    method ProcessProposal(p: Proposal, e: Env, clockEpoch: nat) returns (effect: Effect)
      requires chain != []
      modifies this
      ensures (State(), effect)
           == Engine.ProcessProposal(old(State()), p, Judging(e, validatorSet.Value(), clockEpoch, p.block.height))
    {
      var election := ElectionValidators(clockEpoch, e.peers);
      var follower := FollowerValidators(p.block.height, e.peers);
      effect := ConsiderProposal(p, e.(electionList := election, followerList := follower));
    }

    /** processProposal on the validator lists read from the registry. */
    method ConsiderProposal(p: Proposal, e: Env) returns (effect: Effect)
      requires chain != []
      modifies this
      ensures (State(), effect) == Engine.ProcessProposal(old(State()), p, e)
    {
      var hash := HashOf(p.block);
      if !e.blockValid { return Silent; }
      if Is(ballot.prepared, hash) && p.view <= ballot.preparedView { return Silent; }
      if ballot.prepared.Some? && p.block.height > ballot.prepared.value.height {
        ballot := ballot.(prepared := None, preparedView := 0);
      }
      if !e.sigOk { return Silent; }
      if p.view < currentView { return Silent; }
      if p.view > currentView {
        currentView := p.view;
        ResetConsensusState();
        ElectFrom(e);
      }
      effect := JudgeProposal(p, e);
    }

    /** The second half of processProposal, from the height check on. */
    method JudgeProposal(p: Proposal, e: Env) returns (effect: Effect)
      requires chain != []
      modifies this
      ensures (State(), effect) == Engine.JudgeProposal(old(State()), p, e)
    {
      if p.block.height != chain[|chain| - 1].height + 1 { return Silent; }
      var validators := e.followerList;
      if |validators| > 0 {
        lead := lead.(elected := validators[p.block.height % |validators|]);
      } else {
        ElectFrom(e);
      }
      if lead.elected != "" {
        if lead.elected != p.proposer { return Silent; }
      } else {
        if |e.peers| == 0 || e.peers[p.view % |e.peers|] != p.proposer { return Silent; }
      }
      lead := lead.(suspected := lead.suspected - {p.proposer}, viewChanges := 0);
      ballot := ballot.(prepared := Some(p.block), preparedView := p.view, phase := PrePrepared);
      effect := SendPrepareVote(HashOf(p.block), p.view, e);
    }

    method ProcessPrepareVote(v: Vote, e: Env) returns (effect: Effect)
      modifies this
      ensures (State(), effect) == Engine.ProcessPrepareVote(old(State()), v, validatorSet.Value(), e)
    {
      if !e.sigOk { return Silent; }
      var votes := Votes(ballot.prepareVotes, v.hash);
      ballot := ballot.(prepareVotes := ballot.prepareVotes[v.hash := votes]);
      if v.voter in votes { return Silent; }
      votes := votes[v.voter := v];
      ballot := ballot.(prepareVotes := ballot.prepareVotes[v.hash := votes]);
      assert votes.Keys == Votes(old(ballot).prepareVotes, v.hash).Keys + {v.voter};
      assert ballot.prepareVotes == old(ballot).prepareVotes[v.hash := votes];
      var quorum := HasStakeQuorum(votes);
      if !quorum { return Silent; }
      if !Is(ballot.prepared, v.hash) { return Silent; }
      lastPrepared := Sticky(ballot.prepared, currentHeight);
      if ballot.phase != PrePrepared { return Silent; }
      ballot := ballot.(phase := Prepared, locked := ballot.prepared);
      effect := VoteForBlock(v.hash, v.view, e);
    }

    method ProcessVote(v: Vote, e: Env) returns (effect: Effect)
      requires chain != []
      modifies this
      ensures (State(), effect) == Engine.ProcessVote(old(State()), v, validatorSet.Value(), e)
    {
      if !e.sigOk { return Silent; }
      var votes := Votes(ballot.commitVotes, v.hash);
      ballot := ballot.(commitVotes := ballot.commitVotes[v.hash := votes]);
      if v.voter in votes { return Silent; }
      votes := votes[v.voter := v];
      ballot := ballot.(commitVotes := ballot.commitVotes[v.hash := votes]);
      assert votes.Keys == Votes(old(ballot).commitVotes, v.hash).Keys + {v.voter};
      assert ballot.commitVotes == old(ballot).commitVotes[v.hash := votes];
      var quorum := HasStakeQuorum(votes);
      if !quorum { return Silent; }
      var blockToCommit: Block;
      if Is(ballot.locked, v.hash) {
        blockToCommit := ballot.locked.value;
      } else if Is(ballot.prepared, v.hash) {
        blockToCommit := ballot.prepared.value;
      } else {
        return Silent;
      }
      ballot := ballot.(phase := Committed);
      effect := CommitBlock(blockToCommit, e);
    }

    method CommitBlock(b: Block, e: Env) returns (effect: Effect)
      requires chain != []
      modifies this
      ensures (State(), effect) == Engine.CommitBlock(old(State()), b, e)
    {
      if b.height != chain[|chain| - 1].height + 1 { return Silent; }
      var attestors := Votes(ballot.commitVotes, HashOf(b)).Keys;
      if !e.commitOk { return Silent; }
      chain := chain + [b];
      currentHeight, currentView := b.height, 1;
      lead := lead.(viewChanges := 0);
      if lastPrepared.height <= b.height { lastPrepared := Sticky(None, 0); }
      timeoutVotes := map[];
      ResetConsensusState();
      return Decide(b, attestors);
    }

    method ProcessTimeout(t: Timeout, e: Env, clockEpoch: nat) returns (effect: Effect)
      requires chain != []
      modifies this
      ensures (State(), effect) == Engine.ProcessTimeout(old(State()), t, Electing(e, validatorSet.Value(), clockEpoch))
    {
      var election := ElectionValidators(clockEpoch, e.peers);
      effect := CountTimeout(t, e.(electionList := election));
    }

    /** processTimeout on the validator list read from the registry. */
    method CountTimeout(t: Timeout, e: Env) returns (effect: Effect)
      requires chain != []
      modifies this
      ensures (State(), effect) == Engine.ProcessTimeout(old(State()), t, e)
    {
      effect := Silent;
      if !e.sigOk { return; }
      if currentHeight > 0 && e.recentBlock { return; }
      if t.view > currentView {
        if t.view > highestSeenView { highestSeenView := t.view; }
        if t.view !in timeoutVotes { timeoutVotes := timeoutVotes[t.view := {}]; }
        timeoutVotes := timeoutVotes[t.view := timeoutVotes[t.view] + {t.voter}];
        ghost var votes := timeoutVotes;
        assert votes == old(timeoutVotes)[t.view := votes[t.view]];
        if |timeoutVotes[t.view]| >= TimeoutQuorum(e.peers) {
          timeoutVotes := Newer(timeoutVotes, currentView);
          currentView := t.view;
          ResetConsensusState();
          ElectFrom(e);
        }
      }
    }

    method StartViewChange(e: Env, clockEpoch: nat) returns (effect: Effect)
      requires chain != []
      modifies this
      ensures (State(), effect) == Engine.StartViewChange(old(State()), Electing(e, validatorSet.Value(), clockEpoch))
    {
      var election := ElectionValidators(clockEpoch, e.peers);
      effect := ChangeView(e.(electionList := election));
    }

    /** startViewChange on the validator list read from the registry. */
    method ChangeView(e: Env) returns (effect: Effect)
      requires chain != []
      modifies this
      ensures (State(), effect) == Engine.StartViewChange(old(State()), e)
    {
      if ballot.phase != Idle {
        if !e.stuck { return Silent; }
        ResetConsensusState();
      }
      if e.recentChange { return Silent; }
      if currentHeight > 0 && e.recentBlock { return Silent; }
      if |e.peers| == 0 { return Silent; }
      var newView := (currentView + 1) % U64;
      if highestSeenView >= newView { newView := highestSeenView; }
      lead := lead.(viewChanges := lead.viewChanges + 1);
      if lead.viewChanges >= SUSPECT_AFTER && lead.elected != "" {
        lead := lead.(suspected := lead.suspected + {lead.elected});
      }
      currentView := newView;
      ResetConsensusState();
      ElectFrom(e);
      return if e.signOk then SendTimeout(newView) else Silent;
    }

    /** Every handler, on every event, takes the step of the engine model with the lists that the registry gives: the
        steps of a correct node in a whole system. */
    method Handle(ev: Event, e: Env, clockEpoch: nat) returns (effect: Effect, ghost used: Env)
      requires chain != []
      modifies this
      ensures Rostered(used, ev, validatorSet.Value(), clockEpoch)
      ensures used == e.(electionList := used.electionList, followerList := used.followerList)
      ensures (State(), effect) == Step(old(State()), ev, validatorSet.Value(), used)
    {
      effect := Silent;
      used := Electing(e, validatorSet.Value(), clockEpoch);
      match ev
      case OnProposal(p) => {
        used := Judging(e, validatorSet.Value(), clockEpoch, p.block.height);
        effect := ProcessProposal(p, e, clockEpoch);
      }
      case OnPrepare(v) => {
        VotesIgnoreLists(State(), v, validatorSet.Value(), e, used);
        effect := ProcessPrepareVote(v, e);
      }
      case OnCommit(v) => {
        VotesIgnoreLists(State(), v, validatorSet.Value(), e, used);
        effect := ProcessVote(v, e);
      }
      case OnTimeout(t) => effect := ProcessTimeout(t, e, clockEpoch);
      case OnViewTimer => effect := StartViewChange(e, clockEpoch);
      case OnCatchUp => CatchUpWithChain();
      case OnElection => UpdateLeaderStatus(e, clockEpoch);
      case OnImport(b) => ImportBlock(b);
    }

    /** The view-timer loop follows a chain that went ahead. */
    method CatchUpWithChain()
      requires chain != []
      modifies this`currentHeight
      ensures State() == CatchUp(old(State()))
    {
      var tip := chain[|chain| - 1].height;
      if currentHeight != 0 && tip > currentHeight { currentHeight := tip; }
    }

    /** The chain grows without this engine. */
    method ImportBlock(b: Block)
      requires chain != []
      modifies this`chain
      ensures State() == Import(old(State()), b)
    {
      if b.height == chain[|chain| - 1].height + 1 { chain := chain + [b]; }
    }
  }
}
