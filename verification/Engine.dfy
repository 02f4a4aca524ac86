/** One node of the stake-weighted PBFT engine (src/consensus/consensus.go) as a value, with one function per
    handler. Every handler of the source holds the node's lock from start to end, so one call is one step. */
module Engine {
  import opened Basics
  import opened Sums
  import opened Staking

  datatype Block = Block(height: nat, body: string)

  /** Block hashes are free: two hashes are equal only if the blocks are. */
  datatype Hash = HashOf(block: Block)

  datatype Phase = Idle | PrePrepared | Prepared | Committed

  datatype Proposal = Proposal(block: Block, view: uint64, proposer: string)
  datatype Vote = Vote(hash: Hash, view: uint64, voter: string)
  datatype Timeout = Timeout(view: uint64, voter: string)

  type VoteTable = map<Hash, map<string, Vote>>

  /** The part of a node that resetConsensusState clears. */
  datatype Ballot = Ballot(
    phase: Phase,
    locked: Option<Block>,
    prepared: Option<Block>,
    preparedView: uint64,
    prepareVotes: VoteTable,
    commitVotes: VoteTable,
    sentPrepare: set<Hash>,
    sentCommit: set<Hash>)

  const FRESH := Ballot(Idle, None, None, 0, map[], map[], {}, {})

  datatype Leadership = Leadership(elected: string, isLeader: bool, suspected: set<string>, viewChanges: nat)

  /** The last block with a prepare quorum and the engine height at that time, kept across view changes. */
  datatype Sticky = Sticky(block: Option<Block>, height: nat)

  datatype Node = Node(
    id: string,
    chain: seq<Block>,
    view: uint64,
    height: nat,
    highestSeen: uint64,
    timeoutVotes: map<uint64, set<string>>,
    ballot: Ballot,
    lead: Leadership,
    sticky: Sticky)

  /** Outcomes a handler takes from its surroundings: block validation, signature checks, signing, the chain's
      own commit, the clock guards, the peer list, and the two validator lists it reads from the registry, one
      for electing a leader and one for checking a proposer. */
  datatype Env = Env(
    blockValid: bool, sigOk: bool, signOk: bool, commitOk: bool,
    recentBlock: bool, recentChange: bool, stuck: bool,
    peers: seq<string>, electionList: seq<string>, followerList: seq<string>)

  /** What a step shows to the outside. */
  datatype Effect =
    | Silent
    | SendPrepare(vote: Vote)
    | SendCommit(vote: Vote)
    | Decide(block: Block, attestors: set<string>)
    | SendTimeout(view: uint64)

  const SLOTS_PER_EPOCH: nat := 32
  const SUSPECT_AFTER: nat := 50
  const MAX_VIEW: uint64 := 0xFFFF_FFFF_FFFF_FFFF

  function Tip(n: Node): nat
    requires n.chain != []
  {
    n.chain[|n.chain| - 1].height
  }

  /** Strictly more than two thirds of the total stake. */
  ghost predicate HasQuorum(r: Registry, voters: set<string>) {
    r.total != 0 && Weight(Stakes(r), voters) >= 2 * r.total / 3 + 1
  }

  function Votes(table: VoteTable, hash: Hash): map<string, Vote> {
    if hash in table then table[hash] else map[]
  }

  predicate Is(b: Option<Block>, hash: Hash) {
    b.Some? && HashOf(b.value) == hash
  }

  function Reset(n: Node): Node {
    n.(ballot := FRESH)
  }

  // ---------------------------------------------------------------- leader election

  /** The validators of the newest epoch up to `epoch` that has any, else the peer list. */
  ghost function ElectionList(r: Registry, epoch: nat, peers: seq<string>): seq<string> {
    if ActiveIds(r, epoch) != [] then ActiveIds(r, epoch)
    else if epoch == 0 then peers
    else ElectionList(r, epoch - 1, peers)
  }

  /** The validators of the epoch of `height`, else the peer list. */
  ghost function FollowerList(r: Registry, height: nat, peers: seq<string>): seq<string> {
    var active := ActiveIds(r, height / SLOTS_PER_EPOCH);
    if active != [] then active else peers
  }

  /** The validator at position `i`, counting round and round. */
  function At(list: seq<string>, i: nat): string
    requires list != []
  {
    list[i % |list|]
  }

  /** First unsuspected validator at the positions from `i` to `last`. */
  function FirstTrusted(list: seq<string>, suspected: set<string>, i: nat, last: nat): Option<string>
    requires list != [] && i <= last + 1
    decreases last + 1 - i
  {
    if i > last then None
    else if At(list, i) !in suspected then Some(At(list, i))
    else FirstTrusted(list, suspected, i + 1, last)
  }

  /** The leader for `height`, and whether the suspect list had to be dropped because it named everybody. */
  function Choose(list: seq<string>, height: nat, suspected: set<string>): (string, bool) {
    if list == [] then ("", false)
    else if At(list, height) !in suspected then (At(list, height), false)
    else match FirstTrusted(list, suspected, height % |list| + 1, height % |list| + |list|)
      case Some(alternate) => (alternate, false)
      case None => (At(list, height), true)
  }

  /** updateLeaderStatusLocked. */
  function Elect(n: Node, e: Env): Node
    requires n.chain != []
  {
    var choice := Choose(e.electionList, Tip(n) + 1, n.lead.suspected);
    n.(lead := Leadership(choice.0, e.electionList != [] && choice.0 == n.id,
                          if choice.1 then {} else n.lead.suspected,
                          if choice.1 then 0 else n.lead.viewChanges))
  }

  predicate ValidLeader(n: Node, proposer: string, view: uint64, peers: seq<string>) {
    if n.lead.elected != "" then n.lead.elected == proposer
    else peers != [] && At(peers, view) == proposer
  }

  // ---------------------------------------------------------------- handlers

  function SendPrepareVote(n: Node, hash: Hash, view: uint64, e: Env): (Node, Effect) {
    if hash in n.ballot.sentPrepare || !e.signOk then (n, Silent)
    else (n.(ballot := n.ballot.(sentPrepare := n.ballot.sentPrepare + {hash})), SendPrepare(Vote(hash, view, n.id)))
  }

  function VoteForBlock(n: Node, hash: Hash, view: uint64, e: Env): (Node, Effect) {
    if hash in n.ballot.sentCommit || !(Is(n.ballot.locked, hash) || Is(n.ballot.prepared, hash)) || !e.signOk
    then (n, Silent)
    else (n.(ballot := n.ballot.(sentCommit := n.ballot.sentCommit + {hash})), SendCommit(Vote(hash, view, n.id)))
  }

  /** A prepared block below the proposed height is stale. */
  function DropStale(n: Node, height: nat): Node {
    if n.ballot.prepared.Some? && height > n.ballot.prepared.value.height
    then n.(ballot := n.ballot.(prepared := None, preparedView := 0))
    else n
  }

  function ProcessProposal(n: Node, p: Proposal, e: Env): (Node, Effect)
    requires n.chain != []
  {
    if !e.blockValid || (Is(n.ballot.prepared, HashOf(p.block)) && p.view <= n.ballot.preparedView) then (n, Silent)
    else
      var n1 := DropStale(n, p.block.height);
      if !e.sigOk || p.view < n1.view then (n1, Silent)
      else JudgeProposal(if p.view > n1.view then Elect(Reset(n1.(view := p.view)), e) else n1, p, e)
  }

  /** The checks that come after the view has been brought up to date. */
  function JudgeProposal(n: Node, p: Proposal, e: Env): (Node, Effect)
    requires n.chain != []
  {
    if p.block.height != Tip(n) + 1 then (n, Silent)
    else
      var list := e.followerList;
      var n1 := if list != [] then n.(lead := n.lead.(elected := At(list, p.block.height))) else Elect(n, e);
      if !ValidLeader(n1, p.proposer, p.view, e.peers) then (n1, Silent)
      else SendPrepareVote(Accept(n1, p), HashOf(p.block), p.view, e)
  }

  function Accept(n: Node, p: Proposal): Node {
    n.(lead := n.lead.(suspected := n.lead.suspected - {p.proposer}, viewChanges := 0),
       ballot := n.ballot.(prepared := Some(p.block), preparedView := p.view, phase := PrePrepared))
  }

  ghost function ProcessPrepareVote(n: Node, v: Vote, r: Registry, e: Env): (Node, Effect) {
    var votes := Votes(n.ballot.prepareVotes, v.hash);
    if !e.sigOk then (n, Silent)
    else if v.voter in votes then
      (n.(ballot := n.ballot.(prepareVotes := n.ballot.prepareVotes[v.hash := votes])), Silent)
    else
      var b := n.ballot.(prepareVotes := n.ballot.prepareVotes[v.hash := votes[v.voter := v]]);
      if !HasQuorum(r, votes.Keys + {v.voter}) || !Is(b.prepared, v.hash) then (n.(ballot := b), Silent)
      else if b.phase != PrePrepared then (n.(ballot := b, sticky := Sticky(b.prepared, n.height)), Silent)
      else VoteForBlock(n.(ballot := b.(phase := Prepared, locked := b.prepared), sticky := Sticky(b.prepared, n.height)),
                        v.hash, v.view, e)
  }

  ghost function ProcessVote(n: Node, v: Vote, r: Registry, e: Env): (Node, Effect)
    requires n.chain != []
  {
    var votes := Votes(n.ballot.commitVotes, v.hash);
    if !e.sigOk then (n, Silent)
    else if v.voter in votes then
      (n.(ballot := n.ballot.(commitVotes := n.ballot.commitVotes[v.hash := votes])), Silent)
    else
      var b := n.ballot.(commitVotes := n.ballot.commitVotes[v.hash := votes[v.voter := v]]);
      if !HasQuorum(r, votes.Keys + {v.voter}) || !(Is(b.locked, v.hash) || Is(b.prepared, v.hash))
      then (n.(ballot := b), Silent)
      else CommitBlock(n.(ballot := b.(phase := Committed)), v.hash.block, e)
  }

  function CommitBlock(n: Node, b: Block, e: Env): (Node, Effect)
    requires n.chain != []
  {
    if b.height != Tip(n) + 1 || !e.commitOk then (n, Silent)
    else
      (Reset(n.(chain := n.chain + [b], height := b.height, view := 1, timeoutVotes := map[],
                lead := n.lead.(viewChanges := 0),
                sticky := if n.sticky.height <= b.height then Sticky(None, 0) else n.sticky)),
       Decide(b, Votes(n.ballot.commitVotes, HashOf(b)).Keys))
  }

  /** f + 1 for the visible validators. */
  function TimeoutQuorum(peers: seq<string>): nat {
    if peers == [] then 1 else (|peers| - 1) / 3 + 1
  }

  function Newer(votes: map<uint64, set<string>>, view: uint64): map<uint64, set<string>> {
    map v | v in votes && v > view :: votes[v]
  }

  function ProcessTimeout(n: Node, t: Timeout, e: Env): (Node, Effect)
    requires n.chain != []
  {
    if !e.sigOk || (n.height > 0 && e.recentBlock) || t.view <= n.view then (n, Silent)
    else
      var voters := (if t.view in n.timeoutVotes then n.timeoutVotes[t.view] else {}) + {t.voter};
      var votes := n.timeoutVotes[t.view := voters];
      var n1 := n.(highestSeen := if t.view > n.highestSeen then t.view else n.highestSeen, timeoutVotes := votes);
      if |voters| < TimeoutQuorum(e.peers) then (n1, Silent)
      else
        (Elect(Reset(n1.(timeoutVotes := Newer(votes, n.view), view := t.view)), e), Silent)
  }

  /** The next view, in the source's 64-bit arithmetic. */
  function NewView(n: Node): uint64 {
    var next := (n.view + 1) % U64;
    if n.highestSeen >= next then n.highestSeen else next
  }

  function StartViewChange(n: Node, e: Env): (Node, Effect)
    requires n.chain != []
  {
    if n.ballot.phase != Idle && !e.stuck then (n, Silent)
    else
      var n1 := if n.ballot.phase != Idle then Reset(n) else n;
      if e.recentChange || (n.height > 0 && e.recentBlock) || e.peers == [] then (n1, Silent)
      else
        (Elect(Reset(n1.(view := NewView(n), lead := Suspect(n.lead))), e),
         if e.signOk then SendTimeout(NewView(n)) else Silent)
  }

  /** One more view change; from the fiftieth in a row on, the elected leader is suspected. */
  function Suspect(l: Leadership): Leadership {
    var count := l.viewChanges + 1;
    l.(viewChanges := count,
       suspected := if count >= SUSPECT_AFTER && l.elected != "" then l.suspected + {l.elected} else l.suspected)
  }

  /** The branch of the consensus loop that adopts a chain height the engine has not seen yet. */
  function CatchUp(n: Node): Node
    requires n.chain != []
  {
    if n.height != 0 && Tip(n) > n.height then n.(height := Tip(n)) else n
  }

  /** A block that reaches the chain without this engine, by peer synchronisation. */
  function Import(n: Node, b: Block): Node
    requires n.chain != []
  {
    if b.height == Tip(n) + 1 then n.(chain := n.chain + [b]) else n
  }

  datatype Event =
    | OnProposal(proposal: Proposal)
    | OnPrepare(vote: Vote)
    | OnCommit(vote: Vote)
    | OnTimeout(timeout: Timeout)
    | OnViewTimer
    | OnCatchUp
    | OnElection
    | OnImport(block: Block)

  /** The validator lists of `e` are the ones the registry gives for the clock's epoch and the proposed height. */
  ghost predicate Rostered(e: Env, ev: Event, r: Registry, clockEpoch: nat) {
    && e.electionList == ElectionList(r, clockEpoch, e.peers)
    && (ev.OnProposal? ==> e.followerList == FollowerList(r, ev.proposal.block.height, e.peers))
  }

  ghost function Step(n: Node, ev: Event, r: Registry, e: Env): (Node, Effect)
    requires n.chain != []
  {
    match ev
    case OnProposal(p) => ProcessProposal(n, p, e)
    case OnPrepare(v) => ProcessPrepareVote(n, v, r, e)
    case OnCommit(v) => ProcessVote(n, v, r, e)
    case OnTimeout(t) => ProcessTimeout(n, t, e)
    case OnViewTimer => StartViewChange(n, e)
    case OnCatchUp => (CatchUp(n), Silent)
    case OnElection => (Elect(n, e), Silent)
    case OnImport(b) => (Import(n, b), Silent)
  }

  function Initial(id: string, genesis: Block): Node {
    Node(id, [genesis], 0, 0, 0, map[], FRESH, Leadership("", false, {}, 0), Sticky(None, 0))
  }
}
