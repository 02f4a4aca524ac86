/** Heights and views of a single engine node over whole runs. */
module Progress {
  import opened Staking
  import opened Engine

  ghost predicate Linked(chain: seq<Block>) {
    forall i :: 0 < i < |chain| ==> chain[i].height == chain[i - 1].height + 1
  }

  /** The engine never claims a height its chain has not reached. */
  ghost predicate Behind(n: Node) {
    n.chain != [] && Linked(n.chain) && n.height <= Tip(n)
  }

  /** Lexicographic order of (height, view). */
  predicate Ahead(n: Node, m: Node) {
    m.height > n.height || (m.height == n.height && m.view > n.view)
  }

  predicate SameRound(n: Node, m: Node) {
    m.height == n.height && m.view == n.view
  }

  /** The one situation in which the source's 64-bit increment of the view wraps to a smaller number. */
  predicate ViewWraps(n: Node, ev: Event) {
    ev.OnViewTimer? && n.view == MAX_VIEW && n.highestSeen < MAX_VIEW
  }

  ghost predicate Extends(chain: seq<Block>, chain': seq<Block>) {
    chain' == chain || (chain != [] && |chain'| == |chain| + 1 && chain' == chain + [chain'[|chain|]]
                        && chain'[|chain|].height == chain[|chain| - 1].height + 1)
  }

  /** Proposals and prepare votes leave chain and height alone and never lower the view. */
  lemma ProposalProgress(n: Node, p: Proposal, e: Env)
    requires n.chain != []
    ensures var (n', effect) := ProcessProposal(n, p, e);
            n'.chain == n.chain && n'.height == n.height && n'.view >= n.view && !effect.Decide?
  {
    var n1 := DropStale(n, p.block.height);
    JudgeProgress(if p.view > n1.view then Elect(Reset(n1.(view := p.view)), e) else n1, p, e);
  }

  lemma JudgeProgress(n: Node, p: Proposal, e: Env)
    requires n.chain != []
    ensures var (n', effect) := JudgeProposal(n, p, e);
            n'.chain == n.chain && n'.height == n.height && n'.view == n.view && !effect.Decide?
  {
  }

  lemma PrepareProgress(n: Node, v: Vote, r: Registry, e: Env)
    ensures var (n', effect) := ProcessPrepareVote(n, v, r, e);
            n'.chain == n.chain && n'.height == n.height && n'.view == n.view && !effect.Decide?
  {
  }

  /** A commit vote either changes none of the three or appends the decided block and starts its successor round. */
  lemma VoteProgress(n: Node, v: Vote, r: Registry, e: Env)
    requires n.chain != []
    ensures var (n', effect) := ProcessVote(n, v, r, e);
            if effect.Decide? then n'.chain == n.chain + [effect.block] && n'.height == effect.block.height == Tip(n) + 1
            else n'.chain == n.chain && n'.height == n.height && n'.view == n.view
  {
  }

  /** Timeout messages never lower the view either. */
  lemma TimeoutProgress(n: Node, t: Timeout, e: Env)
    requires n.chain != []
    ensures var (n', effect) := ProcessTimeout(n, t, e);
            n'.chain == n.chain && n'.height == n.height && n'.view >= n.view && effect == Silent
  {
  }

  /** The view timer keeps the view or moves to the new one. */
  lemma TimerProgress(n: Node, e: Env)
    requires n.chain != []
    ensures var (n', effect) := StartViewChange(n, e);
            n'.chain == n.chain && n'.height == n.height && (n'.view == n.view || n'.view == NewView(n)) && !effect.Decide?
  {
  }

  /** The height stays behind the chain tip, the chain grows by at most one block of the next height, a decision
      appends exactly the decided block, and (height, view) either stays or moves forward; it moves backward exactly
      when the view wraps. */
  ghost predicate Progressed(n: Node, ev: Event, n': Node, effect: Effect)
    requires n.chain != []
  {
    && Behind(n') && Extends(n.chain, n'.chain)
    && (effect.Decide? ==> n'.chain == n.chain + [effect.block] && n'.height == effect.block.height == Tip(n) + 1)
    && (!SameRound(n, n') ==> (Ahead(n, n') <==> !ViewWraps(n, ev)))
  }

  lemma ViewOnly(n: Node, ev: Event, n': Node, effect: Effect)
    requires Behind(n) && n'.chain == n.chain && n'.height == n.height && !effect.Decide?
    requires if ViewWraps(n, ev) then n'.view <= n.view else n'.view >= n.view
    ensures Progressed(n, ev, n', effect)
  {
  }

  lemma ChainOnly(n: Node, ev: Event, b: Block, n': Node, effect: Effect)
    requires Behind(n) && !ev.OnViewTimer? && b.height == Tip(n) + 1 && n'.chain == n.chain + [b]
    requires if effect.Decide? then effect.block == b && n'.height == b.height else SameRound(n, n')
    ensures Progressed(n, ev, n', effect)
  {
  }

  /** Property of every step. */
  lemma StepProgress(n: Node, ev: Event, r: Registry, e: Env)
    requires Behind(n)
    ensures var (n', effect) := Step(n, ev, r, e); Progressed(n, ev, n', effect)
  {
    var (n', effect) := Step(n, ev, r, e);
    match ev
    case OnProposal(p) => ProposalProgress(n, p, e); ViewOnly(n, ev, n', effect);
    case OnPrepare(v) => PrepareProgress(n, v, r, e); ViewOnly(n, ev, n', effect);
    case OnCommit(v) =>
      VoteProgress(n, v, r, e);
      if effect.Decide? { ChainOnly(n, ev, effect.block, n', effect); } else { ViewOnly(n, ev, n', effect); }
    case OnTimeout(t) => TimeoutProgress(n, t, e); ViewOnly(n, ev, n', effect);
    case OnViewTimer => TimerProgress(n, e); NewViewExact(n); ViewOnly(n, ev, n', effect);
    case OnCatchUp =>
    case OnElection => ViewOnly(n, ev, n', effect);
    case OnImport(b) => if b.height == Tip(n) + 1 { ChainOnly(n, ev, b, n', effect); }
  }

  /** When the view timer fires, the new view is larger unless the view counter is exhausted; then it falls back to
      the highest view seen in a timeout message. */
  lemma NewViewExact(n: Node)
    ensures NewView(n) > n.view <==> n.view < MAX_VIEW
    ensures NewView(n) == n.view <==> n.view == MAX_VIEW && n.highestSeen == MAX_VIEW
    ensures n.view == MAX_VIEW ==> NewView(n) == n.highestSeen
  {
  }

  datatype Input = Input(event: Event, env: Env)

  lemma ChainKept(n: Node, ev: Event, r: Registry, e: Env)
    requires n.chain != []
    ensures n.chain <= Step(n, ev, r, e).0.chain
  {
    match ev
    case OnProposal(p) => ProposalProgress(n, p, e);
    case OnPrepare(v) => PrepareProgress(n, v, r, e);
    case OnCommit(v) => VoteProgress(n, v, r, e);
    case OnTimeout(t) => TimeoutProgress(n, t, e);
    case OnViewTimer => TimerProgress(n, e);
    case _ =>
  }

  ghost function Play(n: Node, r: Registry, inputs: seq<Input>): (n': Node)
    requires n.chain != []
    ensures n'.chain != []
  {
    if inputs == [] then n
    else
      var before := Play(n, r, inputs[..|inputs| - 1]);
      ChainKept(before, inputs[|inputs| - 1].event, r, inputs[|inputs| - 1].env);
      Step(before, inputs[|inputs| - 1].event, r, inputs[|inputs| - 1].env).0
  }

  lemma PlayMore(n: Node, r: Registry, inputs: seq<Input>, k: nat)
    requires n.chain != [] && k < |inputs|
    ensures Play(n, r, inputs[..k + 1]) == Step(Play(n, r, inputs[..k]), inputs[k].event, r, inputs[k].env).0
  {
    assert inputs[..k + 1][..k] == inputs[..k];
  }

  /** Property over every run: the height never exceeds the chain tip and the chain stays linked from its start. */
  lemma {:induction false} RunStaysBehind(n: Node, r: Registry, inputs: seq<Input>)
    requires Behind(n)
    ensures Behind(Play(n, r, inputs)) && n.chain <= Play(n, r, inputs).chain
  {
    if inputs != [] {
      var last := inputs[|inputs| - 1];
      RunStaysBehind(n, r, inputs[..|inputs| - 1]);
      StepProgress(Play(n, r, inputs[..|inputs| - 1]), last.event, r, last.env);
    }
  }

  /** Property over every run without an exhausted view counter: (height, view) never moves backward, and moves
      strictly forward at each step that changes it. */
  lemma {:induction false} RunMovesForward(n: Node, r: Registry, inputs: seq<Input>)
    requires Behind(n)
    requires forall i :: 0 <= i < |inputs| ==> !ViewWraps(Play(n, r, inputs[..i]), inputs[i].event)
    ensures SameRound(n, Play(n, r, inputs)) || Ahead(n, Play(n, r, inputs))
  {
    if inputs != [] {
      var init, last := inputs[..|inputs| - 1], inputs[|inputs| - 1];
      forall i | 0 <= i < |init| ensures !ViewWraps(Play(n, r, init[..i]), init[i].event) {
        assert init[..i] == inputs[..i] && init[i] == inputs[i];
      }
      RunMovesForward(n, r, init);
      RunStaysBehind(n, r, init);
      StepProgress(Play(n, r, init), last.event, r, last.env);
    }
  }

  /** The view can indeed fall: a signed proposal for the last 64-bit view, from whoever and for whatever height,
      moves the node there, and the next view timer takes it back to view zero. */
  lemma ViewFallsBack(r: Registry, genesis: Block, far: Block, ok: Env)
    requires far.height != genesis.height + 1
    requires ok.blockValid && ok.sigOk && ok.peers != [] && !ok.recentBlock && !ok.recentChange
    ensures var n := Initial("n", genesis);
            var proposal := Input(OnProposal(Proposal(far, MAX_VIEW, "x")), ok);
            && Play(n, r, [proposal]).view == MAX_VIEW
            && Play(n, r, [proposal, Input(OnViewTimer, ok)]).view == 0
  {
    var n := Initial("n", genesis);
    var proposal := Input(OnProposal(Proposal(far, MAX_VIEW, "x")), ok);
    var both := [proposal, Input(OnViewTimer, ok)];
    assert Play(n, r, [proposal][..|[proposal]| - 1]) == n;
    assert both[..1] == [proposal];
    var n1 := Play(n, r, [proposal]);
    assert n1 == ProcessProposal(n, proposal.event.proposal, ok).0;
    assert n1 == Elect(Reset(n.(view := MAX_VIEW)), ok);
    assert Play(n, r, both) == StartViewChange(n1, ok).0;
  }
}
