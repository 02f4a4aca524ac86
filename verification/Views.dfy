/** When views change: timeout messages of a third of the validators, the view timer, and what a step to a new view
    leaves behind. */
module Views {
  import opened Basics
  import opened Staking
  import opened Engine
  import opened Progress

  // ---------------------------------------------------------------- timeout messages

  function TimeoutVoters(n: Node, view: uint64): set<string> {
    if view in n.timeoutVotes then n.timeoutVotes[view] else {}
  }

  /** A timeout message is taken into account: signed, for a later view, and no block was committed just now. */
  predicate Heeded(n: Node, t: Timeout, e: Env) {
    e.sigOk && t.view > n.view && !(n.height > 0 && e.recentBlock)
  }

  /** f + 1 in plain numbers: a third of the visible validators. */
  lemma ThirdExact(voters: set<string>, peers: seq<string>)
    requires voters != {}
    ensures |voters| >= TimeoutQuorum(peers) <==> 3 * |voters| >= |peers|
  {
  }

  /** Property: a timeout message moves the node to its view if and only if it is heeded and the distinct validators heard
      for that view, this one included, are at least a third of the visible ones. */
  lemma TimeoutAdvances(n: Node, t: Timeout, e: Env)
    requires n.chain != []
    ensures var n' := ProcessTimeout(n, t, e).0;
            var voters := TimeoutVoters(n, t.view) + {t.voter};
            && (n'.view != n.view <==> Heeded(n, t, e) && 3 * |voters| >= |e.peers|)
            && (n'.view != n.view ==> n'.view == t.view && n'.ballot == FRESH && n'.lead == Elect(n, e).lead)
            && (n'.view == n.view ==> n'.ballot == n.ballot && n'.lead == n.lead)
            && n'.chain == n.chain && n'.height == n.height
  {
    ThirdExact(TimeoutVoters(n, t.view) + {t.voter}, e.peers);
  }

  /** A heeded message is recorded under its view, with the highest view ever seen; tables of passed views are dropped
      when the view advances. */
  lemma TimeoutRecorded(n: Node, t: Timeout, e: Env)
    requires n.chain != []
    ensures var n' := ProcessTimeout(n, t, e).0;
            if Heeded(n, t, e) then
              && TimeoutVoters(n', t.view) == TimeoutVoters(n, t.view) + {t.voter}
              && (forall w: uint64 | w > n.view && w != t.view :: TimeoutVoters(n', w) == TimeoutVoters(n, w))
              && (n'.view != n.view ==> forall w: uint64 | w <= n.view :: w !in n'.timeoutVotes)
              && n'.highestSeen == (if t.view > n.highestSeen then t.view else n.highestSeen)
            else n' == n
  {
  }

  ghost predicate TimeoutsFor(inputs: seq<Input>, n: Node, view: uint64) {
    forall i :: 0 <= i < |inputs| ==>
      inputs[i].event.OnTimeout? && inputs[i].event.timeout.view == view && Heeded(n, inputs[i].event.timeout, inputs[i].env)
  }

  function AskerOf(ev: Event): string {
    if ev.OnTimeout? then ev.timeout.voter else ""
  }

  /** The validators known and those of the first `k` messages. */
  function Asking(known: set<string>, inputs: seq<Input>, k: nat): set<string>
    requires k <= |inputs|
  {
    known + set i | 0 <= i < k :: AskerOf(inputs[i].event)
  }

  lemma AskingMore(known: set<string>, inputs: seq<Input>, k: nat)
    requires k < |inputs|
    ensures Asking(known, inputs, k + 1) == Asking(known, inputs, k) + {AskerOf(inputs[k].event)}
  {
  }

  lemma AskingNone(known: set<string>, inputs: seq<Input>)
    ensures Asking(known, inputs, 0) == known
  {
  }

  /** A third of the visible validators. */
  predicate Third(voters: set<string>, peers: seq<string>) {
    3 * |voters| >= |peers|
  }

  ghost predicate FewAsk(inputs: seq<Input>, known: set<string>, k: nat)
    requires k <= |inputs|
  {
    forall i :: 0 < i <= k ==> !Third(Asking(known, inputs, i), inputs[i - 1].env.peers)
  }

  /** `m` is `n` but for the timeout messages heard: those for `view` came from `voters`. */
  ghost predicate Listening(n: Node, m: Node, view: uint64, voters: set<string>) {
    m.view == n.view && m.height == n.height && m.chain == n.chain && m.ballot == n.ballot
    && TimeoutVoters(m, view) == voters
  }

  /** One message more: recorded while fewer than a third ask, heeded once they are enough. */
  lemma ListenMore(n: Node, m: Node, view: uint64, voters: set<string>, input: Input, r: Registry, m': Node)
    requires n.chain != [] && Listening(n, m, view, voters)
    requires input.event.OnTimeout? && input.event.timeout.view == view && Heeded(n, input.event.timeout, input.env)
    requires m' == Step(m, input.event, r, input.env).0
    ensures !Third(voters + {AskerOf(input.event)}, input.env.peers) ==> Listening(n, m', view, voters + {AskerOf(input.event)})
    ensures Third(voters + {AskerOf(input.event)}, input.env.peers) ==> m'.view == view
  {
    TimeoutAdvances(m, input.event.timeout, input.env);
    TimeoutRecorded(m, input.event.timeout, input.env);
  }

  lemma ListenPlay(n: Node, r: Registry, view: uint64, inputs: seq<Input>, k: nat, voters: set<string>)
    requires n.chain != [] && TimeoutsFor(inputs, n, view) && k < |inputs|
    requires Listening(n, Play(n, r, inputs[..k]), view, voters)
    ensures var m', all := Play(n, r, inputs[..k + 1]), voters + {AskerOf(inputs[k].event)};
            if Third(all, inputs[k].env.peers) then m'.view == view else Listening(n, m', view, all)
  {
    PlayMore(n, r, inputs, k);
    ListenMore(n, Play(n, r, inputs[..k]), view, voters, inputs[k], r, Play(n, r, inputs[..k + 1]));
  }

  /** While fewer than a third ask, the node stays and remembers exactly who asked. */
  lemma {:induction false} TimeoutsCollect(n: Node, r: Registry, view: uint64, inputs: seq<Input>, k: nat)
    requires n.chain != [] && TimeoutsFor(inputs, n, view) && k <= |inputs|
    requires FewAsk(inputs, TimeoutVoters(n, view), k)
    ensures Listening(n, Play(n, r, inputs[..k]), view, Asking(TimeoutVoters(n, view), inputs, k))
  {
    var known := TimeoutVoters(n, view);
    if k == 0 {
      assert inputs[..0] == [];
      AskingNone(known, inputs);
    } else {
      TimeoutsCollect(n, r, view, inputs, k - 1);
      AskingMore(known, inputs, k - 1);
      assert !Third(Asking(known, inputs, k), inputs[k - 1].env.peers);
      ListenPlay(n, r, view, inputs, k - 1, Asking(known, inputs, k - 1));
    }
  }

  /** Property: over any sequence of heeded messages for one view, the view is entered with the first message that brings
      the distinct validators asking for it to a third of the visible ones. */
  lemma FirstThirdAdvances(n: Node, r: Registry, view: uint64, inputs: seq<Input>, k: nat)
    requires n.chain != [] && TimeoutsFor(inputs, n, view) && k < |inputs|
    requires FewAsk(inputs, TimeoutVoters(n, view), k)
    requires Third(Asking(TimeoutVoters(n, view), inputs, k + 1), inputs[k].env.peers)
    ensures Play(n, r, inputs[..k]).view == n.view && Play(n, r, inputs[..k + 1]).view == view
  {
    TimeoutsCollect(n, r, view, inputs, k);
    AskingMore(TimeoutVoters(n, view), inputs, k);
    ListenPlay(n, r, view, inputs, k, Asking(TimeoutVoters(n, view), inputs, k));
  }

  // ---------------------------------------------------------------- the view timer

  predicate TimerRuns(n: Node, e: Env) {
    (n.ballot.phase == Idle || e.stuck) && !e.recentChange && !(n.height > 0 && e.recentBlock) && e.peers != []
  }

  /** Property: the view timer starts a view change if and only if the node is idle or stuck, neither a view change nor a
      block is recent and validators are visible. It then forgets the round, counts one more view change, suspects the
      elected leader from the fiftieth on, and announces the new view; otherwise it at most clears a stuck round. */
  lemma TimerExact(n: Node, e: Env)
    requires n.chain != []
    ensures var (n', effect) := StartViewChange(n, e);
            var count := n.lead.viewChanges + 1;
            var suspects := if count >= 50 && n.lead.elected != "" then n.lead.suspected + {n.lead.elected} else n.lead.suspected;
            if TimerRuns(n, e) then
              && n'.view == NewView(n) && n'.ballot == FRESH
              && n'.lead == Elect(n.(lead := n.lead.(viewChanges := count, suspected := suspects)), e).lead
              && effect == (if e.signOk then SendTimeout(NewView(n)) else Silent)
            else
              && n'.view == n.view && n'.lead == n.lead && effect == Silent
              && n'.ballot == if n.ballot.phase != Idle && e.stuck then FRESH else n.ballot
  {
  }

  // ---------------------------------------------------------------- following the chain

  /** A node past genesis adopts the height of its chain, and a node takes the next block of its chain and no other. */
  lemma ChainFollowed(n: Node, b: Block)
    requires Behind(n)
    ensures CatchUp(n) == n.(height := if n.height == 0 then 0 else Tip(n))
    ensures Import(n, b).chain == if b.height == Tip(n) + 1 then n.chain + [b] else n.chain
    ensures Import(n, b) == n.(chain := Import(n, b).chain)
  {
  }
}
