/** States that runs of 1Δ-BB* with silent faulty nodes get into, step by step. */
module DeltaBBReach {

  import opened Common
  import opened DeltaBB
  import opened Network
  import opened DeltaBBRuns
  import opened DeltaBBPoint1
  import opened DeltaBBGoodCase

  ghost predicate Reachable(u: Setup, s: DbbNet) {
    exists run, steps :: IsRun(Silent(u), run, steps) && run[|steps|] == s
  }

  lemma Extend(u: Setup, run: seq<DbbNet>, steps: seq<Step>, step: Step, s': DbbNet)
    requires IsRun(Silent(u), run, steps) && Next(Silent(u), run[|steps|], step, s')
    ensures IsRun(Silent(u), run + [s'], steps + [step])
  {
  }

  lemma Starts(u: Setup, s: DbbNet)
    requires Init(u, s)
    ensures Reachable(u, s)
  {
    var run, steps: seq<Step> := [s], [];
    assert IsRun(Silent(u), run, steps) && run[|steps|] == s;
  }

  lemma EndReached(u: Setup, run: seq<DbbNet>, steps: seq<Step>)
    requires IsRun(Silent(u), run, steps)
    ensures Reachable(u, run[|steps|])
  {
  }

  lemma Takes(u: Setup, s: DbbNet, step: Step, s': DbbNet)
    requires Reachable(u, s) && Next(Silent(u), s, step, s')
    ensures Reachable(u, s')
  {
    var run, steps :| IsRun(Silent(u), run, steps) && run[|steps|] == s;
    Extend(u, run, steps, step, s');
    EndReached(u, run + [s'], steps + [step]);
  }

  lemma TakesProposal(u: Setup, s: DbbNet, q: Proposal, s': DbbNet)
    requires Reachable(u, s) && Typed(u, s) && q in s.proposals && q.dst in u.active
    requires s' == TakeIn(u, s.(proposals := s.proposals - multiset{q}), q.dst, q.req)
    ensures Reachable(u, s')
  {
    Takes(u, s, Propose(q), s');
  }

  lemma Hears(u: Setup, s: DbbNet, f: Packet<Request>, s': DbbNet)
    requires Reachable(u, s) && Typed(u, s) && f in s.forward1s && f.dst in u.active
    requires s' == Hear(s.(forward1s := s.forward1s - multiset{f}), f.dst, f.msg)
    ensures Reachable(u, s')
  {
    Takes(u, s, Forward1(f), s');
  }

  lemma CountsVote(u: Setup, s: DbbNet, p: Packet<VoteContent>, s': DbbNet)
    requires Reachable(u, s) && Typed(u, s) && p in s.votes && p.dst in u.active
    requires s' == CountVote(u, s.(votes := s.votes - multiset{p}), p.dst, p.msg)
    ensures Reachable(u, s')
  {
    Takes(u, s, Vote(p), s');
  }

  lemma CastsVote(u: Setup, s: DbbNet, t: VoteTimer, s': DbbNet)
    requires Reachable(u, s) && Typed(u, s) && t in s.voteTimers && t.takenAt + u.c.tickInterval <= s.now
    requires t.node in u.active && s' == CastVote(u, s.(voteTimers := s.voteTimers - multiset{t}), t)
    ensures Reachable(u, s') && Next(Silent(u), s, FireVote(t), s')
  {
    Takes(u, s, FireVote(t), s');
  }

  lemma Waits(u: Setup, s: DbbNet)
    requires Reachable(u, s) && Typed(u, s) && MayTick(u, s)
    ensures Reachable(u, s.(now := s.now + 1))
  {
    Takes(u, s, Tick, s.(now := s.now + 1));
  }

  lemma CastVoteIs(u: Setup, s: DbbNet, t: VoteTimer, n: DbbState, vote: VoteContent)
    requires t.node < |s.nodes| && OnVoteTimer(t.node, s.nodes[t.node]) == Outcome(n, Some(vote))
    ensures CastVote(u, s, t) ==
      s.(nodes := s.nodes[t.node := n],
         votes := s.votes + Broadcast(u.c.nodeNum, t.node, s.now, Some(vote)),
         ballots := s.ballots + {Event(t.node, vote.content, t.takenAt)})
  {
  }

  /** Some run gets into a state in which a node's own vote fills its quorum. */
  ghost predicate CanFillItself(u: Setup, j: NodeId, v: Value) {
    exists s, step, s' ::
      && Reachable(u, s) && Next(Silent(u), s, step, s')
      && j < |s.nodes| == |s'.nodes| && FillsItself(u, s, step, s', j, v)
  }
}
