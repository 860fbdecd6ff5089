/** What the runs of 1Δ-BB* guarantee. */
module DeltaBBAgreement {

  import opened Common
  import opened DeltaBB
  import opened Network
  import opened DeltaBBRuns
  import opened DeltaBBVotes
  import opened DeltaBBCertificates

  ghost predicate NodesOneShot(s: DbbNet) {
    forall i :: 0 <= i < |s.nodes| ==> OneShot(s.nodes[i])
  }

  ghost predicate DbbInv(y: System, s: DbbNet) {
    VoteInv(y.u, s) && QuorumInv(y, s) && NodesOneShot(s)
  }

  lemma DbbInvInit(y: System, s: DbbNet)
    requires Init(y.u, s)
    ensures DbbInv(y, s)
  {
    VoteInvInit(y.u, s);
  }

  lemma NodesOneShotNext(y: System, s: DbbNet, step: Step, s': DbbNet)
    requires Next(y, s, step, s') && NodesOneShot(s)
    ensures NodesOneShot(s')
  {
    SameSize(y, s, step, s');
    forall i: nat | i < |s'.nodes|
      ensures OneShot(s'.nodes[i])
    {
      StepCommit(y, s, step, s', i);
    }
  }

  lemma DbbInvNext(y: System, s: DbbNet, step: Step, s': DbbNet)
    requires Next(y, s, step, s') && DbbInv(y, s)
    ensures DbbInv(y, s')
  {
    VoteInvNext(y, s, step, s');
    QuorumInvNext(y, s, step, s');
    NodesOneShotNext(y, s, step, s');
  }

  lemma {:induction false} DbbInvRun(y: System, run: seq<DbbNet>, steps: seq<Step>, k: nat)
    requires IsRun(y, run, steps) && k <= |steps|
    ensures DbbInv(y, run[k])
  {
    if k == 0 {
      DbbInvInit(y, run[0]);
    } else {
      DbbInvRun(y, run, steps, k - 1);
      DbbInvNext(y, run[k - 1], steps[k - 1], run[k - 1 + 1]);
      assert run[k - 1 + 1] == run[k];
    }
  }

  // ----- Votes -----------------------------------------------------------------------------------------------------

  lemma {:induction false} BallotsKept(y: System, run: seq<DbbNet>, steps: seq<Step>, k: nat, l: nat)
    requires IsRun(y, run, steps) && k <= l <= |steps|
    ensures run[k].ballots <= run[l].ballots
  {
    if k < l {
      BallotsKept(y, run, steps, k, l - 1);
      NextVotes(y, run[l - 1], steps[l - 1], run[l - 1 + 1]);
    }
  }

  /** In a run no two active nodes other than the view node vote for different values, whatever the others, and the
      view node, send. */
  lemma VoteAgreement(y: System, run: seq<DbbNet>, steps: seq<Step>, k: nat, l: nat, a: Event, b: Event)
    requires IsRun(y, run, steps) && k <= |steps| && l <= |steps|
    requires a in run[k].ballots && b in run[l].ballots && a.node != VIEW && b.node != VIEW
    ensures a.value == b.value && a.node in y.u.active && b.node in y.u.active
  {
    var m := if k < l then l else k;
    BallotsKept(y, run, steps, k, m);
    BallotsKept(y, run, steps, l, m);
    DbbInvRun(y, run, steps, m);
    VotesAgree(y.u, run[m], a, b);
    assert Founded(y.u, run[m], a) && Founded(y.u, run[m], b);
  }

  // ----- Certificates ----------------------------------------------------------------------------------------------

  /** With fewer than a quorum of nodes that need not follow the vote rule, at most one value is ever certified. */
  lemma CertificateUniqueness(y: System, run: seq<DbbNet>, steps: seq<Step>, k: nat, l: nat, i: NodeId, j: NodeId,
                              v: Value, w: Value)
    requires IsRun(y, run, steps) && k <= |steps| && l <= |steps| && |Deviators(y)| < y.u.c.Quorum()
    requires i < |run[k].nodes| && v in run[k].nodes[i].qcMap
    requires j < |run[l].nodes| && w in run[l].nodes[j].qcMap
    ensures v == w
  {
    DbbInvRun(y, run, steps, k);
    DbbInvRun(y, run, steps, l);
    var a := HonestVoteBehind(y, run[k], i, v);
    var b := HonestVoteBehind(y, run[l], j, w);
    VoteAgreement(y, run, steps, k, l, a, b);
  }

  // ----- Commit point 1 --------------------------------------------------------------------------------------------

  lemma RunSize(y: System, run: seq<DbbNet>, steps: seq<Step>, k: nat)
    requires IsRun(y, run, steps) && k <= |steps|
    ensures |run[k].nodes| == y.u.c.nodeNum
  {
    DbbInvRun(y, run, steps, k);
  }

  /** Always: the certified values are the blocked values, the channel never overflows, and a commit is of a certified
      value. */
  lemma CommitPoint1(y: System, run: seq<DbbNet>, steps: seq<Step>, k: nat, i: NodeId)
    requires IsRun(y, run, steps) && k <= |steps| && i < y.u.c.nodeNum
    ensures |run[k].nodes| == y.u.c.nodeNum && OneShot(run[k].nodes[i])
  {
    DbbInvRun(y, run, steps, k);
  }

  lemma RunCommit(y: System, run: seq<DbbNet>, steps: seq<Step>, k: nat, i: NodeId)
    requires IsRun(y, run, steps) && k < |steps| && i < y.u.c.nodeNum
    ensures |run[k].nodes| == |run[k + 1].nodes| == y.u.c.nodeNum
    ensures CommitKept(run[k].nodes[i], run[k + 1].nodes[i])
  {
    RunSize(y, run, steps, k);
    RunSize(y, run, steps, k + 1);
    CommitPoint1(y, run, steps, k, i);
    StepCommit(y, run[k], steps[k], run[k + 1], i);
  }

  /** Once a node has committed at point 1 its value stands, also past the last timer. */
  lemma {:induction false} CommitFixed(y: System, run: seq<DbbNet>, steps: seq<Step>, k: nat, l: nat, i: NodeId)
    requires IsRun(y, run, steps) && k <= l <= |steps| && i < y.u.c.nodeNum
    requires |run[k].nodes| == y.u.c.nodeNum && run[k].nodes[i].isCommit
    ensures |run[l].nodes| == y.u.c.nodeNum
    ensures run[l].nodes[i].isCommit && run[l].nodes[i].commitValue == run[k].nodes[i].commitValue
  {
    if k < l {
      CommitFixed(y, run, steps, k, l - 1, i);
      RunCommit(y, run, steps, l - 1, i);
      assert run[l - 1 + 1] == run[l];
    }
  }

  /** Step k sends the trigger of node i. */
  ghost predicate SendsTrigger(run: seq<DbbNet>, k: nat, i: NodeId) {
    && k + 1 < |run| && i < |run[k].nodes| && i < |run[k + 1].nodes|
    && run[k].nodes[i].trigger < run[k + 1].nodes[i].trigger
  }

  /** The trigger is sent at most once, and never has to wait for the channel. */
  lemma TriggerSentOnce(y: System, run: seq<DbbNet>, steps: seq<Step>, k: nat, l: nat, i: NodeId)
    requires IsRun(y, run, steps) && i < y.u.c.nodeNum && SendsTrigger(run, k, i) && SendsTrigger(run, l, i)
    ensures k == l && run[k].nodes[i].trigger < TRIGGER_CAPACITY
  {
    var a, b := if k < l then k else l, if k < l then l else k;
    RunCommit(y, run, steps, a, i);
    RunCommit(y, run, steps, b, i);
    if a < b {
      CommitFixed(y, run, steps, a + 1, b, i);
    }
  }

  // ----- No step leaves the states in which the next one makes sense -----------------------------------------------

  lemma TypedTakeIn(u: Setup, s: DbbNet, i: NodeId, req: Request)
    requires Typed(u, s) && i in u.active
    ensures Typed(u, TakeIn(u, s, i, req))
  {
  }

  lemma TypedCountVote(u: Setup, s: DbbNet, i: NodeId, vote: VoteContent)
    requires Typed(u, s) && i in u.active
    ensures Typed(u, CountVote(u, s, i, vote))
  {
  }

  lemma TypedTakeList(u: Setup, s: DbbNet, i: NodeId, m: InputList)
    requires Typed(u, s) && i in u.active && Readable(u.c, s.now, m)
    ensures Typed(u, TakeList(u, s, i, m))
  {
    var (o, later) := OnForward2(u.c, s.now, i, s.nodes[i], m);
    assert o.sent.Some? ==> |o.sent.value.sigs| > 0;
    assert later.Some? ==> |later.value.sigs| > 0;
  }

  lemma TypedCastVote(u: Setup, s: DbbNet, t: VoteTimer)
    requires Typed(u, s) && t.node in u.active
    ensures Typed(u, CastVote(u, s, t))
  {
  }

  lemma TypedStartBA(u: Setup, s: DbbNet, i: NodeId)
    requires Typed(u, s) && i in u.active
    ensures Typed(u, StartBA(u, s, i))
  {
  }

  lemma TypedLearns(u: Setup, s: DbbNet, step: Step, s': DbbNet)
    requires Typed(u, s) && Arrives(u, s, step, s') && (step.Propose? || step.Forward1?)
    ensures Typed(u, s')
  {
    if step.Propose? && step.q.dst in u.active {
      TypedTakeIn(u, s.(proposals := s.proposals - multiset{step.q}), step.q.dst, step.q.req);
    }
  }

  lemma TypedCounts(u: Setup, s: DbbNet, p: Packet<VoteContent>, s': DbbNet)
    requires Typed(u, s) && Arrives(u, s, Vote(p), s')
    ensures Typed(u, s')
  {
    if p.dst in u.active {
      TypedCountVote(u, s.(votes := s.votes - multiset{p}), p.dst, p.msg);
    }
  }

  lemma TypedLists(u: Setup, s: DbbNet, l: Packet<InputList>, s': DbbNet)
    requires Typed(u, s) && Arrives(u, s, Forward2(l), s')
    ensures Typed(u, s')
  {
    if l.dst in u.active {
      TypedTakeList(u, s.(forward2s := s.forward2s - multiset{l}), l.dst, l.msg);
    }
  }

  lemma TypedArrives(u: Setup, s: DbbNet, step: Step, s': DbbNet)
    requires Typed(u, s) && Arrives(u, s, step, s')
    ensures Typed(u, s')
  {
    match step
    case Vote(p) => TypedCounts(u, s, p, s');
    case Forward2(l) => TypedLists(u, s, l, s');
    case _ => TypedLearns(u, s, step, s');
  }

  lemma TypedFires(u: Setup, s: DbbNet, step: Step, s': DbbNet)
    requires Typed(u, s) && Fires(u, s, step, s') && (step.FireWaiting? ==> step.w in s.waiting)
    ensures Typed(u, s')
  {
    match step
    case FireVote(t) => TypedCastVote(u, s.(voteTimers := s.voteTimers - multiset{t}), t);
    case FireBA(i) => TypedStartBA(u, s, i);
    case _ =>
  }

  lemma TypedInjects(u: Setup, s: DbbNet, step: Step, s': DbbNet)
    requires Typed(u, s) && Injects(u, s, step, s')
    ensures Typed(u, s')
  {
    match step
    case InjectProposal(dst, req) => TypedTakeIn(u, s, dst, req);
    case InjectForward1(_, _) =>
    case InjectVote(dst, vote) => TypedCountVote(u, s, dst, vote);
    case InjectForward2(dst, list) => TypedTakeList(u, s, dst, list);
  }

  lemma TypedNext(y: System, s: DbbNet, step: Step, s': DbbNet)
    requires Next(y, s, step, s')
    ensures Typed(y.u, s')
  {
    if Arrives(y.u, s, step, s') {
      TypedArrives(y.u, s, step, s');
    } else if Fires(y.u, s, step, s') {
      TypedFires(y.u, s, step, s');
    } else {
      TypedInjects(y.u, s, step, s');
    }
  }
}
