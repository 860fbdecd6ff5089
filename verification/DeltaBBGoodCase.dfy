/** 1Δ-BB* with an honest view node and silent faulty nodes: who commits at point 1. */
module DeltaBBGoodCase {

  import opened Common
  import opened DeltaBB
  import opened Network
  import opened DeltaBBRuns
  import opened DeltaBBVotes
  import opened DeltaBBCertificates
  import opened DeltaBBAgreement
  import opened DeltaBBPoint1

  function Silent(u: Setup): System {
    System(u, false)
  }

  // ----- Everything is about the one proposal, and on time ---------------------------------------------------------

  ghost predicate Early(u: Setup, s: DbbNet) {
    && (forall q :: q in s.proposals ==> q in u.sent && s.now < u.c.tickInterval)
    && (forall t :: t in s.voteTimers ==> t.takenAt < u.c.tickInterval && s.now <= t.takenAt + u.c.tickInterval)
    && (forall b :: b in s.ballots ==> b.at < u.c.tickInterval)
    && (forall p :: p in s.votes ==>
        p.sentAt < 2 * u.c.tickInterval && p.sentAt <= s.now < p.sentAt + u.c.tickInterval)
  }

  ghost predicate Only(s: DbbNet, v: Value) {
    && (forall f :: f in s.forward1s ==> f.msg.content == v)
    && (forall j :: 0 <= j < |s.nodes| ==> s.nodes[j].proposeSet <= {v})
    && (forall p :: p in s.votes ==> p.msg.content == v)
  }

  /** Node i has its proposal coming, or its vote timer running, or has voted for v. */
  ghost predicate Underway(s: DbbNet, i: NodeId, v: Value) {
    || (exists q :: q in s.proposals && q.dst == i)
    || (exists t :: t in s.voteTimers && t.node == i)
    || (exists at :: Event(i, v, at) in s.ballots)
  }

  /** The vote of node i is counted by node j or on its way to it. */
  ghost predicate Reaches(s: DbbNet, i: NodeId, j: NodeId, v: Value)
    requires j < |s.nodes|
  {
    || Single(i, v) in SignedFor(s, j, v)
    || exists p :: p in s.votes && p.dst == j && p.msg.content == v && p.msg.sig == Single(i, v)
  }

  ghost predicate AllReach(u: Setup, s: DbbNet, v: Value) {
    forall b, j {:trigger Reaches(s, b.node, j, v)} ::
      b in s.ballots && j in u.active && j < |s.nodes| ==> Reaches(s, b.node, j, v)
  }

  ghost predicate AllUnderway(u: Setup, s: DbbNet, v: Value) {
    forall i {:trigger Underway(s, i, v)} :: i in u.active ==> Underway(s, i, v)
  }

  ghost predicate GoodInv(u: Setup, s: DbbNet, v: Value) {
    Typed(u, s) && Early(u, s) && Only(s, v) && AllUnderway(u, s, v) && AllReach(u, s, v)
  }

  lemma GoodInvInit(u: Setup, s: DbbNet, v: Value)
    requires Init(u, s) && u.HonestView(v)
    ensures GoodInv(u, s, v)
  {
  }

  // ----- A proposal is taken in ------------------------------------------------------------------------------------

  lemma ProposeChanges(u: Setup, s: DbbNet, q: Proposal, s': DbbNet)
    requires Typed(u, s) && q in s.proposals && Arrives(u, s, Propose(q), s')
    ensures |s'.nodes| == |s.nodes| && s'.now == s.now && s'.ballots == s.ballots && s'.votes == s.votes
    ensures s'.proposals == s.proposals - multiset{q}
    ensures s'.voteTimers ==
      s.voteTimers + if q.dst in u.active then multiset{VoteTimer(q.dst, s.now)} else multiset{}
    ensures forall f :: f in s'.forward1s ==> f in s.forward1s || f.msg == q.req
  {
  }

  lemma ProposeSees(u: Setup, s: DbbNet, q: Proposal, s': DbbNet)
    requires Typed(u, s) && q in s.proposals && Arrives(u, s, Propose(q), s')
    ensures |s'.nodes| == |s.nodes|
    ensures forall j :: 0 <= j < |s.nodes| ==> s'.nodes[j].voteMap == s.nodes[j].voteMap
    ensures forall j :: 0 <= j < |s.nodes| ==> s'.nodes[j].proposeSet <= s.nodes[j].proposeSet + {q.req.content}
  {
  }

  lemma ProposeUnderway(u: Setup, s: DbbNet, q: Proposal, s': DbbNet, v: Value)
    requires Typed(u, s) && AllUnderway(u, s, v) && q in s.proposals && Arrives(u, s, Propose(q), s')
    ensures AllUnderway(u, s', v)
  {
    forall i | i in u.active
      ensures Underway(s', i, v)
    {
      assert Underway(s, i, v);
      if i == q.dst {
        assert VoteTimer(i, s.now) in s'.voteTimers;
      } else if r :| r in s.proposals && r.dst == i {
        assert r in s'.proposals;
      } else if t :| t in s.voteTimers && t.node == i {
        assert t in s'.voteTimers;
      }
    }
  }

  lemma SameReach(u: Setup, s: DbbNet, s': DbbNet, v: Value)
    requires AllReach(u, s, v) && s'.ballots == s.ballots && s'.votes == s.votes && |s'.nodes| == |s.nodes|
    requires forall j :: 0 <= j < |s.nodes| ==> s'.nodes[j].voteMap == s.nodes[j].voteMap
    ensures AllReach(u, s', v)
  {
    forall b, j | b in s'.ballots && j in u.active && j < |s'.nodes|
      ensures Reaches(s', b.node, j, v)
    {
      assert Reaches(s, b.node, j, v);
    }
  }

  // ----- A node votes ----------------------------------------------------------------------------------------------

  lemma TimerSeesOne(u: Setup, s: DbbNet, t: VoteTimer, v: Value)
    requires VoteInv(u, s) && Only(s, v) && t in s.voteTimers
    ensures t.node in u.active && t.node < |s.nodes| && s.nodes[t.node].proposeSet == {v}
  {
  }

  lemma VotingChanges(u: Setup, s: DbbNet, t: VoteTimer, s': DbbNet, v: Value)
    requires Typed(u, s) && t in s.voteTimers && Fires(u, s, FireVote(t), s')
    requires t.node < |s.nodes| && s.nodes[t.node].proposeSet == {v}
    ensures |s'.nodes| == |s.nodes| && s'.now == s.now && s'.proposals == s.proposals && s'.forward1s == s.forward1s
    ensures s'.voteTimers == s.voteTimers - multiset{t}
    ensures s'.ballots == s.ballots + {Event(t.node, v, t.takenAt)}
    ensures s'.votes == s.votes
      + Broadcast(u.c.nodeNum, t.node, s.now, Some(VoteContent(t.node, v, Single(t.node, v))))
  {
    assert |{v}| == 1;
  }

  lemma VotingCounts(u: Setup, s: DbbNet, t: VoteTimer, s': DbbNet, v: Value)
    requires Typed(u, s) && t in s.voteTimers && Fires(u, s, FireVote(t), s')
    requires t.node < |s.nodes| && s.nodes[t.node].proposeSet == {v}
    ensures |s'.nodes| == |s.nodes|
    ensures forall j :: 0 <= j < |s.nodes| ==> s'.nodes[j].proposeSet == s.nodes[j].proposeSet
    ensures forall j :: 0 <= j < |s.nodes| ==>
      SignedFor(s', j, v) == SignedFor(s, j, v) + if j == t.node then {Single(j, v)} else {}
  {
    assert |{v}| == 1;
  }

  lemma VotingOnTime(u: Setup, s: DbbNet, t: VoteTimer, s': DbbNet, v: Value)
    requires Typed(u, s) && Early(u, s) && Only(s, v) && t in s.voteTimers && t.takenAt + u.c.tickInterval <= s.now
    requires s'.now == s.now && s'.proposals == s.proposals && s'.voteTimers == s.voteTimers - multiset{t}
    requires s'.ballots == s.ballots + {Event(t.node, v, t.takenAt)}
    requires s'.votes == s.votes
      + Broadcast(u.c.nodeNum, t.node, s.now, Some(VoteContent(t.node, v, Single(t.node, v))))
    ensures Early(u, s')
    ensures forall p :: p in s'.votes ==> p.msg.content == v
  {
  }

  lemma VotingKept(u: Setup, s: DbbNet, t: VoteTimer, s': DbbNet, v: Value)
    requires VoteInv(u, s) && GoodInv(u, s, v) && t in s.voteTimers && t.takenAt + u.c.tickInterval <= s.now
    requires Fires(u, s, FireVote(t), s')
    ensures Early(u, s') && Only(s', v) && AllUnderway(u, s', v) && AllReach(u, s', v)
  {
    TimerSeesOne(u, s, t, v);
    VotingChanges(u, s, t, s', v);
    VotingCounts(u, s, t, s', v);
    VotingOnTime(u, s, t, s', v);
    VotedUnderway(u, s, t, s', v);
    VotedReaches(u, s, t, s', v);
  }

  lemma VotedUnderway(u: Setup, s: DbbNet, t: VoteTimer, s': DbbNet, v: Value)
    requires AllUnderway(u, s, v) && s'.proposals == s.proposals && s'.voteTimers == s.voteTimers - multiset{t}
    requires s'.ballots == s.ballots + {Event(t.node, v, t.takenAt)}
    ensures AllUnderway(u, s', v)
  {
    forall i | i in u.active
      ensures Underway(s', i, v)
    {
      assert Underway(s, i, v);
      if i == t.node {
        assert Event(i, v, t.takenAt) in s'.ballots;
      } else if r :| r in s.voteTimers && r.node == i {
        assert r in s'.voteTimers;
      } else if at :| Event(i, v, at) in s.ballots {
        assert Event(i, v, at) in s'.ballots;
      }
    }
  }

  lemma VotedReaches(u: Setup, s: DbbNet, t: VoteTimer, s': DbbNet, v: Value)
    requires u.Valid() && AllReach(u, s, v) && |s'.nodes| == |s.nodes| == u.c.nodeNum
    requires s'.ballots == s.ballots + {Event(t.node, v, t.takenAt)}
    requires s'.votes == s.votes
      + Broadcast(u.c.nodeNum, t.node, s.now, Some(VoteContent(t.node, v, Single(t.node, v))))
    requires forall j :: 0 <= j < |s.nodes| ==>
      SignedFor(s', j, v) == SignedFor(s, j, v) + if j == t.node then {Single(j, v)} else {}
    ensures AllReach(u, s', v)
  {
    forall b, j | b in s'.ballots && j in u.active && j < |s'.nodes|
      ensures Reaches(s', b.node, j, v)
    {
      if b in s.ballots {
        assert Reaches(s, b.node, j, v);
        if Single(b.node, v) !in SignedFor(s, j, v) {
          var p :| p in s.votes && p.dst == j && p.msg.content == v && p.msg.sig == Single(b.node, v);
          assert p in s'.votes;
        }
      } else if j != t.node {
        assert Packet(j, VoteContent(t.node, v, Single(t.node, v)), s.now) in s'.votes;
      }
    }
  }

  // ----- A vote arrives --------------------------------------------------------------------------------------------

  lemma VoteArrives(u: Setup, s: DbbNet, p: Packet<VoteContent>, s': DbbNet, v: Value)
    requires Typed(u, s) && p in s.votes && Arrives(u, s, Vote(p), s') && p.msg.content == v
    ensures |s'.nodes| == |s.nodes| && s'.now == s.now && s'.proposals == s.proposals && s'.forward1s == s.forward1s
    ensures s'.voteTimers == s.voteTimers && s'.ballots == s.ballots && s'.votes == s.votes - multiset{p}
    ensures forall j :: 0 <= j < |s.nodes| ==> s'.nodes[j].proposeSet == s.nodes[j].proposeSet
    ensures forall j :: 0 <= j < |s.nodes| ==>
      SignedFor(s', j, v) == SignedFor(s, j, v) + if j == p.dst && j in u.active then {p.msg.sig} else {}
  {
    if p.dst in u.active {
      CountVoteKeeps(u, s.(votes := s.votes - multiset{p}), p.dst, p.msg);
      VoteSigns(u.c, s.now, s.nodes[p.dst], p.msg, v);
    }
  }

  lemma ArrivedReaches(u: Setup, s: DbbNet, p: Packet<VoteContent>, s': DbbNet, v: Value)
    requires AllReach(u, s, v) && |s'.nodes| == |s.nodes| && s'.ballots == s.ballots
    requires p in s.votes && s'.votes == s.votes - multiset{p}
    requires forall j :: 0 <= j < |s.nodes| ==>
      SignedFor(s', j, v) == SignedFor(s, j, v) + if j == p.dst && j in u.active then {p.msg.sig} else {}
    ensures AllReach(u, s', v)
  {
    forall b, j | b in s'.ballots && j in u.active && j < |s'.nodes|
      ensures Reaches(s', b.node, j, v)
    {
      assert Reaches(s, b.node, j, v);
      if Single(b.node, v) !in SignedFor(s', j, v) {
        var r :| r in s.votes && r.dst == j && r.msg.content == v && r.msg.sig == Single(b.node, v);
        assert r in s'.votes;
      }
    }
  }

  lemma VoteKept(u: Setup, s: DbbNet, p: Packet<VoteContent>, s': DbbNet, v: Value)
    requires GoodInv(u, s, v) && p in s.votes && Arrives(u, s, Vote(p), s')
    ensures Early(u, s') && Only(s', v) && AllUnderway(u, s', v) && AllReach(u, s', v)
  {
    VoteArrives(u, s, p, s', v);
    ArrivedReaches(u, s, p, s', v);
    SameUnderway(u, s, s', v);
  }

  lemma SameUnderway(u: Setup, s: DbbNet, s': DbbNet, v: Value)
    requires AllUnderway(u, s, v)
    requires s'.proposals == s.proposals && s'.voteTimers == s.voteTimers && s'.ballots == s.ballots
    ensures AllUnderway(u, s', v)
  {
    forall i | i in u.active
      ensures Underway(s', i, v)
    {
      assert Underway(s, i, v);
    }
  }

  // ----- Other steps -----------------------------------------------------------------------------------------------

  /** The steps after which proposals, votes and timers are what they were; only the clock may have moved, or a value
      been heard. */
  predicate Aside(step: Step) {
    !step.Propose? && !step.FireVote? && !step.Vote?
  }

  ghost predicate SameVoting(s: DbbNet, s': DbbNet) {
    && s'.proposals == s.proposals && s'.voteTimers == s.voteTimers
    && s'.votes == s.votes && s'.ballots == s.ballots
    && (forall f :: f in s'.forward1s ==> f in s.forward1s)
  }

  lemma ArrivesAside(u: Setup, s: DbbNet, step: Step, s': DbbNet)
    requires Typed(u, s) && Arrives(u, s, step, s') && Aside(step)
    ensures SameVoting(s, s') && s'.now == s.now
  {
  }

  lemma FiresAside(u: Setup, s: DbbNet, step: Step, s': DbbNet)
    requires Typed(u, s) && Fires(u, s, step, s') && Aside(step)
    ensures SameVoting(s, s') && s'.now == s.now + if step.Tick? then 1 else 0
  {
  }

  lemma ListSees(c: Config, elapsed: nat, nid: NodeId, n: DbbState, m: InputList)
    requires c.Valid() && Readable(c, elapsed, m)
    ensures OnForward2(c, elapsed, nid, n, m).0.state.proposeSet == n.proposeSet
  {
  }

  /** A node that hears a forwarded proposal sees its value; otherwise nothing is seen or counted. */
  lemma AsideNode(u: Setup, s: DbbNet, step: Step, s': DbbNet, j: NodeId)
    requires Next(Silent(u), s, step, s') && Aside(step) && j < |s.nodes|
    ensures |s'.nodes| == |s.nodes| && s'.nodes[j].voteMap == s.nodes[j].voteMap
    ensures s'.nodes[j].proposeSet <= s.nodes[j].proposeSet + if step.Forward1? then {step.f.msg.content} else {}
  {
    NodeNext(Silent(u), s, step, s', j);
    AfterSameVotes(u, s, step, j);
    if step.Forward2? {
      ListSees(u.c, s.now, j, s.nodes[j], step.l.msg);
    }
  }

  lemma AsideKept(u: Setup, s: DbbNet, step: Step, s': DbbNet, v: Value)
    requires GoodInv(u, s, v) && Next(Silent(u), s, step, s') && Aside(step)
    ensures Early(u, s') && Only(s', v) && AllUnderway(u, s', v) && AllReach(u, s', v)
  {
    if Arrives(u, s, step, s') {
      ArrivesAside(u, s, step, s');
    } else {
      FiresAside(u, s, step, s');
    }
    if step.Tick? {
      assert MayTick(u, s);
    }
    SameSize(Silent(u), s, step, s');
    forall j: nat | j < |s.nodes|
      ensures s'.nodes[j].voteMap == s.nodes[j].voteMap && s'.nodes[j].proposeSet <= {v}
    {
      AsideNode(u, s, step, s', j);
    }
    SameUnderway(u, s, s', v);
    SameReach(u, s, s', v);
  }

  lemma ProposeKept(u: Setup, s: DbbNet, q: Proposal, s': DbbNet, v: Value)
    requires GoodInv(u, s, v) && q in s.proposals && Arrives(u, s, Propose(q), s') && u.HonestView(v)
    ensures Early(u, s') && Only(s', v) && AllUnderway(u, s', v) && AllReach(u, s', v)
  {
    ProposeChanges(u, s, q, s');
    ProposeSees(u, s, q, s');
    ProposeUnderway(u, s, q, s', v);
    SameReach(u, s, s', v);
  }

  lemma GoodInvNext(u: Setup, s: DbbNet, step: Step, s': DbbNet, v: Value)
    requires Next(Silent(u), s, step, s') && VoteInv(u, s) && GoodInv(u, s, v) && u.HonestView(v)
    ensures GoodInv(u, s', v)
  {
    DeltaBBAgreement.TypedNext(Silent(u), s, step, s');
    if step.Propose? {
      ProposeKept(u, s, step.q, s', v);
    } else if step.FireVote? {
      VotingKept(u, s, step.t, s', v);
    } else if step.Vote? {
      VoteKept(u, s, step.p, s', v);
    } else {
      AsideKept(u, s, step, s', v);
    }
  }

  lemma StepAt(u: Setup, run: seq<DbbNet>, steps: seq<Step>, k: nat)
    requires IsRun(Silent(u), run, steps) && k < |steps|
    ensures Next(Silent(u), run[k], steps[k], run[k + 1]) && VoteInv(u, run[k])
  {
    DbbInvRun(Silent(u), run, steps, k);
  }

  lemma GoodInvStart(u: Setup, run: seq<DbbNet>, steps: seq<Step>, v: Value)
    requires IsRun(Silent(u), run, steps) && u.HonestView(v)
    ensures GoodInv(u, run[0], v)
  {
    GoodInvInit(u, run[0], v);
  }

  lemma GoodInvStep(u: Setup, run: seq<DbbNet>, steps: seq<Step>, k: nat, v: Value)
    requires IsRun(Silent(u), run, steps) && k < |steps| && u.HonestView(v) && GoodInv(u, run[k], v)
    ensures GoodInv(u, run[k + 1], v)
  {
    StepAt(u, run, steps, k);
    GoodInvNext(u, run[k], steps[k], run[k + 1], v);
  }

  lemma {:induction false} GoodInvRun(u: Setup, run: seq<DbbNet>, steps: seq<Step>, k: nat, v: Value)
    requires IsRun(Silent(u), run, steps) && k <= |steps| && u.HonestView(v)
    ensures GoodInv(u, run[k], v)
  {
    if k == 0 {
      GoodInvStart(u, run, steps, v);
    } else {
      GoodInvRun(u, run, steps, k - 1, v);
      GoodInvStep(u, run, steps, k - 1, v);
      assert run[k - 1 + 1] == run[k];
    }
  }

  // ----- By the end of tick 2 all votes are counted ----------------------------------------------------------------

  /** One unit before tick 3 nothing about the proposal is on its way any more, so everybody has everybody's vote. */
  lemma AllCounted(u: Setup, s: DbbNet, j: NodeId, v: Value)
    requires GoodInv(u, s, v) && u.c.At(3) <= s.now + 1 && j in u.active
    ensures SingleSignatures(u.active, v) <= SignedFor(s, j, v) && |u.active| <= |SignedFor(s, j, v)|
  {
    forall sig | sig in SingleSignatures(u.active, v)
      ensures sig in SignedFor(s, j, v)
    {
      assert Underway(s, sig.signer, v);
      var at :| Event(sig.signer, v, at) in s.ballots;
      assert Reaches(s, Event(sig.signer, v, at).node, j, v);
    }
    SingleSignaturesSize(u.active, v);
    SubsetSize(SingleSignatures(u.active, v), SignedFor(s, j, v));
  }

  // ----- Certificates commit ---------------------------------------------------------------------------------------

  /** Only the proposal is ever certified, and its certificate commits it. */
  ghost predicate CertifiedCommits(s: DbbNet, j: NodeId, v: Value)
    requires j < |s.nodes|
  {
    && s.nodes[j].blckSet <= {v}
    && (s.nodes[j].isCommit <==> v in s.nodes[j].qcMap)
    && (s.nodes[j].isCommit ==> s.nodes[j].commitValue == v)
  }

  lemma CertifiedCommitsNext(u: Setup, run: seq<DbbNet>, steps: seq<Step>, k: nat, j: NodeId, v: Value)
    requires IsRun(Silent(u), run, steps) && k < |steps| && u.HonestView(v) && j < u.c.nodeNum
    requires j < |run[k].nodes| && CertifiedCommits(run[k], j, v)
    ensures j < |run[k + 1].nodes| && CertifiedCommits(run[k + 1], j, v)
  {
    var y := Silent(u);
    GoodInvRun(u, run, steps, k, v);
    RunCommit(y, run, steps, k, j);
    CommitPoint1(y, run, steps, k, j);
    var certified := run[k + 1].nodes[j].blckSet;
    forall w | w in certified
      ensures w == v
    {
      OnlyCertified(u, run, steps, k, j, v, w);
    }
    OnlyCertified(u, run, steps, k, j, v, v);
    if v in run[k + 1].nodes[j].qcMap && v !in run[k].nodes[j].qcMap {
      FirstCommits(u, run, steps, k, j, v);
    } else {
      SameCommit(u, run, steps, k, j, v);
    }
  }

  /** What is newly certified is the proposal, before tick 3. */
  lemma OnlyCertified(u: Setup, run: seq<DbbNet>, steps: seq<Step>, k: nat, j: NodeId, v: Value, w: Value)
    requires IsRun(Silent(u), run, steps) && k < |steps| && GoodInv(u, run[k], v)
    requires j < |run[k].nodes| == |run[k + 1].nodes|
    ensures w in run[k + 1].nodes[j].qcMap && w !in run[k].nodes[j].qcMap ==> w == v && run[k].now < u.c.At(3)
  {
    Certifies(Silent(u), run[k], steps[k], run[k + 1], j, w);
  }

  lemma FirstCommits(u: Setup, run: seq<DbbNet>, steps: seq<Step>, k: nat, j: NodeId, v: Value)
    requires IsRun(Silent(u), run, steps) && k < |steps| && j < u.c.nodeNum
    requires |run[k].nodes| == |run[k + 1].nodes| == u.c.nodeNum
    requires run[k].now < u.c.At(3) && run[k].nodes[j].blckSet == {} && run[k + 1].nodes[j].blckSet == {v}
    ensures run[k + 1].nodes[j].isCommit && run[k + 1].nodes[j].commitValue == v
  {
    Point1Exactly(Silent(u), run, steps, k, j, v);
  }

  lemma SameCommit(u: Setup, run: seq<DbbNet>, steps: seq<Step>, k: nat, j: NodeId, v: Value)
    requires IsRun(Silent(u), run, steps) && k < |steps| && j < u.c.nodeNum
    requires |run[k].nodes| == |run[k + 1].nodes| == u.c.nodeNum
    requires OneShot(run[k].nodes[j]) && OneShot(run[k + 1].nodes[j]) && run[k + 1].nodes[j].blckSet <= {v}
    requires v in run[k + 1].nodes[j].qcMap ==> v in run[k].nodes[j].qcMap
    requires CertifiedCommits(run[k], j, v)
    ensures run[k + 1].nodes[j].isCommit ==> v in run[k + 1].nodes[j].qcMap && run[k + 1].nodes[j].commitValue == v
  {
  }

  lemma {:induction false} CertifiedCommitsRun(u: Setup, run: seq<DbbNet>, steps: seq<Step>, k: nat, j: NodeId,
                                               v: Value)
    requires IsRun(Silent(u), run, steps) && k <= |steps| && u.HonestView(v) && j < u.c.nodeNum
    ensures j < |run[k].nodes| && CertifiedCommits(run[k], j, v)
  {
    RunSize(Silent(u), run, steps, k);
    if k > 0 {
      CertifiedCommitsRun(u, run, steps, k - 1, j, v);
      CertifiedCommitsNext(u, run, steps, k - 1, j, v);
      assert run[k - 1 + 1] == run[k];
    }
  }

  /** With a quorum of active nodes, every one of them commits the proposal at point 1 before tick 3, unless its own
      vote was the last of the quorum. */
  lemma CommitsOrFillsItself(u: Setup, run: seq<DbbNet>, steps: seq<Step>, k: nat, j: NodeId, v: Value)
    requires IsRun(Silent(u), run, steps) && k <= |steps| && u.HonestView(v) && j in u.active
    requires 1 <= u.c.Quorum() <= |u.active| && u.c.At(3) <= run[k].now + 1
    ensures |run[k].nodes| == u.c.nodeNum && j < u.c.nodeNum
    ensures (run[k].nodes[j].isCommit && run[k].nodes[j].commitValue == v)
      || exists m: nat :: m < k && FillsItselfIn(u, run, steps, m, j, v)
  {
    GoodInvRun(u, run, steps, k, v);
    AllCounted(u, run[k], j, v);
    CertifiedCommitsRun(u, run, steps, k, j, v);
    FullOrItself(Silent(u), run, steps, k, j, v);
  }

  // ----- With one proposal for everybody every vote is cast once ---------------------------------------------------

  /** Nobody gets two proposals. */
  ghost predicate OneEach(u: Setup) {
    && (forall q :: q in u.sent ==> u.sent[q] == 1)
    && (forall q, r :: q in u.sent && r in u.sent && q.dst == r.dst ==> q == r)
  }

  /** A node has its proposal coming, or its vote timer running, or has voted. */
  ghost predicate OnceTimers(u: Setup, s: DbbNet) {
    && s.proposals <= u.sent
    && (forall t :: t in s.voteTimers ==> s.voteTimers[t] == 1)
    && (forall t, r :: t in s.voteTimers && r in s.voteTimers && t.node == r.node ==> t == r)
    && (forall t, q :: t in s.voteTimers && q in s.proposals ==> t.node != q.dst)
    && (forall b, q :: b in s.ballots && q in s.proposals ==> b.node != q.dst)
    && (forall b, t :: b in s.ballots && t in s.voteTimers ==> b.node != t.node)
  }

  /** A vote on its way is the only copy for its receiver, who has not counted it yet. */
  ghost predicate OnceVotes(s: DbbNet, v: Value) {
    && (forall p :: p in s.votes ==> s.votes[p] == 1)
    && (forall p, r :: p in s.votes && r in s.votes && p.dst == r.dst && p.msg.sig == r.msg.sig ==> p == r)
    && (forall p :: p in s.votes && p.dst < |s.nodes| ==> p.msg.sig !in SignedFor(s, p.dst, v))
  }

  lemma OnceInit(u: Setup, s: DbbNet, v: Value)
    requires Init(u, s)
    ensures OnceTimers(u, s) && OnceVotes(s, v)
  {
  }

  lemma LastCopy(u: Setup, s: DbbNet, q: Proposal)
    requires OneEach(u) && s.proposals <= u.sent && q in s.proposals
    ensures forall r :: r in s.proposals - multiset{q} ==> r in s.proposals && r.dst != q.dst
  {
    assert s.proposals[q] <= u.sent[q];
    forall r | r in s.proposals - multiset{q}
      ensures r in s.proposals && r.dst != q.dst
    {
      assert r in u.sent && q in u.sent;
    }
  }

  lemma OncePropose(u: Setup, s: DbbNet, q: Proposal, s': DbbNet)
    requires OnceTimers(u, s) && OneEach(u) && q in s.proposals
    requires s'.proposals == s.proposals - multiset{q} && s'.ballots == s.ballots
    requires s'.voteTimers ==
      s.voteTimers + if q.dst in u.active then multiset{VoteTimer(q.dst, s.now)} else multiset{}
    ensures OnceTimers(u, s')
  {
    LastCopy(u, s, q);
  }

  lemma OnceVoting(u: Setup, s: DbbNet, t: VoteTimer, s': DbbNet, v: Value)
    requires OnceTimers(u, s) && t in s.voteTimers
    requires s'.proposals == s.proposals && s'.voteTimers == s.voteTimers - multiset{t}
    requires s'.ballots == s.ballots + {Event(t.node, v, t.takenAt)}
    ensures OnceTimers(u, s')
  {
  }

  /** A node that has not voted has no signature anywhere. */
  lemma NoSignature(u: Setup, s: DbbNet, t: VoteTimer, v: Value)
    requires OnceTimers(u, s) && QuorumInv(Silent(u), s) && t in s.voteTimers && t.node in u.active
    ensures forall p :: p in s.votes ==> p.msg.sig != Single(t.node, v)
    ensures forall j :: 0 <= j < |s.nodes| ==> Single(t.node, v) !in SignedFor(s, j, v)
  {
    forall p | p in s.votes
      ensures p.msg.sig != Single(t.node, v)
    {
      assert Genuine(Silent(u), s, p.msg.content, p.msg.sig);
    }
    forall j: nat | j < |s.nodes|
      ensures Single(t.node, v) !in SignedFor(s, j, v)
    {
      assert Single(t.node, v) in SignedFor(s, j, v) ==> Genuine(Silent(u), s, v, Single(t.node, v));
    }
  }

  lemma BroadcastOnce(n: nat, src: NodeId, now: nat, vote: VoteContent)
    ensures forall p :: p in Broadcast(n, src, now, Some(vote)) ==>
      p.dst != src && p.msg == vote && p.sentAt == now && Broadcast(n, src, now, Some(vote))[p] == 1
  {
  }

  /** New votes on their way, one for each receiver, with a signature that was nowhere before. */
  lemma OnceSent(votes: multiset<Packet<VoteContent>>, news: multiset<Packet<VoteContent>>, sig: Signature)
    requires forall p :: p in votes ==> votes[p] == 1 && p.msg.sig != sig
    requires forall p, r :: p in votes && r in votes && p.dst == r.dst && p.msg.sig == r.msg.sig ==> p == r
    requires forall p :: p in news ==> news[p] == 1 && p.msg.sig == sig
    requires forall p, r :: p in news && r in news && p.dst == r.dst ==> p == r
    ensures forall p :: p in votes + news ==> (votes + news)[p] == 1
    ensures forall p, r :: p in votes + news && r in votes + news && p.dst == r.dst && p.msg.sig == r.msg.sig ==> p == r
  {
  }

  lemma StillUncounted(s: DbbNet, s': DbbNet, i: NodeId, news: multiset<Packet<VoteContent>>, v: Value)
    requires |s'.nodes| == |s.nodes| && s'.votes == s.votes + news
    requires forall p :: p in s.votes ==> p.msg.sig != Single(i, v)
    requires forall p :: p in s.votes && p.dst < |s.nodes| ==> p.msg.sig !in SignedFor(s, p.dst, v)
    requires forall p :: p in news ==> p.dst != i && p.msg.sig == Single(i, v)
    requires forall j :: 0 <= j < |s.nodes| ==> Single(i, v) !in SignedFor(s, j, v)
    requires forall j :: 0 <= j < |s.nodes| ==>
      SignedFor(s', j, v) == SignedFor(s, j, v) + if j == i then {Single(j, v)} else {}
    ensures forall p :: p in s'.votes && p.dst < |s'.nodes| ==> p.msg.sig !in SignedFor(s', p.dst, v)
  {
  }

  lemma OnceCast(u: Setup, s: DbbNet, t: VoteTimer, s': DbbNet, v: Value)
    requires OnceVotes(s, v) && |s'.nodes| == |s.nodes|
    requires forall p :: p in s.votes ==> p.msg.sig != Single(t.node, v)
    requires forall j :: 0 <= j < |s.nodes| ==> Single(t.node, v) !in SignedFor(s, j, v)
    requires s'.votes == s.votes
      + Broadcast(u.c.nodeNum, t.node, s.now, Some(VoteContent(t.node, v, Single(t.node, v))))
    requires forall j :: 0 <= j < |s.nodes| ==>
      SignedFor(s', j, v) == SignedFor(s, j, v) + if j == t.node then {Single(j, v)} else {}
    ensures OnceVotes(s', v)
  {
    var news := Broadcast(u.c.nodeNum, t.node, s.now, Some(VoteContent(t.node, v, Single(t.node, v))));
    BroadcastOnce(u.c.nodeNum, t.node, s.now, VoteContent(t.node, v, Single(t.node, v)));
    StillUncounted(s, s', t.node, news, v);
    OnceSent(s.votes, news, Single(t.node, v));
  }

  lemma OnceArrives(u: Setup, s: DbbNet, p: Packet<VoteContent>, s': DbbNet, v: Value)
    requires OnceVotes(s, v) && p in s.votes && s'.votes == s.votes - multiset{p} && |s'.nodes| == |s.nodes|
    requires forall j :: 0 <= j < |s.nodes| ==>
      SignedFor(s', j, v) == SignedFor(s, j, v) + if j == p.dst && j in u.active then {p.msg.sig} else {}
    ensures OnceVotes(s', v)
  {
    assert p !in s'.votes;
  }

  ghost predicate OnceInv(u: Setup, s: DbbNet, v: Value) {
    OnceTimers(u, s) && OnceVotes(s, v)
  }

  lemma OnceFires(u: Setup, s: DbbNet, t: VoteTimer, s': DbbNet, v: Value)
    requires DbbInv(Silent(u), s) && GoodInv(u, s, v) && OnceInv(u, s, v)
    requires t in s.voteTimers && Fires(u, s, FireVote(t), s')
    ensures OnceInv(u, s', v)
  {
    TimerSeesOne(u, s, t, v);
    VotingChanges(u, s, t, s', v);
    VotingCounts(u, s, t, s', v);
    OnceVoting(u, s, t, s', v);
    NoSignature(u, s, t, v);
    OnceCast(u, s, t, s', v);
  }

  lemma OnceAside(u: Setup, s: DbbNet, step: Step, s': DbbNet, v: Value)
    requires Next(Silent(u), s, step, s') && Aside(step) && OnceInv(u, s, v)
    ensures OnceInv(u, s', v)
  {
    if Arrives(u, s, step, s') {
      ArrivesAside(u, s, step, s');
    } else {
      FiresAside(u, s, step, s');
    }
    SameSize(Silent(u), s, step, s');
    forall j: nat | j < |s.nodes|
      ensures s'.nodes[j].voteMap == s.nodes[j].voteMap
    {
      AsideNode(u, s, step, s', j);
    }
    SameOnce(u, s, s', v);
  }

  lemma SameOnce(u: Setup, s: DbbNet, s': DbbNet, v: Value)
    requires OnceInv(u, s, v) && SameVoting(s, s') && |s'.nodes| == |s.nodes|
    requires forall j :: 0 <= j < |s.nodes| ==> s'.nodes[j].voteMap == s.nodes[j].voteMap
    ensures OnceInv(u, s', v)
  {
  }

  lemma OnceNext(u: Setup, s: DbbNet, step: Step, s': DbbNet, v: Value)
    requires Next(Silent(u), s, step, s') && DbbInv(Silent(u), s) && GoodInv(u, s, v) && OnceInv(u, s, v) && OneEach(u)
    ensures OnceInv(u, s', v)
  {
    if step.Propose? {
      ProposeChanges(u, s, step.q, s');
      OncePropose(u, s, step.q, s');
      ProposeSees(u, s, step.q, s');
    } else if step.FireVote? {
      OnceFires(u, s, step.t, s', v);
    } else if step.Vote? {
      VoteArrives(u, s, step.p, s', v);
      OnceArrives(u, s, step.p, s', v);
    } else {
      OnceAside(u, s, step, s', v);
    }
  }

  lemma OnceStep(u: Setup, run: seq<DbbNet>, steps: seq<Step>, k: nat, v: Value)
    requires IsRun(Silent(u), run, steps) && k < |steps| && u.HonestView(v) && OneEach(u) && OnceInv(u, run[k], v)
    ensures OnceInv(u, run[k + 1], v)
  {
    DbbInvRun(Silent(u), run, steps, k);
    GoodInvRun(u, run, steps, k, v);
    OnceNext(u, run[k], steps[k], run[k + 1], v);
  }

  lemma OnceStart(u: Setup, run: seq<DbbNet>, steps: seq<Step>, v: Value)
    requires IsRun(Silent(u), run, steps)
    ensures OnceInv(u, run[0], v)
  {
    OnceInit(u, run[0], v);
  }

  lemma {:induction false} OnceRun(u: Setup, run: seq<DbbNet>, steps: seq<Step>, k: nat, v: Value)
    requires IsRun(Silent(u), run, steps) && k <= |steps| && u.HonestView(v) && OneEach(u)
    ensures OnceInv(u, run[k], v)
  {
    if k == 0 {
      OnceStart(u, run, steps, v);
    } else {
      OnceRun(u, run, steps, k - 1, v);
      OnceStep(u, run, steps, k - 1, v);
      assert run[k - 1 + 1] == run[k];
    }
  }

  // ----- Who commits, exactly --------------------------------------------------------------------------------------

  lemma {:induction false} SignedGrows(u: Setup, run: seq<DbbNet>, steps: seq<Step>, k: nat, l: nat, j: NodeId,
                                       v: Value)
    requires IsRun(Silent(u), run, steps) && k <= l <= |steps| && j < u.c.nodeNum
    ensures |run[k].nodes| == |run[l].nodes| == u.c.nodeNum
    ensures |SignedFor(run[k], j, v)| <= |SignedFor(run[l], j, v)|
  {
    RunSize(Silent(u), run, steps, k);
    RunSize(Silent(u), run, steps, l);
    if k < l {
      SignedGrows(u, run, steps, k, l - 1, j, v);
      FillsUp(Silent(u), run, steps, l - 1, j, v);
      assert run[l - 1 + 1] == run[l];
    }
  }

  function Count(run: seq<DbbNet>, k: nat, j: NodeId, v: Value): nat {
    if k < |run| && j < |run[k].nodes| then |SignedFor(run[k], j, v)| else 0
  }

  lemma ItselfAdds(u: Setup, run: seq<DbbNet>, steps: seq<Step>, l: nat, m: nat, j: NodeId, v: Value)
    requires FillsIn(u, run, steps, l, j, v) && FillsItselfIn(u, run, steps, m, j, v)
    ensures l != m && Count(run, m, j, v) < u.c.Quorum() == Count(run, m + 1, j, v) == Count(run, l + 1, j, v)
  {
  }

  lemma CountGrows(u: Setup, run: seq<DbbNet>, steps: seq<Step>, k: nat, l: nat, j: NodeId, v: Value)
    requires IsRun(Silent(u), run, steps) && k <= l <= |steps| && j < u.c.nodeNum
    ensures Count(run, k, j, v) <= Count(run, l, j, v)
  {
    SignedGrows(u, run, steps, k, l, j, v);
  }

  lemma FreshVote(u: Setup, s: DbbNet, step: Step, s': DbbNet, j: NodeId, v: Value)
    requires Next(Silent(u), s, step, s') && OnceVotes(s, v)
    requires j < |s.nodes| == |s'.nodes| && Fills(u, s, step, s', j, v)
    ensures |SignedFor(s, j, v)| == u.c.Quorum() - 1
  {
    Counts(Silent(u), s, step, s', j, v);
    assert step.Vote? && step.p in s.votes;
  }

  /** A delivery that fills the quorum finds one signature less. */
  lemma DeliveryAdds(u: Setup, run: seq<DbbNet>, steps: seq<Step>, m: nat, j: NodeId, v: Value)
    requires IsRun(Silent(u), run, steps) && u.HonestView(v) && OneEach(u) && FillsIn(u, run, steps, m, j, v)
    ensures Count(run, m, j, v) == u.c.Quorum() - 1
  {
    OnceRun(u, run, steps, m, v);
    StepAt(u, run, steps, m);
    FreshVote(u, run[m], steps[m], run[m + 1], j, v);
  }

  lemma GrowsOnce(u: Setup, run: seq<DbbNet>, steps: seq<Step>, l: nat, m: nat, j: NodeId, v: Value)
    requires IsRun(Silent(u), run, steps) && l < |steps| && m < |steps| && l != m && j < u.c.nodeNum
    requires Count(run, l, j, v) < u.c.Quorum() <= Count(run, l + 1, j, v)
    ensures !(Count(run, m, j, v) < u.c.Quorum() <= Count(run, m + 1, j, v))
  {
    if l < m {
      CountGrows(u, run, steps, l + 1, m, j, v);
    } else {
      CountGrows(u, run, steps, m + 1, l, j, v);
    }
  }

  /** A quorum is filled once: by a delivery, or by the node itself. */
  lemma FilledOnce(u: Setup, run: seq<DbbNet>, steps: seq<Step>, l: nat, m: nat, j: NodeId, v: Value)
    requires IsRun(Silent(u), run, steps) && u.HonestView(v) && OneEach(u) && j < u.c.nodeNum
    requires FillsIn(u, run, steps, l, j, v)
    ensures !FillsItselfIn(u, run, steps, m, j, v)
  {
    if FillsItselfIn(u, run, steps, m, j, v) {
      DeliveryAdds(u, run, steps, l, j, v);
      ItselfAdds(u, run, steps, l, m, j, v);
      GrowsOnce(u, run, steps, l, m, j, v);
    }
  }

  /** So a node whose own vote filled the quorum never certifies: no delivery leaves it with exactly a quorum. */
  lemma FilledItselfNever(u: Setup, run: seq<DbbNet>, steps: seq<Step>, k: nat, m: nat, j: NodeId, v: Value)
    requires IsRun(Silent(u), run, steps) && k <= |steps| && u.HonestView(v) && OneEach(u) && j < u.c.nodeNum
    requires FillsItselfIn(u, run, steps, m, j, v)
    ensures |run[k].nodes| == u.c.nodeNum && v !in run[k].nodes[j].qcMap
  {
    CertifiedExactly(Silent(u), run, steps, k, j, v);
    if l: nat :| l < k && FillsIn(u, run, steps, l, j, v) {
      FilledOnce(u, run, steps, l, m, j, v);
    }
  }

  /** With one honest proposal for everybody and a quorum of active nodes, a node has committed the proposal at point
      1 by tick 3 if and only if its own vote was not the last one of the quorum. */
  lemma Point1ReachedExactly(u: Setup, run: seq<DbbNet>, steps: seq<Step>, k: nat, j: NodeId, v: Value)
    requires IsRun(Silent(u), run, steps) && k <= |steps| && u.HonestView(v) && OneEach(u) && j in u.active
    requires 1 <= u.c.Quorum() <= |u.active| && u.c.At(3) <= run[k].now + 1
    ensures |run[k].nodes| == u.c.nodeNum && j < u.c.nodeNum
    ensures run[k].nodes[j].isCommit && run[k].nodes[j].commitValue == v
      <==> !exists m: nat :: m < k && FillsItselfIn(u, run, steps, m, j, v)
  {
    CommitsOrFillsItself(u, run, steps, k, j, v);
    CertifiedCommitsRun(u, run, steps, k, j, v);
    if m: nat :| m < k && FillsItselfIn(u, run, steps, m, j, v) {
      FilledItselfNever(u, run, steps, k, m, j, v);
    }
  }
}
