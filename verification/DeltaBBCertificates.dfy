/** Quorum certificates, and commit point 1. */
module DeltaBBCertificates {

  import opened Common
  import opened DeltaBB
  import opened Network
  import opened DeltaBBRuns
  import opened DeltaBBVotes

  // ----- Commit point 1 is reached at most once --------------------------------------------------------------------

  /** blckSet holds the certified values; the trigger is never over capacity, and is only there after a commit, of a
      certified value. */
  predicate OneShot(s: DbbState) {
    && s.qcMap.Keys == s.blckSet
    && s.trigger <= TRIGGER_CAPACITY
    && (s.trigger > 0 ==> s.isCommit)
    && (s.isCommit ==> s.commitValue in s.blckSet)
  }

  /** What a step may do to a node: a commit stands, and the trigger is sent only together with it, into an empty
      channel. */
  predicate CommitKept(s: DbbState, s': DbbState) {
    && OneShot(s')
    && (s.isCommit ==> s'.isCommit && s'.commitValue == s.commitValue)
    && (s'.trigger > s.trigger ==> !s.isCommit && s'.isCommit && s.trigger == 0)
    && s.blckSet <= s'.blckSet
  }

  /** Nothing about certificates and commits changes, except perhaps that the trigger is taken. */
  predicate CommitSame(s: DbbState, s': DbbState) {
    && s'.qcMap == s.qcMap && s'.blckSet == s.blckSet && s'.isCommit == s.isCommit && s'.commitValue == s.commitValue
    && s'.trigger <= s.trigger
  }

  lemma SameIsKept(s: DbbState, s': DbbState)
    requires OneShot(s) && CommitSame(s, s')
    ensures CommitKept(s, s')
  {
  }

  lemma CertifyCommits(c: Config, elapsed: nat, s: DbbState, v: Value)
    requires OneShot(s) && v !in s.qcMap
    ensures CommitKept(s, Certify(c, elapsed, s, v).state)
  {
    var r := Certify(c, elapsed, s, v).state;
    assert r.qcMap.Keys == s.qcMap.Keys + {v} == r.blckSet;
    if s.isCommit && |r.blckSet| == 1 {
      SingletonIsUnique(r.blckSet, s.commitValue, v);
    }
  }

  lemma VoteCommits(c: Config, elapsed: nat, s: DbbState, vote: VoteContent)
    requires OneShot(s)
    ensures CommitKept(s, OnVote(c, elapsed, s, vote).state)
  {
    var t := s.(voteMap := Sign(s.voteMap, vote.content, vote.sig));
    SameIsKept(s, t);
    if |Signers(t.voteMap, vote.content)| == c.Quorum() && vote.content !in s.qcMap {
      CertifyCommits(c, elapsed, t, vote.content);
    }
  }

  lemma ProposalsCommit(nid: NodeId, s: DbbState, req: Request)
    ensures CommitSame(s, OnPropose(nid, s, req).state) && CommitSame(s, OnForward1(s, req))
  {
  }

  lemma TimersCommit(nid: NodeId, s: DbbState)
    ensures CommitSame(s, OnVoteTimer(nid, s).state) && CommitSame(s, OnBAStart(nid, s).state)
  {
  }

  lemma FinalCommits(s: DbbState)
    requires OneShot(s)
    ensures CommitKept(s, OnFinalTimer(s))
  {
  }

  lemma EarlyListCommits(c: Config, elapsed: nat, nid: NodeId, s: DbbState, m: InputList)
    requires c.Valid() && Readable(c, elapsed, m) && elapsed < c.At(5)
    ensures CommitSame(s, OnForward2(c, elapsed, nid, s, m).0.state)
    ensures OnForward2(c, elapsed, nid, s, m).0.state.voteMap == s.voteMap
  {
    assert OnForward2(c, elapsed, nid, s, m).0.state == s.(baProposeMap := Sign(s.baProposeMap, m.input, m.sigs[0]));
  }

  lemma LateListCommits(c: Config, elapsed: nat, nid: NodeId, s: DbbState, m: InputList)
    requires c.Valid() && c.At(5) <= elapsed
    ensures CommitSame(s, OnForward2(c, elapsed, nid, s, m).0.state)
    ensures OnForward2(c, elapsed, nid, s, m).0.state.voteMap == s.voteMap
  {
  }

  lemma ListCommits(c: Config, elapsed: nat, nid: NodeId, s: DbbState, m: InputList)
    requires c.Valid() && Readable(c, elapsed, m)
    ensures CommitSame(s, OnForward2(c, elapsed, nid, s, m).0.state)
    ensures OnForward2(c, elapsed, nid, s, m).0.state.voteMap == s.voteMap
  {
    if elapsed < c.At(5) {
      EarlyListCommits(c, elapsed, nid, s, m);
    } else {
      LateListCommits(c, elapsed, nid, s, m);
    }
  }

  lemma AfterProposal(u: Setup, s: DbbNet, step: Step, i: NodeId)
    requires Typed(u, s) && i < |s.nodes|
    requires step.Propose? || step.Forward1? || step.InjectProposal? || step.InjectForward1?
    ensures CommitSame(s.nodes[i], NodeAfter(u, s, step, i))
  {
    var n := s.nodes[i];
    match step
    case Propose(q) => ProposalsCommit(i, n, q.req);
    case Forward1(f) => ProposalsCommit(i, n, f.msg);
    case InjectProposal(_, req) => ProposalsCommit(i, n, req);
    case InjectForward1(_, req) => ProposalsCommit(i, n, req);
  }

  lemma AfterList(u: Setup, s: DbbNet, step: Step, i: NodeId)
    requires Typed(u, s) && i < |s.nodes| && (step.Forward2? || step.InjectForward2?)
    requires if step.Forward2? then step.l in s.forward2s else Readable(u.c, s.now, step.list)
    ensures CommitSame(s.nodes[i], NodeAfter(u, s, step, i))
  {
    ListCommits(u.c, s.now, i, s.nodes[i], if step.Forward2? then step.l.msg else step.list);
  }

  lemma AfterTimer(u: Setup, s: DbbNet, step: Step, i: NodeId)
    requires Typed(u, s) && i < |s.nodes|
    requires step.FireVote? || step.FireBA? || step.FireWaiting? || step.TakeTrigger? || step.Tick?
    ensures CommitSame(s.nodes[i], NodeAfter(u, s, step, i))
  {
    TimersCommit(i, s.nodes[i]);
  }

  /** All steps but counting a vote and the last timer. */
  lemma AfterSame(u: Setup, s: DbbNet, step: Step, i: NodeId)
    requires Typed(u, s) && i < |s.nodes| && (step.Forward2? ==> step.l in s.forward2s)
    requires step.InjectForward2? ==> Readable(u.c, s.now, step.list)
    requires !step.Vote? && !step.InjectVote? && !step.FireFinal?
    ensures CommitSame(s.nodes[i], NodeAfter(u, s, step, i))
  {
    if step.Forward2? || step.InjectForward2? {
      AfterList(u, s, step, i);
    } else if step.Propose? || step.Forward1? || step.InjectProposal? || step.InjectForward1? {
      AfterProposal(u, s, step, i);
    } else {
      AfterTimer(u, s, step, i);
    }
  }

  lemma AfterVote(u: Setup, s: DbbNet, p: Packet<VoteContent>, i: NodeId)
    requires Typed(u, s) && i < |s.nodes| && OneShot(s.nodes[i])
    ensures CommitKept(s.nodes[i], NodeAfter(u, s, Vote(p), i))
  {
    if p.dst == i && i in u.active {
      VoteCommits(u.c, s.now, s.nodes[i], p.msg);
    } else {
      SameIsKept(s.nodes[i], s.nodes[i]);
    }
  }

  lemma AfterInjectedVote(u: Setup, s: DbbNet, dst: NodeId, vote: VoteContent, i: NodeId)
    requires Typed(u, s) && i < |s.nodes| && OneShot(s.nodes[i])
    ensures CommitKept(s.nodes[i], NodeAfter(u, s, InjectVote(dst, vote), i))
  {
    if dst == i {
      VoteCommits(u.c, s.now, s.nodes[i], vote);
    } else {
      SameIsKept(s.nodes[i], s.nodes[i]);
    }
  }

  lemma AfterFinal(u: Setup, s: DbbNet, j: NodeId, i: NodeId)
    requires Typed(u, s) && i < |s.nodes| && OneShot(s.nodes[i])
    ensures CommitKept(s.nodes[i], NodeAfter(u, s, FireFinal(j), i))
  {
    if j == i {
      FinalCommits(s.nodes[i]);
    } else {
      SameIsKept(s.nodes[i], s.nodes[i]);
    }
  }

  lemma StepCommit(y: System, s: DbbNet, step: Step, s': DbbNet, i: NodeId)
    requires Next(y, s, step, s') && i < |s.nodes| && OneShot(s.nodes[i])
    ensures |s'.nodes| == |s.nodes| && CommitKept(s.nodes[i], s'.nodes[i])
  {
    NodeNext(y, s, step, s', i);
    if step.Vote? {
      AfterVote(y.u, s, step.p, i);
    } else if step.InjectVote? {
      AfterInjectedVote(y.u, s, step.dst, step.vote, i);
    } else if step.FireFinal? {
      AfterFinal(y.u, s, step.i, i);
    } else {
      AfterSame(y.u, s, step, i);
      SameIsKept(s.nodes[i], s'.nodes[i]);
    }
  }

  // ----- Every signature counted stands for a vote -----------------------------------------------------------------

  ghost predicate VotesGenuine(y: System, s: DbbNet) {
    forall p :: p in s.votes ==> Genuine(y, s, p.msg.content, p.msg.sig)
  }

  ghost predicate CountsGenuine(y: System, s: DbbNet) {
    forall j, v, sig :: 0 <= j < |s.nodes| && sig in Signers(s.nodes[j].voteMap, v) ==> Genuine(y, s, v, sig)
  }

  ghost predicate CertificatesFull(y: System, s: DbbNet) {
    forall j, v :: 0 <= j < |s.nodes| && v in s.nodes[j].qcMap ==> |Signers(s.nodes[j].voteMap, v)| >= y.u.c.Quorum()
  }

  ghost predicate QuorumInv(y: System, s: DbbNet) {
    VotesGenuine(y, s) && CountsGenuine(y, s) && CertificatesFull(y, s)
  }

  /** A node counts these signatures on v, perhaps none, and makes a certificate for nothing but v, with a quorum. */
  ghost predicate Counted(c: Config, n: DbbState, n': DbbState, v: Value, sigs: set<Signature>) {
    && (forall w :: Signers(n'.voteMap, w) == Signers(n.voteMap, w) + if w == v then sigs else {})
    && (forall w :: w in n'.qcMap ==> w in n.qcMap || (w == v && |Signers(n'.voteMap, v)| >= c.Quorum()))
  }

  lemma CountedNone(c: Config, n: DbbState, n': DbbState, v: Value)
    requires n'.voteMap == n.voteMap && n'.qcMap == n.qcMap
    ensures Counted(c, n, n', v, {})
  {
  }

  lemma CountedVote(c: Config, elapsed: nat, n: DbbState, vote: VoteContent)
    ensures Counted(c, n, OnVote(c, elapsed, n, vote).state, vote.content, {vote.sig})
  {
    var r := OnVote(c, elapsed, n, vote).state;
    assert r.voteMap == Sign(n.voteMap, vote.content, vote.sig);
    assert forall w :: w in r.qcMap ==> w in n.qcMap || (w == vote.content && |Signers(r.voteMap, w)| == c.Quorum());
  }

  lemma CountedOwn(c: Config, nid: NodeId, n: DbbState)
    requires |n.proposeSet| == 1
    ensures var v := TheOnly(n.proposeSet); Counted(c, n, OnVoteTimer(nid, n).state, v, {Single(nid, v)})
  {
  }

  /** What a step counts, at which node. */
  function CountedBy(s: DbbNet, step: Step): (NodeId, Value, set<Signature>) {
    match step
    case Vote(p) => (p.dst, p.msg.content, {p.msg.sig})
    case InjectVote(dst, vote) => (dst, vote.content, {vote.sig})
    case FireVote(t) =>
      if t.node < |s.nodes| && |s.nodes[t.node].proposeSet| == 1 then
        var v := TheOnly(s.nodes[t.node].proposeSet);
        (t.node, v, {Single(t.node, v)})
      else (t.node, "", {})
    case _ => (0, "", {})
  }

  predicate CountsVotes(step: Step) {
    step.Vote? || step.InjectVote? || step.FireVote?
  }

  lemma AfterSameVotes(u: Setup, s: DbbNet, step: Step, i: NodeId)
    requires Typed(u, s) && i < |s.nodes| && (step.Forward2? ==> step.l in s.forward2s)
    requires step.InjectForward2? ==> Readable(u.c, s.now, step.list)
    requires !CountsVotes(step)
    ensures NodeAfter(u, s, step, i).voteMap == s.nodes[i].voteMap && NodeAfter(u, s, step, i).qcMap == s.nodes[i].qcMap
  {
    if step.Forward2? {
      ListCommits(u.c, s.now, i, s.nodes[i], step.l.msg);
    } else if step.InjectForward2? {
      ListCommits(u.c, s.now, i, s.nodes[i], step.list);
    } else {
      AfterSameVotesPlain(u, s, step, i);
    }
  }

  lemma AfterSameVotesPlain(u: Setup, s: DbbNet, step: Step, i: NodeId)
    requires Typed(u, s) && i < |s.nodes| && !step.Forward2? && !step.InjectForward2? && !CountsVotes(step)
    ensures NodeAfter(u, s, step, i).voteMap == s.nodes[i].voteMap && NodeAfter(u, s, step, i).qcMap == s.nodes[i].qcMap
  {
  }

  lemma AfterCounting(u: Setup, s: DbbNet, step: Step, i: NodeId)
    requires Typed(u, s) && i < |s.nodes| && CountsVotes(step)
    ensures var (j, v, sigs) := CountedBy(s, step);
      Counted(u.c, s.nodes[i], NodeAfter(u, s, step, i), v, {}) ||
      (i == j && Counted(u.c, s.nodes[i], NodeAfter(u, s, step, i), v, sigs))
  {
    var n := s.nodes[i];
    var (j, v, sigs) := CountedBy(s, step);
    CountedNone(u.c, n, n, v);
    if i == j {
      match step
      case Vote(p) => CountedVote(u.c, s.now, n, p.msg);
      case InjectVote(_, vote) => CountedVote(u.c, s.now, n, vote);
      case FireVote(_) =>
        if |n.proposeSet| == 1 {
          CountedOwn(u.c, i, n);
        }
    }
  }

  lemma GenuineKept(y: System, s: DbbNet, s': DbbNet, v: Value, sig: Signature)
    requires Genuine(y, s, v, sig) && s.ballots <= s'.ballots
    ensures Genuine(y, s', v, sig)
  {
    if sig.signer in y.u.active {
      var a :| Event(sig.signer, v, a) in s.ballots;
      assert Event(sig.signer, v, a) in s'.ballots;
    }
  }

  /** Votes in flight and ballots after a step. */
  ghost predicate VotesGrow(u: Setup, s: DbbNet, step: Step, s': DbbNet) {
    && s.ballots <= s'.ballots
    && (forall p :: p in s'.votes ==> p in s.votes || CastNow(s', step, p.msg))
  }

  ghost predicate CastNow(s': DbbNet, step: Step, vote: VoteContent) {
    && step.FireVote? && vote.sig == Single(step.t.node, vote.content)
    && Event(step.t.node, vote.content, step.t.takenAt) in s'.ballots
  }

  lemma ArrivesVotes(u: Setup, s: DbbNet, step: Step, s': DbbNet)
    requires Typed(u, s) && Arrives(u, s, step, s')
    ensures VotesGrow(u, s, step, s')
  {
  }

  lemma FiresVotes(u: Setup, s: DbbNet, step: Step, s': DbbNet)
    requires Typed(u, s) && Fires(u, s, step, s')
    ensures VotesGrow(u, s, step, s')
    ensures step.FireVote? && |s.nodes[step.t.node].proposeSet| == 1 ==>
      Event(step.t.node, TheOnly(s.nodes[step.t.node].proposeSet), step.t.takenAt) in s'.ballots
  {
  }

  lemma InjectsVotes(u: Setup, s: DbbNet, step: Step, s': DbbNet)
    requires Typed(u, s) && Injects(u, s, step, s')
    ensures VotesGrow(u, s, step, s')
  {
  }

  lemma NextVotes(y: System, s: DbbNet, step: Step, s': DbbNet)
    requires Next(y, s, step, s')
    ensures VotesGrow(y.u, s, step, s')
  {
    if Arrives(y.u, s, step, s') {
      ArrivesVotes(y.u, s, step, s');
    } else if Fires(y.u, s, step, s') {
      FiresVotes(y.u, s, step, s');
    } else {
      InjectsVotes(y.u, s, step, s');
    }
  }

  lemma VotesGenuineNext(y: System, s: DbbNet, step: Step, s': DbbNet)
    requires Next(y, s, step, s') && VotesGenuine(y, s)
    ensures VotesGenuine(y, s')
  {
    NextVotes(y, s, step, s');
    forall p | p in s'.votes
      ensures Genuine(y, s', p.msg.content, p.msg.sig)
    {
      if p in s.votes {
        GenuineKept(y, s, s', p.msg.content, p.msg.sig);
      }
    }
  }

  lemma CountedIsGenuine(y: System, s: DbbNet, step: Step, s': DbbNet, sig: Signature)
    requires Next(y, s, step, s') && VotesGenuine(y, s) && CountsVotes(step) && sig in CountedBy(s, step).2
    ensures Genuine(y, s', CountedBy(s, step).1, sig)
  {
    NextVotes(y, s, step, s');
    match step
    case Vote(p) => GenuineKept(y, s, s', p.msg.content, sig);
    case InjectVote(_, vote) => GenuineKept(y, s, s', vote.content, sig);
    case FireVote(t) => FiresVotes(y.u, s, step, s');
  }

  lemma NodeCountsNext(y: System, s: DbbNet, step: Step, s': DbbNet, i: NodeId)
    requires Next(y, s, step, s') && i < |s.nodes|
    ensures |s'.nodes| == |s.nodes|
    ensures var (_, v, sigs) := CountedBy(s, step);
      Counted(y.u.c, s.nodes[i], s'.nodes[i], v, {}) ||
      (CountsVotes(step) && Counted(y.u.c, s.nodes[i], s'.nodes[i], v, sigs))
  {
    NodeNext(y, s, step, s', i);
    if CountsVotes(step) {
      AfterCounting(y.u, s, step, i);
    } else {
      AfterSameVotes(y.u, s, step, i);
      CountedNone(y.u.c, s.nodes[i], s'.nodes[i], CountedBy(s, step).1);
    }
  }

  lemma CountsGenuineNext(y: System, s: DbbNet, step: Step, s': DbbNet)
    requires Next(y, s, step, s') && VotesGenuine(y, s) && CountsGenuine(y, s)
    ensures CountsGenuine(y, s')
  {
    NextVotes(y, s, step, s');
    forall j: nat, v, sig | j < |s'.nodes| && sig in Signers(s'.nodes[j].voteMap, v)
      ensures Genuine(y, s', v, sig)
    {
      SameSize(y, s, step, s');
      NodeCountsNext(y, s, step, s', j);
      if sig in Signers(s.nodes[j].voteMap, v) {
        GenuineKept(y, s, s', v, sig);
      } else {
        CountedIsGenuine(y, s, step, s', sig);
      }
    }
  }

  lemma SameSize(y: System, s: DbbNet, step: Step, s': DbbNet)
    requires Next(y, s, step, s')
    ensures |s'.nodes| == |s.nodes|
  {
    NodeNext(y, s, step, s', 0);
  }

  lemma CertificatesFullNext(y: System, s: DbbNet, step: Step, s': DbbNet)
    requires Next(y, s, step, s') && CertificatesFull(y, s)
    ensures CertificatesFull(y, s')
  {
    forall j: nat, v | j < |s'.nodes| && v in s'.nodes[j].qcMap
      ensures |Signers(s'.nodes[j].voteMap, v)| >= y.u.c.Quorum()
    {
      SameSize(y, s, step, s');
      NodeCountsNext(y, s, step, s', j);
      SubsetSize(Signers(s.nodes[j].voteMap, v), Signers(s'.nodes[j].voteMap, v));
    }
  }

  lemma QuorumInvNext(y: System, s: DbbNet, step: Step, s': DbbNet)
    requires Next(y, s, step, s') && QuorumInv(y, s)
    ensures QuorumInv(y, s')
  {
    VotesGenuineNext(y, s, step, s');
    CountsGenuineNext(y, s, step, s');
    CertificatesFullNext(y, s, step, s');
  }

  // ----- At most one value is certified ----------------------------------------------------------------------------

  function SingleSignatures(nodes: set<NodeId>, v: Value): (r: set<Signature>)
    ensures forall sig: Signature :: sig in r <==> sig.Single? && sig.content == v && sig.signer in nodes
  {
    set k | k in nodes :: Single(k, v)
  }

  lemma {:induction false} SingleSignaturesSize(nodes: set<NodeId>, v: Value)
    ensures |SingleSignatures(nodes, v)| == |nodes|
  {
    if nodes != {} {
      var k :| k in nodes;
      SingleSignaturesSize(nodes - {k}, v);
      assert SingleSignatures(nodes, v) == SingleSignatures(nodes - {k}, v) + {Single(k, v)};
    }
  }

  /** The nodes that need not follow the vote rule: the faulty ones that are not silent, and the view node, which may
      equivocate. */
  function Deviators(y: System): (r: set<NodeId>)
    ensures forall k: NodeId :: k in r <==> k < y.u.c.nodeNum && (k == VIEW || (y.injecting && k !in y.u.active))
  {
    if y.injecting then Ids(y.u.c.nodeNum) - (y.u.active - {VIEW}) else Ids(y.u.c.nodeNum) * {VIEW}
  }

  /** A certificate has a signature from outside any set smaller than the quorum. */
  lemma SignerOutside(y: System, s: DbbNet, j: NodeId, v: Value, rest: set<NodeId>) returns (sig: Signature)
    requires QuorumInv(y, s) && j < |s.nodes| && v in s.nodes[j].qcMap && |rest| < y.u.c.Quorum()
    ensures Genuine(y, s, v, sig) && sig.signer !in rest
  {
    var sigs := Signers(s.nodes[j].voteMap, v);
    SingleSignaturesSize(rest, v);
    if sigs <= SingleSignatures(rest, v) {
      SubsetSize(sigs, SingleSignatures(rest, v));
    }
    sig :| sig in sigs && sig !in SingleSignatures(rest, v);
    assert Genuine(y, s, v, sig);
  }

  /** So it holds the vote of an active node other than the view node, if the nodes that may deviate are no quorum. */
  lemma HonestVoteBehind(y: System, s: DbbNet, j: NodeId, v: Value) returns (b: Event)
    requires QuorumInv(y, s) && j < |s.nodes| && v in s.nodes[j].qcMap && |Deviators(y)| < y.u.c.Quorum()
    ensures b in s.ballots && b.value == v && b.node in y.u.active && b.node != VIEW
  {
    var sig := SignerOutside(y, s, j, v, Deviators(y));
    var a :| Event(sig.signer, v, a) in s.ballots;
    b := Event(sig.signer, v, a);
  }

  /** And that of an active node, if the faulty ones are none. */
  lemma ActiveVoteBehind(y: System, s: DbbNet, j: NodeId, v: Value) returns (b: Event)
    requires QuorumInv(y, s) && j < |s.nodes| && v in s.nodes[j].qcMap
    requires |Ids(y.u.c.nodeNum) - y.u.active| < y.u.c.Quorum()
    ensures b in s.ballots && b.value == v && b.node in y.u.active
  {
    var sig := SignerOutside(y, s, j, v, Ids(y.u.c.nodeNum) - y.u.active);
    var a :| Event(sig.signer, v, a) in s.ballots;
    b := Event(sig.signer, v, a);
  }
}
