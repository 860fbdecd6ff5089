/** Commit point 1 of 1Δ-BB*: when a value is certified, and when the certificate commits it. */
module DeltaBBPoint1 {

  import opened Common
  import opened DeltaBB
  import opened Network
  import opened DeltaBBRuns
  import opened DeltaBBCertificates
  import opened DeltaBBAgreement

  // ----- Proposals and votes are sent ------------------------------------------------------------------------------

  /** A node takes in a proposal: it has seen the value, its vote timer runs, and unless it is the view node it
      forwards the proposal. */
  lemma ProposalExactly(y: System, run: seq<DbbNet>, steps: seq<Step>, k: nat, q: Proposal)
    requires IsRun(y, run, steps) && k < |steps| && steps[k] == Propose(q) && q.dst in y.u.active
    ensures q.dst < |run[k].nodes| == |run[k + 1].nodes|
    ensures run[k + 1].nodes[q.dst].proposeSet == run[k].nodes[q.dst].proposeSet + {q.req.content}
    ensures run[k + 1].voteTimers == run[k].voteTimers + multiset{VoteTimer(q.dst, run[k].now)}
    ensures run[k + 1].forward1s == run[k].forward1s +
      if q.dst == VIEW then multiset{} else Broadcast(y.u.c.nodeNum, q.dst, run[k].now, Some(q.req))
  {
  }

  /** A vote timer fires: a node that has seen one value only broadcasts a signed vote for it, any other nothing. */
  lemma VoteExactly(y: System, run: seq<DbbNet>, steps: seq<Step>, k: nat, t: VoteTimer)
    requires IsRun(y, run, steps) && k < |steps| && steps[k] == FireVote(t)
    ensures t.node < |run[k].nodes|
    ensures forall v :: run[k].nodes[t.node].proposeSet == {v} ==>
      && run[k + 1].votes == run[k].votes
           + Broadcast(y.u.c.nodeNum, t.node, run[k].now, Some(VoteContent(t.node, v, Single(t.node, v))))
      && run[k + 1].ballots == run[k].ballots + {Event(t.node, v, t.takenAt)}
    ensures |run[k].nodes[t.node].proposeSet| != 1 ==>
      run[k + 1].votes == run[k].votes && run[k + 1].ballots == run[k].ballots
  {
    assert Fires(y.u, run[k], steps[k], run[k + 1]);
    assert run[k].votes + multiset{} == run[k].votes;
    forall v | run[k].nodes[t.node].proposeSet == {v}
      ensures |run[k].nodes[t.node].proposeSet| == 1 && TheOnly(run[k].nodes[t.node].proposeSet) == v
    {
      assert |{v}| == 1;
    }
  }

  // ----- Votes are counted -----------------------------------------------------------------------------------------

  /** The signatures node j has counted for v. */
  function SignedFor(s: DbbNet, j: NodeId, v: Value): set<Signature>
    requires j < |s.nodes|
  {
    Signers(s.nodes[j].voteMap, v)
  }

  /** The vote a step delivers to node j. */
  function VoteTo(u: Setup, step: Step, j: NodeId): Option<VoteContent> {
    match step
    case Vote(p) => if p.dst == j && j in u.active then Some(p.msg) else None
    case InjectVote(dst, vote) => if dst == j then Some(vote) else None
    case _ => None
  }

  /** The value node j votes for in a step: the only one it has seen, when a vote timer of it fires. */
  ghost predicate VotesFor(s: DbbNet, step: Step, j: NodeId, v: Value)
    requires j < |s.nodes|
  {
    step.FireVote? && step.t.node == j && s.nodes[j].proposeSet == {v}
  }

  lemma VoteAfter(u: Setup, s: DbbNet, step: Step, j: NodeId)
    requires Typed(u, s) && j < |s.nodes| && (step.Vote? || step.InjectVote?) && VoteTo(u, step, j).Some?
    ensures NodeAfter(u, s, step, j) == OnVote(u.c, s.now, s.nodes[j], VoteTo(u, step, j).value).state
  {
  }

  /** What a node has counted grows by the vote delivered to it, or by its own. */
  lemma Counts(y: System, s: DbbNet, step: Step, s': DbbNet, j: NodeId, v: Value)
    requires Next(y, s, step, s') && j < |s.nodes|
    ensures |s'.nodes| == |s.nodes|
    ensures var vote := VoteTo(y.u, step, j);
      SignedFor(s', j, v) == SignedFor(s, j, v)
        + (if vote.Some? && vote.value.content == v then {vote.value.sig} else {})
        + (if VotesFor(s, step, j, v) then {Single(j, v)} else {})
  {
    NodeNext(y, s, step, s', j);
    if VoteTo(y.u, step, j).Some? {
      VoteAfter(y.u, s, step, j);
      VoteSigns(y.u.c, s.now, s.nodes[j], VoteTo(y.u, step, j).value, v);
    } else if CountsVotes(step) {
      OwnVoteAfter(y.u, s, step, j, v);
    } else {
      AfterSameVotes(y.u, s, step, j);
    }
  }

  /** Making a certificate leaves the votes alone and adds one certificate. */
  lemma CertifyMaps(c: Config, elapsed: nat, n: DbbState, v: Value)
    ensures var n' := Certify(c, elapsed, n, v).state;
      n'.voteMap == n.voteMap && n'.qcMap == n.qcMap[v := Aggregate(Signers(n.voteMap, v))]
  {
  }

  lemma VoteMaps(c: Config, elapsed: nat, n: DbbState, vote: VoteContent)
    ensures var n' := OnVote(c, elapsed, n, vote).state;
      && n'.voteMap == Sign(n.voteMap, vote.content, vote.sig)
      && n'.qcMap ==
         if |Signers(n'.voteMap, vote.content)| == c.Quorum() && vote.content !in n.qcMap
         then n.qcMap[vote.content := Aggregate(Signers(n'.voteMap, vote.content))] else n.qcMap
  {
    CertifyMaps(c, elapsed, n.(voteMap := Sign(n.voteMap, vote.content, vote.sig)), vote.content);
  }

  lemma VoteSigns(c: Config, elapsed: nat, n: DbbState, vote: VoteContent, v: Value)
    ensures Signers(OnVote(c, elapsed, n, vote).state.voteMap, v) ==
      Signers(n.voteMap, v) + if vote.content == v then {vote.sig} else {}
  {
    VoteMaps(c, elapsed, n, vote);
  }

  lemma OwnVoteAfter(u: Setup, s: DbbNet, step: Step, j: NodeId, v: Value)
    requires Typed(u, s) && j < |s.nodes| && CountsVotes(step) && VoteTo(u, step, j).None?
    ensures Signers(NodeAfter(u, s, step, j).voteMap, v) ==
      Signers(s.nodes[j].voteMap, v) + if VotesFor(s, step, j, v) then {Single(j, v)} else {}
    ensures NodeAfter(u, s, step, j).qcMap == s.nodes[j].qcMap
  {
    if step.Vote? {
      assert step.p.dst == j ==> j !in u.active;
    } else if step.FireVote? && step.t.node == j && |s.nodes[j].proposeSet| == 1 {
      var only := TheOnly(s.nodes[j].proposeSet);
      assert s.nodes[j].proposeSet == {v} <==> only == v;
    } else {
      assert |{v}| == 1;
    }
  }

  // ----- Certificates are made -------------------------------------------------------------------------------------

  /** A vote for v is delivered to node j, and leaves it with exactly a quorum of signatures. */
  ghost predicate Fills(u: Setup, s: DbbNet, step: Step, s': DbbNet, j: NodeId, v: Value)
    requires j < |s.nodes| == |s'.nodes|
  {
    && VoteTo(u, step, j).Some? && VoteTo(u, step, j).value.content == v
    && |SignedFor(s', j, v)| == u.c.Quorum()
  }

  /** Node j votes for v itself, and its own signature is the last one of a quorum. */
  ghost predicate FillsItself(u: Setup, s: DbbNet, step: Step, s': DbbNet, j: NodeId, v: Value)
    requires j < |s.nodes| == |s'.nodes|
  {
    VotesFor(s, step, j, v) && |SignedFor(s, j, v)| < u.c.Quorum() == |SignedFor(s', j, v)|
  }

  lemma VoteCertifies(c: Config, elapsed: nat, n: DbbState, vote: VoteContent, v: Value)
    ensures var n' := OnVote(c, elapsed, n, vote).state;
      var fills := vote.content == v && |Signers(n'.voteMap, v)| == c.Quorum();
      && (v in n'.qcMap <==> v in n.qcMap || fills)
      && (v in n'.qcMap ==>
          n'.qcMap[v] == if v in n.qcMap then n.qcMap[v] else Aggregate(Signers(n'.voteMap, v)))
  {
    VoteMaps(c, elapsed, n, vote);
  }

  /** In every step: v is certified afterwards if and only if it was before, or a vote for it filled the quorum. */
  lemma Certifies(y: System, s: DbbNet, step: Step, s': DbbNet, j: NodeId, v: Value)
    requires Next(y, s, step, s') && j < |s.nodes|
    ensures |s'.nodes| == |s.nodes|
    ensures v in s'.nodes[j].qcMap <==> v in s.nodes[j].qcMap || Fills(y.u, s, step, s', j, v)
    ensures v in s'.nodes[j].qcMap ==>
      (s'.nodes[j].qcMap[v] == if v in s.nodes[j].qcMap then s.nodes[j].qcMap[v] else Aggregate(SignedFor(s', j, v)))
  {
    NodeNext(y, s, step, s', j);
    if VoteTo(y.u, step, j).Some? {
      VoteAfter(y.u, s, step, j);
      VoteCertifies(y.u.c, s.now, s.nodes[j], VoteTo(y.u, step, j).value, v);
    } else if CountsVotes(step) {
      OwnVoteAfter(y.u, s, step, j, v);
    } else {
      AfterSameVotes(y.u, s, step, j);
    }
  }

  ghost predicate FillsIn(u: Setup, run: seq<DbbNet>, steps: seq<Step>, m: nat, j: NodeId, v: Value) {
    && m < |steps| < |run| && j < |run[m].nodes| == |run[m + 1].nodes|
    && Fills(u, run[m], steps[m], run[m + 1], j, v)
  }

  ghost predicate FillsItselfIn(u: Setup, run: seq<DbbNet>, steps: seq<Step>, m: nat, j: NodeId, v: Value) {
    && m < |steps| < |run| && j < |run[m].nodes| == |run[m + 1].nodes|
    && FillsItself(u, run[m], steps[m], run[m + 1], j, v)
  }

  lemma CertifiedStep(y: System, run: seq<DbbNet>, steps: seq<Step>, k: nat, j: NodeId, v: Value)
    requires IsRun(y, run, steps) && k < |steps| && j < y.u.c.nodeNum
    ensures |run[k].nodes| == |run[k + 1].nodes| == y.u.c.nodeNum
    ensures v in run[k + 1].nodes[j].qcMap <==> v in run[k].nodes[j].qcMap || FillsIn(y.u, run, steps, k, j, v)
  {
    RunSize(y, run, steps, k);
    Certifies(y, run[k], steps[k], run[k + 1], j, v);
  }

  ghost predicate FilledBefore(u: Setup, run: seq<DbbNet>, steps: seq<Step>, k: nat, j: NodeId, v: Value) {
    exists m: nat :: m < k && FillsIn(u, run, steps, m, j, v)
  }

  lemma FilledNext(u: Setup, run: seq<DbbNet>, steps: seq<Step>, k: nat, j: NodeId, v: Value)
    ensures FilledBefore(u, run, steps, k + 1, j, v) <==>
      FilledBefore(u, run, steps, k, j, v) || FillsIn(u, run, steps, k, j, v)
  {
    if m: nat :| m < k + 1 && FillsIn(u, run, steps, m, j, v) {
      assert m == k || m < k;
    }
  }

  /** In every run, whatever is sent: a node has certified v if and only if some delivery of a vote for v left it with
      exactly a quorum of signatures. */
  lemma {:induction false} CertifiedExactly(y: System, run: seq<DbbNet>, steps: seq<Step>, k: nat, j: NodeId, v: Value)
    requires IsRun(y, run, steps) && k <= |steps| && j < y.u.c.nodeNum
    ensures |run[k].nodes| == y.u.c.nodeNum
    ensures v in run[k].nodes[j].qcMap <==> FilledBefore(y.u, run, steps, k, j, v)
  {
    RunSize(y, run, steps, k);
    if k > 0 {
      CertifiedExactly(y, run, steps, k - 1, j, v);
      CertifiedStep(y, run, steps, k - 1, j, v);
      FilledNext(y.u, run, steps, k - 1, j, v);
      assert run[k - 1 + 1] == run[k];
    }
  }

  /** A certificate is the aggregate of exactly a quorum of the signatures counted. */
  ghost predicate Aggregated(u: Setup, s: DbbNet, j: NodeId)
    requires j < |s.nodes|
  {
    forall v :: v in s.nodes[j].qcMap ==>
      var qc := s.nodes[j].qcMap[v];
      qc.Aggregate? && |qc.parts| == u.c.Quorum() && qc.parts <= SignedFor(s, j, v)
  }

  lemma AggregatedNext(y: System, s: DbbNet, step: Step, s': DbbNet, j: NodeId)
    requires Next(y, s, step, s') && j < |s.nodes| && Aggregated(y.u, s, j)
    ensures |s'.nodes| == |s.nodes| && Aggregated(y.u, s', j)
  {
    SameSize(y, s, step, s');
    forall v | v in s'.nodes[j].qcMap
      ensures s'.nodes[j].qcMap[v].Aggregate? && |s'.nodes[j].qcMap[v].parts| == y.u.c.Quorum()
      ensures s'.nodes[j].qcMap[v].parts <= SignedFor(s', j, v)
    {
      Certifies(y, s, step, s', j, v);
      Counts(y, s, step, s', j, v);
    }
  }

  /** In every run every certificate of every node aggregates exactly a quorum of different signatures on its value,
      each of a node that voted for it or that may deviate. */
  lemma CertificatesAreQuorums(y: System, run: seq<DbbNet>, steps: seq<Step>, k: nat, j: NodeId, v: Value)
    requires IsRun(y, run, steps) && k <= |steps| && j < |run[k].nodes| && v in run[k].nodes[j].qcMap
    ensures run[k].nodes[j].qcMap[v].Aggregate? && |run[k].nodes[j].qcMap[v].parts| == y.u.c.Quorum()
    ensures forall sig :: sig in run[k].nodes[j].qcMap[v].parts ==> Genuine(y, run[k], v, sig)
  {
    RunSize(y, run, steps, k);
    AggregatedRun(y, run, steps, k, j);
    DbbInvRun(y, run, steps, k);
  }

  lemma {:induction false} AggregatedRun(y: System, run: seq<DbbNet>, steps: seq<Step>, k: nat, j: NodeId)
    requires IsRun(y, run, steps) && k <= |steps| && j < y.u.c.nodeNum
    ensures |run[k].nodes| == y.u.c.nodeNum && Aggregated(y.u, run[k], j)
  {
    RunSize(y, run, steps, k);
    if k > 0 {
      AggregatedRun(y, run, steps, k - 1, j);
      AggregatedNext(y, run[k - 1], steps[k - 1], run[k - 1 + 1], j);
      assert run[k - 1 + 1] == run[k];
    }
  }

  /** A quorum of signatures without a certificate: the node's own vote has filled it, untested. */
  lemma {:induction false} FullOrItself(y: System, run: seq<DbbNet>, steps: seq<Step>, k: nat, j: NodeId, v: Value)
    requires IsRun(y, run, steps) && k <= |steps| && j < |run[k].nodes| == y.u.c.nodeNum && y.u.c.Quorum() >= 1
    requires |SignedFor(run[k], j, v)| >= y.u.c.Quorum()
    ensures v in run[k].nodes[j].qcMap || exists m: nat :: m < k && FillsItselfIn(y.u, run, steps, m, j, v)
  {
    if k > 0 {
      RunSize(y, run, steps, k - 1);
      if |SignedFor(run[k - 1], j, v)| >= y.u.c.Quorum() {
        FullOrItself(y, run, steps, k - 1, j, v);
      }
      FillsUp(y, run, steps, k - 1, j, v);
      assert run[k - 1 + 1] == run[k];
    }
  }

  lemma FillsUp(y: System, run: seq<DbbNet>, steps: seq<Step>, k: nat, j: NodeId, v: Value)
    requires IsRun(y, run, steps) && k < |steps| && j < |run[k].nodes| == y.u.c.nodeNum
    ensures |run[k + 1].nodes| == y.u.c.nodeNum
    ensures v in run[k].nodes[j].qcMap ==> v in run[k + 1].nodes[j].qcMap
    ensures |SignedFor(run[k], j, v)| <= |SignedFor(run[k + 1], j, v)| <= |SignedFor(run[k], j, v)| + 1
    ensures |SignedFor(run[k], j, v)| < y.u.c.Quorum() <= |SignedFor(run[k + 1], j, v)| ==>
      v in run[k + 1].nodes[j].qcMap || FillsItselfIn(y.u, run, steps, k, j, v)
  {
    RunSize(y, run, steps, k + 1);
    CertifiedStep(y, run, steps, k, j, v);
    Counts(y, run[k], steps[k], run[k + 1], j, v);
    OneMore(SignedFor(run[k], j, v), SignedFor(run[k + 1], j, v),
            if VoteTo(y.u, steps[k], j).Some? then VoteTo(y.u, steps[k], j).value.sig else Single(j, v));
  }

  lemma OneMore<T>(a: set<T>, b: set<T>, x: T)
    requires a <= b <= a + {x}
    ensures |a| <= |b| <= |a| + 1
  {
    assert b == a || b == a + {x};
  }

  // ----- Commit point 1 --------------------------------------------------------------------------------------------

  lemma CertifiesFirst(c: Config, elapsed: nat, n: DbbState, vote: VoteContent, v: Value)
    requires OneShot(n) && n.blckSet == {} && OnVote(c, elapsed, n, vote).state.blckSet == {v}
    ensures var n' := OnVote(c, elapsed, n, vote).state;
      if elapsed < c.At(3) then n'.isCommit && n'.commitValue == v && n'.trigger == 1
      else !n'.isCommit && n'.trigger == 0
  {
    assert |{v}| == 1;
  }

  /** The first certificate of a node commits it at point 1, and sends the trigger, if and only if it is made before
      tick 3. */
  lemma Point1Exactly(y: System, run: seq<DbbNet>, steps: seq<Step>, k: nat, i: NodeId, v: Value)
    requires IsRun(y, run, steps) && k < |steps| && i < y.u.c.nodeNum
    requires |run[k].nodes| == |run[k + 1].nodes| == y.u.c.nodeNum
    requires run[k].nodes[i].blckSet == {} && run[k + 1].nodes[i].blckSet == {v}
    ensures run[k].now < y.u.c.At(3) <==>
      run[k + 1].nodes[i].isCommit && run[k + 1].nodes[i].commitValue == v && run[k + 1].nodes[i].trigger == 1
    ensures run[k].now >= y.u.c.At(3) ==> !run[k + 1].nodes[i].isCommit && run[k + 1].nodes[i].trigger == 0
  {
    CommitPoint1(y, run, steps, k, i);
    CommitPoint1(y, run, steps, k + 1, i);
    Certifies(y, run[k], steps[k], run[k + 1], i, v);
    assert v in run[k + 1].nodes[i].qcMap && v !in run[k].nodes[i].qcMap;
    NodeNext(y, run[k], steps[k], run[k + 1], i);
    VoteAfter(y.u, run[k], steps[k], i);
    CertifiesFirst(y.u.c, run[k].now, run[k].nodes[i], VoteTo(y.u, steps[k], i).value, v);
  }

  lemma CertifyCommitsNow(c: Config, elapsed: nat, n: DbbState, v: Value)
    requires n.blckSet == {} && n.trigger == 0 && elapsed < c.At(3)
    ensures var n' := Certify(c, elapsed, n, v).state; n'.isCommit && n'.commitValue == v && n'.trigger == 1
  {
    assert n.blckSet + {v} == {v};
    assert |{v}| == 1;
  }

  /** A delivery that fills the first quorum of a node before tick 3 commits it. */
  lemma LastVoteCommits(c: Config, elapsed: nat, n: DbbState, vote: VoteContent)
    requires n.blckSet == {} && n.qcMap == map[] && n.trigger == 0 && elapsed < c.At(3)
    requires |Signers(n.voteMap, vote.content) + {vote.sig}| == c.Quorum()
    ensures var n' := OnVote(c, elapsed, n, vote).state;
      n'.isCommit && n'.commitValue == vote.content && n'.trigger == 1
  {
    CertifyCommitsNow(c, elapsed, n.(voteMap := Sign(n.voteMap, vote.content, vote.sig)), vote.content);
  }
}
