/** PBFT: when nothing is in flight any more, everything announced is committed everywhere. */
module PbftCompleteness {

  import opened Common
  import opened Network
  import opened Pbft
  import opened PbftRuns
  import opened PbftCertificates

  // ----- No message is forgotten -----------------------------------------------------------------------------------

  /** The effect a message has unless it is outdated. */
  ghost predicate TakesEffect(s: PbftNet, l: Letter)
    requires l.dst < |s.nodes|
  {
    match l.note.kind
    case PrePrepare => Note(l.dst, Prepare, l.note.msg) in s.sent
    case Prepare => TallyOf(l) in s.counted || FactsOf(s.nodes[l.dst], l.note.msg.req.digest).flag
    case Commit => TallyOf(l) in s.counted
  }

  /** A delivered message that its receiver does not consider outdated has had its effect. */
  ghost predicate Answered(g: Group, s: PbftNet, l: Letter)
    requires Typed(g, s)
  {
    l.dst in g.active && l.note.msg.round >= s.nodes[l.dst].currentRound ==> TakesEffect(s, l)
  }

  ghost predicate AllAnswered(g: Group, s: PbftNet)
    requires Typed(g, s)
  {
    forall l :: l in s.delivered ==> Answered(g, s, l)
  }

  ghost predicate OthersInRoundZero(g: Group, s: PbftNet)
    requires Typed(g, s)
  {
    forall i :: i in g.active && i != VIEW ==> s.nodes[i].currentRound == 0
  }

  ghost predicate AllAnnounced(s: PbftNet) {
    forall r :: 0 <= r < |s.dequeued| ==> Note(VIEW, PrePrepare, PbftMessage(s.dequeued[r], r)) in s.sent
  }

  ghost predicate CompleteInv(g: Group, s: PbftNet) {
    Typed(g, s) && AllAnswered(g, s) && OthersInRoundZero(g, s) && AllAnnounced(s)
  }

  /** What never shrinks. */
  ghost predicate Grows(g: Group, s: PbftNet, s': PbftNet) {
    && Progress(g, s, s') && s.counted <= s'.counted
    && (forall i :: i in g.active ==> s.nodes[i].currentRound <= s'.nodes[i].currentRound)
    && (forall i :: i in g.active && i != VIEW ==> s'.nodes[i].currentRound == s.nodes[i].currentRound)
  }

  lemma AnsweredKept(g: Group, s: PbftNet, s': PbftNet, l: Letter)
    requires Grows(g, s, s') && Answered(g, s, l)
    ensures Answered(g, s', l)
  {
  }

  lemma GrowsKept(g: Group, s: PbftNet, s': PbftNet)
    requires Grows(g, s, s') && AllAnswered(g, s) && OthersInRoundZero(g, s)
    requires forall l :: l in s'.delivered && l !in s.delivered ==> Answered(g, s', l)
    ensures AllAnswered(g, s') && OthersInRoundZero(g, s')
  {
    forall l | l in s'.delivered
      ensures Answered(g, s', l)
    {
      if l in s.delivered {
        AnsweredKept(g, s, s', l);
      }
    }
  }

  // ----- Steps -----------------------------------------------------------------------------------------------------

  lemma RoundsGrow(g: Group, s: PbftNet, step: Step, s': PbftNet)
    requires Next(g, s, step, s')
    ensures RoundsUp(s, s')
  {
    match step
    case Deliver(l) =>
      if l.dst in g.active {
        HandleRounds(g, Opened(s, l), l);
      }
    case _ =>
  }

  ghost predicate RoundsUp(s: PbftNet, s': PbftNet) {
    && |s'.nodes| == |s.nodes|
    && (forall i :: 0 <= i < |s.nodes| ==> s.nodes[i].currentRound <= s'.nodes[i].currentRound)
    && (forall i :: 0 < i < |s.nodes| ==> s'.nodes[i].currentRound == s.nodes[i].currentRound)
  }

  lemma CommitRounds(g: Group, s: PbftNet, i: NodeId, src: NodeId, m: PbftMessage)
    requires Typed(g, s) && i < g.n
    ensures RoundsUp(s, TakeCommit(g, s, i, src, m))
  {
  }

  lemma PrepareRounds(g: Group, s: PbftNet, i: NodeId, src: NodeId, m: PbftMessage)
    requires Typed(g, s) && i < g.n
    ensures RoundsUp(s, TakePrepare(g, s, i, src, m)) && RoundsUp(s, TakePrePrepare(g, s, i, m))
  {
  }

  lemma HandleRounds(g: Group, s: PbftNet, l: Letter)
    requires Typed(g, s) && l.dst < g.n
    ensures RoundsUp(s, Handle(g, s, l))
  {
    CommitRounds(g, s, l.dst, l.note.src, l.note.msg);
    PrepareRounds(g, s, l.dst, l.note.src, l.note.msg);
  }

  ghost predicate FlagsGrow(g: Group, s: PbftNet, s': PbftNet) {
    && Typed(g, s) && Typed(g, s') && s.counted <= s'.counted && s.sent <= s'.sent
    && (forall i, d :: i in g.active && FactsOf(s.nodes[i], d).flag ==> FactsOf(s'.nodes[i], d).flag)
  }

  lemma PrePrepareGrows(g: Group, s: PbftNet, l: Letter, s': PbftNet)
    requires Opens(g, s, l, s', PrePrepare)
    ensures FlagsGrow(g, s, s') && s'.delivered == s.delivered + {l}
    ensures l.note.msg.round >= s.nodes[l.dst].currentRound ==> TakesEffect(s', l)
  {
    PrePrepareEffect(g, s, l, s');
  }

  lemma PrepareGrows(g: Group, s: PbftNet, l: Letter, s': PbftNet)
    requires Opens(g, s, l, s', Prepare) && TallyOf(l) !in s.counted
    ensures FlagsGrow(g, s, s') && s'.delivered == s.delivered + {l}
    ensures l.note.msg.round >= s.nodes[l.dst].currentRound ==> TakesEffect(s', l)
  {
    PrepareFacts(g.n, l.dst, s.nodes[l.dst], l.note.msg, l.note.msg.req.digest);
    if CountsPrepare(s.nodes[l.dst], l.note.msg) {
      PrepareCounted(g, s, l, s');
    } else {
      PrepareIgnored(g, s, l, s');
    }
  }

  lemma CommitGrows(g: Group, s: PbftNet, l: Letter, s': PbftNet)
    requires Opens(g, s, l, s', Commit) && TallyOf(l) !in s.counted
    ensures FlagsGrow(g, s, s') && s'.delivered == s.delivered + {l}
    ensures l.note.msg.round >= s.nodes[l.dst].currentRound ==> TakesEffect(s', l)
  {
    if l.note.msg.round >= s.nodes[l.dst].currentRound {
      CommitCounted(g, s, l, s');
    } else {
      CommitIgnored(g, s, l, s');
    }
  }

  lemma OpenGrows(g: Group, s: PbftNet, l: Letter, s': PbftNet)
    requires Next(g, s, Deliver(l), s') && l.dst in g.active && TallyOf(l) !in s.counted
    ensures FlagsGrow(g, s, s') && s'.delivered == s.delivered + {l}
    ensures l.note.msg.round >= s.nodes[l.dst].currentRound ==> TakesEffect(s', l)
  {
    match l.note.kind
    case PrePrepare => PrePrepareGrows(g, s, l, s');
    case Prepare => PrepareGrows(g, s, l, s');
    case Commit => CommitGrows(g, s, l, s');
  }

  /** Facts about flags and about rounds together are progress. */
  lemma FlagsAndRounds(g: Group, s: PbftNet, s': PbftNet, l: Letter)
    requires FlagsGrow(g, s, s') && s'.delivered == s.delivered + {l}
    requires RoundsUp(s, s')
    requires l.dst in g.active ==> l.note.msg.round >= s.nodes[l.dst].currentRound ==> TakesEffect(s', l)
    ensures Grows(g, s, s') && Answered(g, s', l)
  {
  }

  lemma LostGrows(g: Group, s: PbftNet, l: Letter, s': PbftNet)
    requires Next(g, s, Deliver(l), s') && l.dst !in g.active
    ensures FlagsGrow(g, s, s') && s'.delivered == s.delivered + {l}
  {
  }

  lemma DeliverGrows(g: Group, s: PbftNet, l: Letter, s': PbftNet)
    requires Next(g, s, Deliver(l), s') && TallyOf(l) !in s.counted
    ensures Grows(g, s, s') && Answered(g, s', l) && s'.delivered == s.delivered + {l}
  {
    RoundsGrow(g, s, Deliver(l), s');
    if l.dst in g.active {
      OpenGrows(g, s, l, s');
    } else {
      LostGrows(g, s, l, s');
    }
    FlagsAndRounds(g, s, s', l);
  }

  lemma AnnouncedDeliver(g: Group, s: PbftNet, l: Letter, s': PbftNet)
    requires Next(g, s, Deliver(l), s') && AllAnnounced(s)
    ensures AllAnnounced(s')
  {
    if l.dst in g.active {
      HandleKeepsRounds(g, Opened(s, l), l);
    }
  }

  lemma CompleteDeliver(g: Group, s: PbftNet, l: Letter, s': PbftNet)
    requires Next(g, s, Deliver(l), s') && RoundInv(g, s) && VoteInv(g, s) && Distinct(s) && CompleteInv(g, s)
    ensures CompleteInv(g, s')
  {
    NotCountedYet(g, s, l);
    DeliverGrows(g, s, l, s');
    GrowsKept(g, s, s');
    AnnouncedDeliver(g, s, l, s');
  }

  lemma CompleteAnnounce(g: Group, s: PbftNet, s': PbftNet)
    requires Next(g, s, Announce, s') && RoundInv(g, s) && CompleteInv(g, s)
    ensures CompleteInv(g, s')
  {
    RoundsGrow(g, s, Announce, s');
    AnnounceEffect(g, s, s');
    GrowsKept(g, s, s');
    assert s'.dequeued == s.dequeued + [s.nodes[VIEW].queue[0]];
  }

  lemma CompletePropose(g: Group, s: PbftNet, req: PbftRequest, s': PbftNet)
    requires Next(g, s, Propose(req), s') && RoundInv(g, s) && VoteInv(g, s) && Distinct(s') && CompleteInv(g, s)
    ensures CompleteInv(g, s')
  {
    RoundsGrow(g, s, Propose(req), s');
    ProposeSame(g, s, req, s');
    GrowsKept(g, s, s');
  }

  lemma CompleteInvNext(g: Group, s: PbftNet, step: Step, s': PbftNet)
    requires Next(g, s, step, s') && RoundInv(g, s) && VoteInv(g, s) && Distinct(s') && CompleteInv(g, s)
    ensures CompleteInv(g, s')
  {
    ProposedGrows(g, s, step, s');
    match step
    case Propose(req) => CompletePropose(g, s, req, s');
    case Announce => CompleteAnnounce(g, s, s');
    case Park => GrowsKept(g, s, s');
    case Deliver(l) => CompleteDeliver(g, s, l, s');
  }

  lemma {:induction false} CompleteInvRun(g: Group, run: seq<PbftNet>, steps: seq<Step>, k: nat)
    requires IsRun(g, run, steps) && k <= |steps| && Distinct(run[k])
    ensures CompleteInv(g, run[k])
  {
    if k > 0 {
      assert Next(g, run[k - 1], steps[k - 1], run[k - 1 + 1]);
      assert run[k - 1 + 1] == run[k];
      ProposedGrows(g, run[k - 1], steps[k - 1], run[k]);
      CompleteInvRun(g, run, steps, k - 1);
      VoteInvRun(g, run, steps, k - 1);
      RoundInvRun(g, run, steps, k - 1);
      CompleteInvNext(g, run[k - 1], steps[k - 1], run[k]);
    }
  }

  // ----- Quiescence ------------------------------------------------------------------------------------------------

  /** A letter for the leader that is not a commit. */
  predicate Held(l: Letter) {
    l.dst == VIEW && l.note.kind != Commit
  }

  /** Nothing is in flight, except perhaps held letters. */
  ghost predicate Quiet(g: Group, s: PbftNet) {
    && RoundInv(g, s) && VoteInv(g, s) && CompleteInv(g, s) && Distinct(s)
    && (forall l :: l in s.flight ==> Held(l))
    && Malicious(g.n) >= 1 && |g.active| >= 2 * Malicious(g.n) + 1
  }

  lemma Arrived(g: Group, s: PbftNet, note: Note, i: NodeId)
    requires Quiet(g, s) && note in s.sent && i in Recipients(g.n, note) && !Held(Letter(note, i))
    ensures Letter(note, i) in s.delivered && Answered(g, s, Letter(note, i))
  {
  }

  function Rest(g: Group, i: NodeId): (r: set<NodeId>)
    requires VIEW in g.active
    ensures forall k :: k in r <==> k in g.active && k != VIEW && k != i
  {
    g.active - {VIEW, i}
  }

  lemma RestSize(g: Group, i: NodeId)
    requires VIEW in g.active && i in g.active
    ensures |Rest(g, i)| == |g.active| - if i == VIEW then 1 else 2
  {
    assert g.active == Rest(g, i) + {VIEW, i};
    if i == VIEW {
      assert {VIEW, i} == {VIEW};
    }
    assert |{VIEW, i}| == if i == VIEW then 1 else 2;
    assert Rest(g, i) !! {VIEW, i};
  }

  lemma AllPrepared(g: Group, s: PbftNet, m: PbftMessage, i: NodeId)
    requires Quiet(g, s) && Note(VIEW, PrePrepare, m) in s.sent && i in g.active && i != VIEW
    ensures Note(i, Prepare, m) in s.sent
  {
    Arrived(g, s, Note(VIEW, PrePrepare, m), i);
  }

  lemma AllBroadcastCommit(g: Group, s: PbftNet, m: PbftMessage, i: NodeId)
    requires Quiet(g, s) && Note(VIEW, PrePrepare, m) in s.sent && i in g.active && i != VIEW
    ensures Note(i, Commit, m) in s.sent
  {
    var d := m.req.digest;
    assert Consistent(g.n, i, FactsOf(s.nodes[i], d));
    if !FactsOf(s.nodes[i], d).flag {
      forall k | k in Rest(g, i)
        ensures k in Voters(s, i, Prepare, d)
      {
        AllPrepared(g, s, m, k);
        Arrived(g, s, Note(k, Prepare, m), i);
        assert Tally(i, Prepare, d, k) in s.counted;
      }
      RestSize(g, i);
      SubsetSize(Rest(g, i), Voters(s, i, Prepare, d));
    }
    assert SentCommit(s, i, d);
    var m': PbftMessage :| m'.req.digest == d && Note(i, Commit, m') in s.sent;
    SameDigestSameMessage(g, s, Note(i, Commit, m'), Note(VIEW, PrePrepare, m));
  }

  lemma AllCommit(g: Group, s: PbftNet, m: PbftMessage, i: NodeId)
    requires Quiet(g, s) && Note(VIEW, PrePrepare, m) in s.sent && i in g.active
    requires m.round >= s.nodes[i].currentRound && |Rest(g, i)| >= 2 * Malicious(g.n)
    ensures (i, m.req.digest) in s.commits
  {
    var d := m.req.digest;
    forall k | k in Rest(g, i)
      ensures k in Voters(s, i, Commit, d)
    {
      AllBroadcastCommit(g, s, m, k);
      Arrived(g, s, Note(k, Commit, m), i);
      assert Tally(i, Commit, d, k) in s.counted;
    }
    SubsetSize(Rest(g, i), Voters(s, i, Commit, d));
    assert Consistent(g.n, i, FactsOf(s.nodes[i], d));
  }

  lemma LeaderHasCommitted(s: PbftNet, r: nat)
    requires |s.nodes| > 0 && RoundKept(s) && r < s.nodes[VIEW].currentRound
    ensures r < |s.dequeued| && (VIEW, s.dequeued[r].digest) in s.commits
  {
    assert Digests(s.leaderDone)[r] == s.dequeued[r].digest;
    assert s.dequeued[r].digest in multiset(Digests(s.leaderDone));
  }

  lemma QuietIsComplete(g: Group, s: PbftNet, r: nat, i: NodeId)
    requires Quiet(g, s) && r < |s.dequeued| && i in g.active && |g.active| >= 2 * Malicious(g.n) + 2
    ensures (i, s.dequeued[r].digest) in s.commits
  {
    var m := PbftMessage(s.dequeued[r], r);
    assert Note(VIEW, PrePrepare, m) in s.sent;
    if r >= s.nodes[i].currentRound {
      RestSize(g, i);
      AllCommit(g, s, m, i);
    } else {
      assert i == VIEW;
      LeaderHasCommitted(s, r);
    }
  }

  /** Whatever the order of delivery, and although the leader drops what is outdated: when nothing is in flight, every
      active node has committed every request the leader announced, if 2f + 2 nodes are active. */
  lemma QuiescentCompleteness(g: Group, run: seq<PbftNet>, steps: seq<Step>, k: nat, r: nat, i: NodeId)
    requires IsRun(g, run, steps) && k <= |steps| && Distinct(run[k]) && run[k].flight == multiset{}
    requires Malicious(g.n) >= 1 && |g.active| >= 2 * Malicious(g.n) + 2
    requires r < |run[k].dequeued| && i in g.active
    ensures (i, run[k].dequeued[r].digest) in run[k].commits
  {
    RoundInvRun(g, run, steps, k);
    VoteInvRun(g, run, steps, k);
    CompleteInvRun(g, run, steps, k);
    QuietIsComplete(g, run[k], r, i);
  }

  /** At most f - 1 silent nodes leave that many. */
  lemma FewSilent(g: Group)
    requires g.Valid() && |Ids(g.n) - g.active| <= Malicious(g.n) - 1
    ensures |g.active| >= 2 * Malicious(g.n) + 2
  {
    assert g.active <= Ids(g.n);
    assert Ids(g.n) == g.active + (Ids(g.n) - g.active);
  }
}
