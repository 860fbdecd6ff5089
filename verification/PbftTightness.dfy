/** PBFT: completeness at quiescence needs exactly 2f + 2 active nodes, one more than remain when f nodes fail.  With
    2f + 1 the leader can commit with the commits of all others before it has counted their prepares; it drops these
    as outdated, never broadcasts its own commit, and the others are one commit short. */
module PbftTightness {

  import opened Common
  import opened Network
  import opened Pbft
  import opened PbftRuns
  import opened PbftCertificates
  import opened PbftCompleteness
  import opened PbftQuiescence

  /** A run without repeated digests has come to rest, and an active node has not committed what the leader took. */
  ghost predicate Incomplete(g: Group, run: seq<PbftNet>, steps: seq<Step>, k: nat, r: nat, i: NodeId) {
    && IsRun(g, run, steps) && k <= |steps| && Distinct(run[k]) && run[k].flight == multiset{}
    && r < |run[k].dequeued| && i in g.active && (i, run[k].dequeued[r].digest) !in run[k].commits
  }

  /** Whoever commits has counted the commits of others that have broadcast one. */
  lemma CommitNeedsVoters(g: Group, run: seq<PbftNet>, steps: seq<Step>, k: nat, i: NodeId, d: Digest,
                          able: set<NodeId>)
    requires IsRun(g, run, steps) && k <= |steps| && Distinct(run[k]) && i in g.active
    requires forall j :: j in g.active && j != i && SentCommit(run[k], j, d) ==> j in able
    requires |able| < 2 * Malicious(g.n)
    ensures (i, d) !in run[k].commits
  {
    if (i, d) in run[k].commits {
      CommitCertificate(g, run, steps, k, i, d);
      SubsetSize(Voters(run[k], i, Commit, d), able);
    }
  }

  /** With 2f active nodes nobody ever commits. */
  lemma FewNeverCommit(g: Group, run: seq<PbftNet>, steps: seq<Step>, k: nat, i: NodeId, d: Digest)
    requires IsRun(g, run, steps) && k <= |steps| && Distinct(run[k]) && i in g.active
    requires |g.active| <= 2 * Malicious(g.n)
    ensures (i, d) !in run[k].commits
  {
    CommitNeedsVoters(g, run, steps, k, i, d, g.active - {i});
  }

  lemma FewStayIncomplete(g: Group) returns (run: seq<PbftNet>, steps: seq<Step>)
    requires g.Valid() && |g.active| <= 2 * Malicious(g.n)
    ensures Incomplete(g, run, steps, |steps|, 0, VIEW)
  {
    run, steps := OneAnnounced(g);
    OneIsDistinct(run[|steps|]);
    run, steps := Drain(g, run, steps, false);
    OneIsDistinct(run[|steps|]);
    FewNeverCommit(g, run, steps, |steps|, VIEW, REQ.digest);
  }

  // ----- With 2f + 1 active nodes the leader can be too fast -------------------------------------------------------

  /** All but the held letters were delivered: the leader has committed, and counted no prepare. */
  lemma LeaderCommitsFirst(g: Group, run: seq<PbftNet>, steps: seq<Step>)
    requires IsRun(g, run, steps) && Typed(g, run[|steps|]) && run[|steps|].dequeued == [REQ] == run[|steps|].proposed
    requires Note(VIEW, PrePrepare, MSG) in run[|steps|].sent && NoneHeldDelivered(run[|steps|])
    requires forall l :: l in run[|steps|].flight ==> Held(l)
    requires Malicious(g.n) >= 1 && |g.active| >= 2 * Malicious(g.n) + 1
    ensures LeaderPast(run[|steps|], REQ.digest)
  {
    var s := run[|steps|];
    OneIsDistinct(s);
    RoundInvRun(g, run, steps, |steps|);
    VoteInvRun(g, run, steps, |steps|);
    CompleteInvRun(g, run, steps, |steps|);
    assert Quiet(g, s);
    RestSize(g, VIEW);
    LeaderHasMoved(g, s);
    NoPrepareCounted(g, s);
  }

  lemma LeaderHasMoved(g: Group, s: PbftNet)
    requires Quiet(g, s) && s.dequeued == [REQ] && Note(VIEW, PrePrepare, MSG) in s.sent
    requires |Rest(g, VIEW)| >= 2 * Malicious(g.n)
    ensures s.nodes[VIEW].currentRound == 1
  {
    if s.nodes[VIEW].currentRound == 0 {
      NothingDone(s, REQ.digest);
      AllCommit(g, s, MSG, VIEW);
    }
  }

  lemma NothingDone(s: PbftNet, d: Digest)
    requires |s.nodes| > 0 && RoundKept(s) && s.nodes[VIEW].currentRound == 0
    ensures (VIEW, d) !in s.commits
  {
    assert Digests(s.leaderDone) == [];
  }

  lemma NoPrepareCounted(g: Group, s: PbftNet)
    requires VoteInv(g, s) && NoneHeldDelivered(s) && VIEW in g.active
    ensures !FactsOf(s.nodes[VIEW], REQ.digest).flag
  {
    forall t | t in s.counted && t.dst == VIEW
      ensures t.kind != Prepare
    {
      assert Grounded(g, s, t);
      var m: PbftMessage :| m.req.digest == t.digest && Letter(Note(t.src, t.kind, m), t.dst) in s.delivered;
      assert !Held(Letter(Note(t.src, t.kind, m), t.dst));
    }
    assert Voters(s, VIEW, Prepare, REQ.digest) == {};
    assert FactsOf(s.nodes[VIEW], REQ.digest).prepares == 0;
    assert Consistent(g.n, VIEW, FactsOf(s.nodes[VIEW], REQ.digest));
  }

  /** The leader has taken and announced one request, and committed it while its loop has not begun to wait. */
  lemma LeaderTooFast(g: Group) returns (run: seq<PbftNet>, steps: seq<Step>)
    requires g.Valid() && Malicious(g.n) >= 1 && |g.active| >= 2 * Malicious(g.n) + 1
    ensures IsRun(g, run, steps) && Typed(g, run[|steps|]) && run[|steps|].phase == Phase.Announced
    ensures run[|steps|].dequeued == [REQ] == run[|steps|].proposed && LeaderPast(run[|steps|], REQ.digest)
  {
    run, steps := OneAnnounced(g);
    OneIsDistinct(run[|steps|]);
    run, steps := Drain(g, run, steps, true);
    LeaderCommitsFirst(g, run, steps);
  }

  lemma LeaderNeverBroadcasts(g: Group, s: PbftNet, d: Digest)
    requires VoteInv(g, s) && LeaderPast(s, d)
    ensures !SentCommit(s, VIEW, d)
  {
    assert forall m: PbftMessage :: Note(VIEW, Commit, m) in s.sent ==> Caused(g, s, Note(VIEW, Commit, m));
  }

  lemma ExactlyTooFew(g: Group) returns (run: seq<PbftNet>, steps: seq<Step>, i: NodeId)
    requires g.Valid() && Malicious(g.n) >= 1 && |g.active| == 2 * Malicious(g.n) + 1
    ensures Incomplete(g, run, steps, |steps|, 0, i)
  {
    run, steps := LeaderTooFast(g);
    OneIsDistinct(run[|steps|]);
    run, steps := Drain(g, run, steps, false);
    OneIsDistinct(run[|steps|]);
    VoteInvRun(g, run, steps, |steps|);
    LeaderNeverBroadcasts(g, run[|steps|], REQ.digest);
    RestSize(g, VIEW);
    i :| i in Rest(g, VIEW);
    RestSize(g, i);
    CommitNeedsVoters(g, run, steps, |steps|, i, REQ.digest, Rest(g, i));
  }

  /** For every group that tolerates a fault: all runs that come to rest are complete if and only if 2f + 2 nodes are
      active. */
  lemma CompletenessExactly(g: Group)
    requires g.Valid() && Malicious(g.n) >= 1
    ensures |g.active| >= 2 * Malicious(g.n) + 2
      <==> forall run, steps, k, r, i :: !Incomplete(g, run, steps, k, r, i)
  {
    if |g.active| >= 2 * Malicious(g.n) + 2 {
      forall run, steps, k: nat, r: nat, i: NodeId
        ensures !Incomplete(g, run, steps, k, r, i)
      {
        if Incomplete(g, run, steps, k, r, i) {
          QuiescentCompleteness(g, run, steps, k, r, i);
        }
      }
    } else if |g.active| == 2 * Malicious(g.n) + 1 {
      var run, steps, i := ExactlyTooFew(g);
    } else {
      var run, steps := FewStayIncomplete(g);
    }
  }
}
