/** PBFT: when the leader's loop waits for ever.  The signal that a request is committed is lost if the loop has
    announced the request but not begun to wait (handler_pbft.go:252-255, 322-328). */
module PbftStall {

  import opened Common
  import opened Network
  import opened Pbft
  import opened PbftRuns
  import opened PbftCertificates
  import opened PbftCompleteness
  import opened PbftQuiescence
  import opened PbftTightness

  /** The leader waits, and has committed all it took: the signal was lost. */
  ghost predicate Stalled(s: PbftNet)
    requires |s.nodes| > 0
  {
    s.phase == Waiting && s.nodes[VIEW].currentRound == |s.dequeued|
  }

  lemma StalledDeliver(g: Group, s: PbftNet, l: Letter, s': PbftNet)
    requires Next(g, s, Deliver(l), s') && RoundInv(g, s) && Stalled(s)
    ensures |s'.nodes| > 0 && Stalled(s') && s'.dequeued == s.dequeued
  {
    assert l.note in s.sent;
    if l.dst in g.active {
      HandleKeepsRounds(g, Opened(s, l), l);
    }
  }

  lemma StalledNext(g: Group, s: PbftNet, step: Step, s': PbftNet)
    requires Next(g, s, step, s') && RoundInv(g, s) && Stalled(s)
    ensures |s'.nodes| > 0 && Stalled(s') && s'.dequeued == s.dequeued
  {
    if step.Deliver? {
      StalledDeliver(g, s, step.l, s');
    }
  }

  /** Then nothing in flight can ever wake it: it takes no further request. */
  lemma {:induction false} StalledForGood(g: Group, run: seq<PbftNet>, steps: seq<Step>, k: nat, l: nat)
    requires IsRun(g, run, steps) && k <= l <= |steps| && Typed(g, run[k]) && Stalled(run[k])
    ensures Typed(g, run[l]) && Stalled(run[l]) && run[l].dequeued == run[k].dequeued
  {
    RunTyped(g, run, steps, l);
    if k < l {
      StalledForGood(g, run, steps, k, l - 1);
      RoundInvRun(g, run, steps, l - 1);
      StalledNext(g, run[l - 1], steps[l - 1], run[l - 1 + 1]);
      assert run[l - 1 + 1] == run[l];
    }
  }

  // ----- Exactly when ----------------------------------------------------------------------------------------------

  /** Step m is the leader committing while its loop has announced the request but does not wait yet. */
  ghost predicate LosesSignal(run: seq<PbftNet>, steps: seq<Step>, m: nat) {
    && m < |steps| < |run| && |run[m].nodes| > 0 && |run[m + 1].nodes| > 0 && run[m].phase == Phase.Announced
    && run[m + 1].nodes[VIEW].currentRound == run[m].nodes[VIEW].currentRound + 1
  }

  /** That has happened since the last announcement before state k. */
  ghost predicate LostBefore(run: seq<PbftNet>, steps: seq<Step>, k: nat) {
    exists m :: 0 <= m < k && LosesSignal(run, steps, m)
      && forall q :: m < q < k && q < |steps| ==> steps[q] != Announce
  }

  /** The leader has committed the request it works on. */
  ghost predicate Committed(s: PbftNet)
    requires |s.nodes| > 0
  {
    s.nodes[VIEW].currentRound == |s.dequeued|
  }

  /** What a step does to the leader's progress while its loop is not about to take a request. */
  ghost predicate Progresses(s: PbftNet, step: Step, s': PbftNet)
    requires |s.nodes| > 0 && |s'.nodes| > 0
  {
    if step == Announce then
      s.phase == AtDequeue && s'.phase == Phase.Announced && !Committed(s')
    else
      && s'.dequeued == s.dequeued
      && (s'.phase == AtDequeue || s.phase == s'.phase || (s.phase == Phase.Announced && s'.phase == Waiting))
      && (|| s'.nodes[VIEW].currentRound == s.nodes[VIEW].currentRound
          || (s'.nodes[VIEW].currentRound == s.nodes[VIEW].currentRound + 1
              && (s.phase == Waiting ==> s'.phase == AtDequeue)
              && (s.phase != Waiting ==> s'.phase == s.phase)))
  }

  lemma DeliverProgresses(g: Group, s: PbftNet, l: Letter, s': PbftNet)
    requires Next(g, s, Deliver(l), s') && RoundInv(g, s)
    ensures |s'.nodes| > 0 && Progresses(s, Deliver(l), s')
  {
    if l.dst in g.active {
      HandleKeepsRounds(g, Opened(s, l), l);
    }
  }

  lemma StepProgresses(g: Group, s: PbftNet, step: Step, s': PbftNet)
    requires Next(g, s, step, s') && RoundInv(g, s)
    ensures |s'.nodes| > 0 && Progresses(s, step, s')
  {
    if step.Deliver? {
      DeliverProgresses(g, s, step.l, s');
    }
  }

  lemma LostNext(run: seq<PbftNet>, steps: seq<Step>, k: nat)
    requires 0 < k <= |steps| < |run|
    ensures LostBefore(run, steps, k) <==>
      LosesSignal(run, steps, k - 1) || (steps[k - 1] != Announce && LostBefore(run, steps, k - 1))
  {
    if LosesSignal(run, steps, k - 1) {
      assert LostBefore(run, steps, k);
    }
    if steps[k - 1] != Announce && LostBefore(run, steps, k - 1) {
      var m :| 0 <= m < k - 1 && LosesSignal(run, steps, m)
        && forall q :: m < q < k - 1 && q < |steps| ==> steps[q] != Announce;
      assert LostBefore(run, steps, k);
    }
    if LostBefore(run, steps, k) {
      var m :| 0 <= m < k && LosesSignal(run, steps, m)
        && forall q :: m < q < k && q < |steps| ==> steps[q] != Announce;
      assert m < k - 1 ==> LostBefore(run, steps, k - 1);
    }
  }

  ghost predicate Loses(s: PbftNet, s': PbftNet)
    requires |s.nodes| > 0 && |s'.nodes| > 0
  {
    s.phase == Phase.Announced && s'.nodes[VIEW].currentRound == s.nodes[VIEW].currentRound + 1
  }

  lemma CommittedStep(s: PbftNet, step: Step, s': PbftNet)
    requires |s.nodes| > 0 && |s'.nodes| > 0 && RoundKept(s) && RoundKept(s') && Progresses(s, step, s')
    requires s'.phase != AtDequeue
    ensures Committed(s') <==> Loses(s, s') || (step != Announce && Committed(s))
    ensures step != Announce ==> s.phase != AtDequeue
  {
  }

  lemma KeptAt(g: Group, run: seq<PbftNet>, steps: seq<Step>, k: nat)
    requires IsRun(g, run, steps) && k <= |steps|
    ensures Typed(g, run[k]) && RoundKept(run[k])
  {
    RoundInvRun(g, run, steps, k);
  }

  lemma ProgressesAt(g: Group, run: seq<PbftNet>, steps: seq<Step>, k: nat)
    requires IsRun(g, run, steps) && k < |steps|
    ensures |run[k].nodes| > 0 && |run[k + 1].nodes| > 0 && Progresses(run[k], steps[k], run[k + 1])
  {
    RoundInvRun(g, run, steps, k);
    StepProgresses(g, run[k], steps[k], run[k + 1]);
  }

  lemma CommittedAfter(run: seq<PbftNet>, steps: seq<Step>, k: nat)
    requires k < |steps| < |run| && |run[k].nodes| > 0 && |run[k + 1].nodes| > 0
    requires RoundKept(run[k]) && RoundKept(run[k + 1]) && Progresses(run[k], steps[k], run[k + 1])
    requires run[k + 1].phase != AtDequeue
    ensures steps[k] != Announce ==> run[k].phase != AtDequeue
    ensures Committed(run[k + 1]) <==> LosesSignal(run, steps, k) || (steps[k] != Announce && Committed(run[k]))
  {
    CommittedStep(run[k], steps[k], run[k + 1]);
  }

  lemma CommittedAt(g: Group, run: seq<PbftNet>, steps: seq<Step>, k: nat)
    requires IsRun(g, run, steps) && k < |steps| && run[k + 1].phase != AtDequeue
    ensures Typed(g, run[k]) && Typed(g, run[k + 1]) && (steps[k] != Announce ==> run[k].phase != AtDequeue)
    ensures Committed(run[k + 1]) <==> LosesSignal(run, steps, k) || (steps[k] != Announce && Committed(run[k]))
  {
    KeptAt(g, run, steps, k);
    KeptAt(g, run, steps, k + 1);
    ProgressesAt(g, run, steps, k);
    CommittedAfter(run, steps, k);
  }

  /** Once the leader has announced a request and until it takes the next: it has committed it exactly if the signal
      was lost. */
  ghost predicate LostIfCommitted(run: seq<PbftNet>, steps: seq<Step>, k: nat)
    requires k < |run| && |run[k].nodes| > 0
  {
    run[k].phase != AtDequeue ==> (Committed(run[k]) <==> LostBefore(run, steps, k))
  }

  lemma LostIfCommittedNext(g: Group, run: seq<PbftNet>, steps: seq<Step>, k: nat)
    requires IsRun(g, run, steps) && k < |steps| && Typed(g, run[k]) && LostIfCommitted(run, steps, k)
    ensures Typed(g, run[k + 1]) && LostIfCommitted(run, steps, k + 1)
  {
    KeptAt(g, run, steps, k + 1);
    LostNext(run, steps, k + 1);
    if run[k + 1].phase != AtDequeue {
      CommittedAt(g, run, steps, k);
    }
  }

  lemma {:induction false} CommittedExactly(g: Group, run: seq<PbftNet>, steps: seq<Step>, k: nat)
    requires IsRun(g, run, steps) && k <= |steps|
    ensures Typed(g, run[k]) && LostIfCommitted(run, steps, k)
  {
    if k > 0 {
      CommittedExactly(g, run, steps, k - 1);
      LostIfCommittedNext(g, run, steps, k - 1);
      assert k - 1 + 1 == k;
    }
  }

  /** A waiting leader is stalled if and only if it committed the request it waits for before it began to wait. */
  lemma StalledExactly(g: Group, run: seq<PbftNet>, steps: seq<Step>, k: nat)
    requires IsRun(g, run, steps) && k <= |steps| && run[k].phase == Waiting
    ensures Typed(g, run[k]) && (Stalled(run[k]) <==> LostBefore(run, steps, k))
  {
    CommittedExactly(g, run, steps, k);
  }

  // ----- And that it does ------------------------------------------------------------------------------------------

  /** A run without repeated digests that stalls. */
  ghost predicate StallsIn(g: Group, run: seq<PbftNet>, steps: seq<Step>) {
    IsRun(g, run, steps) && Distinct(run[|steps|]) && |run[|steps|].nodes| > 0 && Stalled(run[|steps|])
  }

  lemma Stalls(g: Group) returns (run: seq<PbftNet>, steps: seq<Step>)
    requires g.Valid() && Malicious(g.n) >= 1 && |g.active| >= 2 * Malicious(g.n) + 1
    ensures StallsIn(g, run, steps)
  {
    run, steps := LeaderTooFast(g);
    run, steps := Extend(g, run, steps, Park, run[|steps|].(phase := Waiting));
  }

  lemma NeverStalls(g: Group, run: seq<PbftNet>, steps: seq<Step>)
    requires g.Valid() && Malicious(g.n) >= 1 && |g.active| <= 2 * Malicious(g.n)
    ensures !StallsIn(g, run, steps)
  {
    if StallsIn(g, run, steps) {
      RoundInvRun(g, run, steps, |steps|);
      FewNeverCommit(g, run, steps, |steps|, VIEW, run[|steps|].dequeued[0].digest);
      LeaderHasCommitted(run[|steps|], 0);
    }
  }

  /** The loop can come to wait for ever exactly in the groups in which the leader can commit at all. */
  lemma StallPossibleExactly(g: Group)
    requires g.Valid() && Malicious(g.n) >= 1
    ensures |g.active| >= 2 * Malicious(g.n) + 1 <==> exists run, steps :: StallsIn(g, run, steps)
  {
    if |g.active| >= 2 * Malicious(g.n) + 1 {
      var run, steps := Stalls(g);
    } else {
      forall run, steps
        ensures !StallsIn(g, run, steps)
      {
        NeverStalls(g, run, steps);
      }
    }
  }
}
