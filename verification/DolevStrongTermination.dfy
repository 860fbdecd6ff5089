/** Flooding terminates: every delivery uses up some of a potential that nothing restores. */
module DolevStrongTermination {

  import opened Common
  import opened DolevStrong
  import opened Network
  import opened DolevStrongRuns

  /** The proposed values node i has not extracted. */
  function Lacks(u: Setup, s: DSState, i: NodeId): nat {
    if i in u.active then |u.Values() - s.extrSet| else 0
  }

  /** The pairs of an active node below k and a proposed value it has not extracted. */
  function Missing(u: Setup, nodes: seq<DSState>, k: nat): nat
    requires k <= |nodes|
  {
    if k == 0 then 0 else Missing(u, nodes, k - 1) + Lacks(u, nodes[k - 1], k - 1)
  }

  /** A proposal, or a missing value, can still cause a broadcast to all other nodes. */
  function Potential(u: Setup, s: DSNet): nat
    requires |s.nodes| == u.c.nodeNum
  {
    u.c.nodeNum * (|s.proposals| + Missing(u, s.nodes, u.c.nodeNum)) + |s.forwards|
  }

  predicate Delivers(step: Step) {
    step.Propose? || step.Forward?
  }

  function Deliveries(steps: seq<Step>): nat {
    if steps == [] then 0 else Deliveries(steps[..|steps| - 1]) + if Delivers(steps[|steps| - 1]) then 1 else 0
  }

  // ----- Sizes -----------------------------------------------------------------------------------------------------

  lemma {:induction false} MissingSame(u: Setup, a: seq<DSState>, b: seq<DSState>, k: nat)
    requires k <= |a| && k <= |b| && forall j :: 0 <= j < k ==> a[j].extrSet == b[j].extrSet
    ensures Missing(u, a, k) == Missing(u, b, k)
  {
    if k > 0 {
      MissingSame(u, a, b, k - 1);
    }
  }

  lemma {:induction false} MissingDrops(u: Setup, a: seq<DSState>, b: seq<DSState>, k: nat, i: NodeId, w: Value)
    requires i < k <= |a| && |b| == |a| && forall j :: 0 <= j < |a| && j != i ==> a[j] == b[j]
    requires i in u.active && w in u.Values() && w !in a[i].extrSet && b[i].extrSet == a[i].extrSet + {w}
    ensures Missing(u, b, k) == Missing(u, a, k) - 1
  {
    if i == k - 1 {
      MissingSame(u, a, b, k - 1);
      assert u.Values() - a[i].extrSet == (u.Values() - b[i].extrSet) + {w};
    } else {
      MissingDrops(u, a, b, k - 1, i, w);
    }
  }

  lemma {:induction false} MissingBound(u: Setup, nodes: seq<DSState>, k: nat)
    requires k <= |nodes|
    ensures Missing(u, nodes, k) <= k * |u.Values()|
  {
    if k > 0 {
      MissingBound(u, nodes, k - 1);
      SubsetSize(u.Values() - nodes[k - 1].extrSet, u.Values());
      assert k * |u.Values()| == (k - 1) * |u.Values()| + |u.Values()|;
    }
  }

  // ----- One step --------------------------------------------------------------------------------------------------

  lemma Weigh(n: nat, a: nat, b: nat, x: nat, y: nat)
    requires n > 0 && a < b && x <= y + (n - 1)
    ensures n * a + x < n * b + y
  {
    MulMonotone(a + 1, b, n);
  }

  lemma PotentialDrops(u: Setup, s: DSNet, s': DSNet)
    requires |s.nodes| == |s'.nodes| == u.c.nodeNum > 0
    requires
      var a, b :=
        |s'.proposals| + Missing(u, s'.nodes, u.c.nodeNum), |s.proposals| + Missing(u, s.nodes, u.c.nodeNum);
      (a < b && |s'.forwards| <= |s.forwards| + (u.c.nodeNum - 1)) || (a == b && |s'.forwards| < |s.forwards|)
    ensures Potential(u, s') < Potential(u, s)
  {
    var a, b := |s'.proposals| + Missing(u, s'.nodes, u.c.nodeNum), |s.proposals| + Missing(u, s.nodes, u.c.nodeNum);
    if a < b {
      Weigh(u.c.nodeNum, a, b, |s'.forwards|, |s.forwards|);
    }
  }

  /** Taking in a value never adds missing pairs, and takes one away if the value is new. */
  lemma MissingAfter(u: Setup, s: DSNet, s': DSNet, i: NodeId, w: Value, out: Option<SigList>)
    requires TookIn(u, s, s', i, w, out) && i in u.active && w in u.Values()
    ensures var gone := if w in s.nodes[i].extrSet then 0 else 1;
      Missing(u, s'.nodes, u.c.nodeNum) == Missing(u, s.nodes, u.c.nodeNum) - gone
  {
    if w in s.nodes[i].extrSet {
      assert s'.nodes[i].extrSet == s.nodes[i].extrSet;
      MissingSame(u, s.nodes, s'.nodes, u.c.nodeNum);
    } else {
      MissingDrops(u, s.nodes, s'.nodes, u.c.nodeNum, i, w);
    }
  }

  lemma ProposalSizes(u: Setup, s: DSNet, q: Proposal, s': DSNet)
    requires Next(u, s, Propose(q), s')
    ensures |s'.proposals| == |s.proposals| - 1
    ensures q.dst !in u.active ==> s'.nodes == s.nodes && |s'.forwards| == |s.forwards|
    ensures |s'.forwards| <= |s.forwards| + (u.c.nodeNum - 1)
  {
    if q.dst in u.active {
      BroadcastSize(u.c.nodeNum, q.dst, s.now, OnPropose(u.c, q.dst, s.now, s.nodes[q.dst], q.req).sent);
    }
  }

  lemma ForwardSizes(u: Setup, s: DSNet, p: Packet<SigList>, s': DSNet)
    requires Next(u, s, Forward(p), s')
    ensures s'.proposals == s.proposals
    ensures p.dst !in u.active ==> s'.nodes == s.nodes
    ensures p.dst in u.active && p.msg.Content() !in s.nodes[p.dst].extrSet ==>
      |s'.forwards| <= |s.forwards| - 1 + (u.c.nodeNum - 1)
    ensures !(p.dst in u.active && p.msg.Content() !in s.nodes[p.dst].extrSet) ==> |s'.forwards| == |s.forwards| - 1
  {
    if p.dst in u.active {
      BroadcastSize(u.c.nodeNum, p.dst, s.now, OnForward(u.c, p.dst, s.now, s.nodes[p.dst], p.msg).sent);
    }
  }

  lemma ProposalUsed(u: Setup, s: DSNet, q: Proposal, s': DSNet)
    requires Next(u, s, Propose(q), s') && Typed(u, s') && q.req.content in u.Values()
    ensures Potential(u, s') < Potential(u, s)
  {
    ProposalSizes(u, s, q, s');
    if q.dst in u.active {
      ProposeTookIn(u, s, q);
      MissingAfter(u, s, s', q.dst, q.req.content, OnPropose(u.c, q.dst, s.now, s.nodes[q.dst], q.req).sent);
    }
    PotentialDrops(u, s, s');
  }

  lemma ForwardUsed(u: Setup, s: DSNet, p: Packet<SigList>, s': DSNet)
    requires Next(u, s, Forward(p), s') && Typed(u, s') && p.msg.Content() in u.Values()
    ensures Potential(u, s') < Potential(u, s)
  {
    ForwardSizes(u, s, p, s');
    if p.dst in u.active {
      ForwardTookIn(u, s, p);
      MissingAfter(u, s, s', p.dst, p.msg.Content(), OnForward(u.c, p.dst, s.now, s.nodes[p.dst], p.msg).sent);
    }
    PotentialDrops(u, s, s');
  }

  lemma TimeIsFree(u: Setup, s: DSNet, step: Step, s': DSNet)
    requires Next(u, s, step, s') && Typed(u, s') && !Delivers(step)
    ensures Potential(u, s') == Potential(u, s)
  {
    MissingSame(u, s.nodes, s'.nodes, u.c.nodeNum);
  }

  lemma PotentialNext(u: Setup, s: DSNet, step: Step, s': DSNet)
    requires Inv(u, s) && Next(u, s, step, s') && Typed(u, s')
    ensures if Delivers(step) then Potential(u, s') < Potential(u, s) else Potential(u, s') == Potential(u, s)
  {
    if step.Propose? {
      ProposalUsed(u, s, step.q, s');
    } else if step.Forward? {
      ForwardIsHeld(u, s, step.p);
      ForwardUsed(u, s, step.p, s');
    } else {
      TimeIsFree(u, s, step, s');
    }
  }

  lemma PotentialBound(n: nat, proposals: nat, missing: nat, values: nat)
    requires missing <= n * values
    ensures n * (proposals + missing) <= n * (proposals + n * values)
  {
    MulMonotone(proposals + missing, proposals + n * values, n);
  }

  lemma FirstPotential(u: Setup, s: DSNet)
    requires Init(u, s)
    ensures Potential(u, s) <= u.c.nodeNum * (|u.sent| + u.c.nodeNum * |u.Values()|)
  {
    var m := Missing(u, s.nodes, u.c.nodeNum);
    MissingBound(u, s.nodes, u.c.nodeNum);
    assert Potential(u, s) == u.c.nodeNum * (|u.sent| + m);
    PotentialBound(u.c.nodeNum, |u.sent|, m, |u.Values()|);
  }

  // ----- Runs ------------------------------------------------------------------------------------------------------

  lemma PotentialStep(u: Setup, run: seq<DSNet>, steps: seq<Step>, k: nat)
    requires IsRun(u, run, steps) && k < |steps|
    ensures Typed(u, run[k]) && Typed(u, run[k + 1])
    ensures Potential(u, run[k + 1]) + (if Delivers(steps[k]) then 1 else 0) <= Potential(u, run[k])
  {
    RunTyped(u, run, steps, k + 1);
    InvRun(u, run, steps, k);
    PotentialNext(u, run[k], steps[k], run[k + 1]);
  }

  lemma {:induction false} PotentialSpent(u: Setup, run: seq<DSNet>, steps: seq<Step>, k: nat)
    requires IsRun(u, run, steps) && k <= |steps|
    ensures Typed(u, run[0]) && Typed(u, run[k])
    ensures Deliveries(steps[..k]) + Potential(u, run[k]) <= Potential(u, run[0])
  {
    if k > 0 {
      PotentialSpent(u, run, steps, k - 1);
      PotentialStep(u, run, steps, k - 1);
      assert steps[..k][..k - 1] == steps[..k - 1];
      assert run[k - 1 + 1] == run[k];
    }
  }

  /** However long a run goes on, the number of messages delivered in it is bounded by the proposals alone. */
  lemma FloodingTerminates(u: Setup, run: seq<DSNet>, steps: seq<Step>)
    requires IsRun(u, run, steps)
    ensures Deliveries(steps) <= u.c.nodeNum * (|u.sent| + u.c.nodeNum * |u.Values()|)
  {
    PotentialSpent(u, run, steps, |steps|);
    assert steps[..|steps|] == steps;
    FirstPotential(u, run[0]);
  }
}
