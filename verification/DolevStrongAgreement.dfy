/** What the runs of DolevStrongRuns guarantee: deadlines, signature chains, agreement and validity. */
module DolevStrongAgreement {

  import opened Common
  import opened DolevStrong
  import opened Network
  import opened DolevStrongRuns

  /** Whatever is delivered at any moment of a run is delivered in time to be passed on: no wait loop ever spins. */
  lemma DeadlineMet(u: Setup, run: seq<DSNet>, steps: seq<Step>, k: nat)
    requires IsRun(u, run, steps) && k <= |steps|
    ensures forall q :: q in run[k].proposals ==> Forwards(u.c, run[k].now, 1)
    ensures forall p :: p in run[k].forwards ==> Forwards(u.c, run[k].now, |p.msg.sigs|)
  {
    InvRun(u, run, steps, k);
    var s := run[k];
    TickBefore(u.c, s.now, 1);
    forall p | p in s.forwards
      ensures Forwards(u.c, s.now, |p.msg.sigs|)
    {
      assert Chained(u, s, p);
      AtNext(u.c, |p.msg.sigs| - 1);
      TickBefore(u.c, s.now, |p.msg.sigs|);
    }
  }

  /** Every message in flight lists the proposer and then active nodes, none but the view node twice, each with its
      signature on the value and the value in its extracted set. */
  lemma ChainsAreSigned(u: Setup, run: seq<DSNet>, steps: seq<Step>, k: nat, p: Packet<SigList>)
    requires IsRun(u, run, steps) && k <= |steps| && p in run[k].forwards
    ensures |p.msg.sigs| == |p.msg.nodes| >= 2 && p.msg.nodes[0] == VIEW && p.msg.sigs[0] == p.msg.req.sig
    ensures forall a :: 1 <= a < |p.msg.nodes| ==>
        && p.msg.nodes[a] in u.active && p.msg.nodes[a] < |run[k].nodes|
        && p.msg.sigs[a] == Single(p.msg.nodes[a], p.msg.Content())
        && p.msg.Content() in run[k].nodes[p.msg.nodes[a]].extrSet
    ensures forall a, b :: 0 <= a < b < |p.msg.nodes| && p.msg.nodes[a] == p.msg.nodes[b] ==> p.msg.nodes[a] == VIEW
  {
    InvRun(u, run, steps, k);
    assert Chained(u, run[k], p);
  }

  // ----- After two ticks the extracted sets are final --------------------------------------------------------------

  /** From the last moment before tick 2 on, every active node holds whatever some active node other than the view
      node holds: what left within the first tick has arrived. */
  lemma FloodComplete(u: Setup, s: DSNet, i: NodeId, j: NodeId)
    requires Inv(u, s) && u.c.At(2) <= s.now + 1
    requires i in u.active && i != VIEW && j in u.active
    ensures s.nodes[i].extrSet <= s.nodes[j].extrSet
  {
    assert forall p :: p in s.forwards ==> u.c.tickInterval <= p.sentAt;
    assert forall v :: !Carried(u, s, j, v);
  }

  /** An honest view node's proposal is the only value anywhere, and from tick 1 on everyone has it. */
  lemma HonestSets(u: Setup, s: DSNet, v: Value, i: NodeId)
    requires Inv(u, s) && u.HonestView(v) && i in u.active
    ensures s.nodes[i].extrSet <= {v}
    ensures u.c.At(1) <= s.now ==> s.nodes[i].extrSet == {v}
  {
    forall w | w in s.nodes[i].extrSet
      ensures w == v
    {
      assert w in u.Values();
    }
    var q :| q in u.sent && q.dst == i;
  }

  /** When decisions are due: two ticks have passed but for a last moment, or one if the view node is honest. */
  ghost predicate Due(u: Setup, now: nat) {
    u.c.At(2) <= now + 1 || (u.c.At(1) <= now && exists v :: u.HonestView(v))
  }

  /** By then every message still in flight carries a value its receiver has. */
  lemma NothingNewArrives(u: Setup, s: DSNet, p: Packet<SigList>)
    requires Inv(u, s) && p in s.forwards && p.dst in u.active && Due(u, s.now)
    ensures p.msg.Content() in s.nodes[p.dst].extrSet
  {
    ForwardIsHeld(u, s, p);
    var h :| h in u.active && h != VIEW && p.msg.Content() in s.nodes[h].extrSet;
    if u.c.At(2) <= s.now + 1 {
      FloodComplete(u, s, h, p.dst);
    } else {
      var v :| u.HonestView(v);
      HonestSets(u, s, v, h);
      HonestSets(u, s, v, p.dst);
    }
  }

  /** What a delivery leaves of an extracted set: the value taken in was there already, or it was taken in elsewhere.
      */
  lemma SameSet(u: Setup, s: DSNet, step: Step, s': DSNet, i: NodeId)
    requires Next(u, s, step, s') && i in u.active && !step.Propose?
    requires step.Forward? && step.p.dst == i ==> step.p.msg.Content() in s.nodes[i].extrSet
    ensures |s'.nodes| == |s.nodes| && s'.nodes[i].extrSet == s.nodes[i].extrSet
  {
    if step.Forward? && step.p.dst in u.active {
      ReceiveNodes(u, s.(forwards := s.forwards - multiset{step.p}), step.p.dst,
                   OnForward(u.c, step.p.dst, s.now, s.nodes[step.p.dst], step.p.msg));
    }
  }

  /** Once decisions are due no extracted set changes any more. */
  lemma SetsFinal(u: Setup, s: DSNet, step: Step, s': DSNet, i: NodeId)
    requires Inv(u, s) && Next(u, s, step, s') && Due(u, s.now) && i in u.active
    ensures |s'.nodes| == |s.nodes| && s'.nodes[i].extrSet == s.nodes[i].extrSet
  {
    NoProposalsLeft(u, s);
    if step.Forward? && step.p.dst == i {
      NothingNewArrives(u, s, step.p);
    }
    SameSet(u, s, step, s', i);
  }

  lemma NoProposalsLeft(u: Setup, s: DSNet)
    requires Typed(u, s) && OnTime(u, s) && Due(u, s.now)
    ensures forall q :: q !in s.proposals
  {
    AtMonotone(u.c, 1, 2);
  }

  // ----- Decisions -------------------------------------------------------------------------------------------------

  /** What the protocol needs: a tolerated fault, a tick so short that nothing sent in it is late, or an honest view
      node. */
  ghost predicate Resilient(u: Setup) {
    u.c.malicious >= 1 || u.c.tickInterval == 1 || exists v :: u.HonestView(v)
  }

  ghost predicate Decided(u: Setup, s: DSNet, i: NodeId)
    requires Typed(u, s)
  {
    i in u.active && i !in s.pending
  }

  /** Decisions are made on time, and still stand for the extracted set they were made from. */
  ghost predicate DecisionsStand(u: Setup, s: DSNet)
    requires Typed(u, s)
  {
    forall i: NodeId :: Decided(u, s, i) ==>
      CommitTime(u.c) <= s.now && s.nodes[i].commitValue == Decide(s.nodes[i].extrSet)
  }

  lemma DueAtCommitTime(u: Setup, now: nat)
    requires u.Valid() && Resilient(u) && CommitTime(u.c) <= now
    ensures Due(u, now)
  {
    AtMonotone(u.c, 1, u.c.malicious + 1);
    if u.c.malicious >= 1 {
      AtMonotone(u.c, 2, u.c.malicious + 1);
    }
  }

  lemma DecisionStands(u: Setup, s: DSNet, step: Step, s': DSNet, i: NodeId)
    requires Inv(u, s) && Next(u, s, step, s') && Resilient(u) && Decided(u, s, i) && step != Fire(i)
    requires CommitTime(u.c) <= s.now && s.nodes[i].commitValue == Decide(s.nodes[i].extrSet)
    ensures |s'.nodes| == |s.nodes| && s'.nodes[i].commitValue == Decide(s'.nodes[i].extrSet)
  {
    DueAtCommitTime(u, s.now);
    SetsFinal(u, s, step, s', i);
    CommitValueKept(u, s, step, s', i);
  }

  lemma DecisionFires(u: Setup, s: DSNet, s': DSNet, i: NodeId)
    requires Inv(u, s) && Next(u, s, Fire(i), s')
    ensures |s'.nodes| == |s.nodes| && s'.nodes[i].commitValue == Decide(s'.nodes[i].extrSet)
    ensures CommitTime(u.c) <= s.now
  {
  }

  lemma DecidedBefore(u: Setup, s: DSNet, step: Step, s': DSNet, i: NodeId)
    requires Next(u, s, step, s') && Typed(u, s') && Decided(u, s', i) && step != Fire(i)
    ensures Decided(u, s, i) && s.now <= s'.now
  {
  }

  lemma DecisionsStandNext(u: Setup, s: DSNet, step: Step, s': DSNet)
    requires Inv(u, s) && Next(u, s, step, s') && Typed(u, s') && Resilient(u) && DecisionsStand(u, s)
    ensures DecisionsStand(u, s')
  {
    forall i: NodeId | Decided(u, s', i)
      ensures CommitTime(u.c) <= s'.now && s'.nodes[i].commitValue == Decide(s'.nodes[i].extrSet)
    {
      if step == Fire(i) {
        DecisionFires(u, s, s', i);
      } else {
        DecidedBefore(u, s, step, s', i);
        DecisionStands(u, s, step, s', i);
      }
    }
  }

  lemma ReceivedValueKept(u: Setup, s: DSNet, step: Step, s': DSNet, i: NodeId)
    requires Next(u, s, step, s') && (step.Propose? || step.Forward?) && i in u.active
    ensures s'.nodes[i].commitValue == s.nodes[i].commitValue && s'.pending == s.pending
  {
    if step.Propose? && step.q.dst in u.active {
      ReceiveNodes(u, s.(proposals := s.proposals - multiset{step.q}), step.q.dst,
                   OnPropose(u.c, step.q.dst, s.now, s.nodes[step.q.dst], step.q.req));
    } else if step.Forward? && step.p.dst in u.active {
      ReceiveNodes(u, s.(forwards := s.forwards - multiset{step.p}), step.p.dst,
                   OnForward(u.c, step.p.dst, s.now, s.nodes[step.p.dst], step.p.msg));
    }
  }

  lemma CommitValueKept(u: Setup, s: DSNet, step: Step, s': DSNet, i: NodeId)
    requires Next(u, s, step, s') && step != Fire(i) && i in u.active
    ensures s'.nodes[i].commitValue == s.nodes[i].commitValue
    ensures i in s'.pending <==> i in s.pending
  {
    if step.Propose? || step.Forward? {
      ReceivedValueKept(u, s, step, s', i);
    }
  }

  lemma DecisionsStandStep(u: Setup, run: seq<DSNet>, steps: seq<Step>, k: nat)
    requires IsRun(u, run, steps) && Resilient(u) && k < |steps| && Typed(u, run[k]) && DecisionsStand(u, run[k])
    ensures Typed(u, run[k + 1]) && DecisionsStand(u, run[k + 1])
  {
    RunTyped(u, run, steps, k + 1);
    InvRun(u, run, steps, k);
    DecisionsStandNext(u, run[k], steps[k], run[k + 1]);
  }

  lemma {:induction false} DecisionsStandRun(u: Setup, run: seq<DSNet>, steps: seq<Step>, k: nat)
    requires IsRun(u, run, steps) && Resilient(u) && k <= |steps|
    ensures Typed(u, run[k]) && DecisionsStand(u, run[k])
  {
    if k == 0 {
      assert forall i: NodeId :: !Decided(u, run[0], i);
    } else {
      DecisionsStandRun(u, run, steps, k - 1);
      DecisionsStandStep(u, run, steps, k - 1);
    }
  }

  /** A decision is never changed. */
  lemma {:induction false} DecisionKept(u: Setup, run: seq<DSNet>, steps: seq<Step>, k: nat, l: nat, i: NodeId)
    requires IsRun(u, run, steps) && k <= l <= |steps| && i in u.active && i !in run[k].pending
    ensures Typed(u, run[k]) && Typed(u, run[l])
    ensures i !in run[l].pending && run[l].nodes[i].commitValue == run[k].nodes[i].commitValue
  {
    RunTyped(u, run, steps, k);
    RunTyped(u, run, steps, l);
    if k < l {
      DecisionKept(u, run, steps, k, l - 1, i);
      CommitValueKept(u, run[l - 1], steps[l - 1], run[l - 1 + 1], i);
    }
  }

  lemma DecisionsAgree(u: Setup, s: DSNet, i: NodeId, j: NodeId)
    requires Inv(u, s) && DecisionsStand(u, s) && Resilient(u) && Decided(u, s, i) && Decided(u, s, j)
    requires (exists v :: u.HonestView(v)) || (i != VIEW && j != VIEW)
    ensures s.nodes[i].commitValue == s.nodes[j].commitValue
  {
    DueAtCommitTime(u, s.now);
    AtMonotone(u.c, 1, 2);
    if v :| u.HonestView(v) {
      HonestSets(u, s, v, i);
      HonestSets(u, s, v, j);
    } else {
      FloodComplete(u, s, i, j);
      FloodComplete(u, s, j, i);
      assert s.nodes[i].extrSet == s.nodes[j].extrSet;
    }
  }

  /** All decisions of a run agree, except perhaps those of a view node that equivocated. */
  lemma CommitAgreement(u: Setup, run: seq<DSNet>, steps: seq<Step>, k: nat, l: nat, i: NodeId, j: NodeId)
    requires IsRun(u, run, steps) && Resilient(u) && k <= |steps| && l <= |steps|
    requires i in u.active && i !in run[k].pending && j in u.active && j !in run[l].pending
    requires (exists v :: u.HonestView(v)) || (i != VIEW && j != VIEW)
    ensures Typed(u, run[k]) && Typed(u, run[l])
    ensures run[k].nodes[i].commitValue == run[l].nodes[j].commitValue
  {
    var m := if k < l then l else k;
    DecisionKept(u, run, steps, k, m, i);
    DecisionKept(u, run, steps, l, m, j);
    DecisionsStandRun(u, run, steps, m);
    InvRun(u, run, steps, m);
    DecisionsAgree(u, run[m], i, j);
  }

  /** An honest view node's proposal is what everyone decides. */
  lemma CommitValidity(u: Setup, run: seq<DSNet>, steps: seq<Step>, k: nat, i: NodeId, v: Value)
    requires IsRun(u, run, steps) && u.HonestView(v) && k <= |steps| && i in u.active && i !in run[k].pending
    ensures Typed(u, run[k]) && run[k].nodes[i].commitValue == v
  {
    DecisionsStandRun(u, run, steps, k);
    InvRun(u, run, steps, k);
    assert Decided(u, run[k], i);
    AtMonotone(u.c, 1, u.c.malicious + 1);
    HonestSets(u, run[k], v, i);
  }

  // ----- What is decided -------------------------------------------------------------------------------------------

  /** The value is the only one of the set, or "0" if the set has none or several. */
  predicate OnlyOrZero(vs: set<Value>, value: Value) {
    vs == {value} || (|vs| != 1 && value == "0")
  }

  /** A commit timer that fires leaves the node committed to the only value it has extracted, or to "0". */
  lemma FireDecides(u: Setup, run: seq<DSNet>, steps: seq<Step>, k: nat, i: NodeId)
    requires IsRun(u, run, steps) && k < |steps| && steps[k] == Fire(i)
    ensures Typed(u, run[k]) && Typed(u, run[k + 1]) && i in run[k].pending && i !in run[k + 1].pending
    ensures OnlyOrZero(run[k].nodes[i].extrSet, run[k + 1].nodes[i].commitValue)
    ensures run[k + 1].nodes[i].extrSet == run[k].nodes[i].extrSet
  {
    RunTyped(u, run, steps, k);
    RunTyped(u, run, steps, k + 1);
  }

  /** And that is true of it at all later times. */
  lemma DecisionIs(u: Setup, run: seq<DSNet>, steps: seq<Step>, k: nat, i: NodeId)
    requires IsRun(u, run, steps) && Resilient(u) && k <= |steps| && i in u.active && i !in run[k].pending
    ensures Typed(u, run[k]) && OnlyOrZero(run[k].nodes[i].extrSet, run[k].nodes[i].commitValue)
  {
    DecisionsStandRun(u, run, steps, k);
    assert Decided(u, run[k], i);
  }

  /** The values proposed to these nodes. */
  function OfferedTo(u: Setup, dsts: set<NodeId>): (vs: set<Value>)
    ensures forall v :: v in vs <==> exists q :: q in u.sent && q.dst in dsts && q.req.content == v
  {
    set q | q in u.sent && q.dst in dsts :: q.req.content
  }

  /** The nodes whose proposals reach node i: what only the view node was offered stays there, because it passes
      nothing on. */
  function Sources(u: Setup, i: NodeId): set<NodeId> {
    if i == VIEW then u.active else u.active - {VIEW}
  }

  ghost predicate HeldWasOffered(u: Setup, s: DSNet)
    requires Typed(u, s)
  {
    forall i, v :: i in u.active && v in s.nodes[i].extrSet ==> v in OfferedTo(u, Sources(u, i))
  }

  lemma HeldTakes(u: Setup, s: DSNet, s': DSNet, i: NodeId, w: Value, out: Option<SigList>)
    requires TookIn(u, s, s', i, w, out) && HeldWasOffered(u, s) && w in OfferedTo(u, Sources(u, i))
    ensures HeldWasOffered(u, s')
  {
  }

  lemma HeldPropose(u: Setup, s: DSNet, q: Proposal, s': DSNet)
    requires Inv(u, s) && Next(u, s, Propose(q), s') && HeldWasOffered(u, s) && q.dst in u.active
    ensures Typed(u, s') && HeldWasOffered(u, s')
  {
    ProposeTookIn(u, s, q);
    HeldTakes(u, s, s', q.dst, q.req.content, OnPropose(u.c, q.dst, s.now, s.nodes[q.dst], q.req).sent);
  }

  lemma HeldForward(u: Setup, s: DSNet, p: Packet<SigList>, s': DSNet)
    requires Inv(u, s) && Next(u, s, Forward(p), s') && HeldWasOffered(u, s) && p.dst in u.active
    ensures Typed(u, s') && HeldWasOffered(u, s')
  {
    ForwardTookIn(u, s, p);
    ForwardIsHeld(u, s, p);
    HeldTakes(u, s, s', p.dst, p.msg.Content(), OnForward(u.c, p.dst, s.now, s.nodes[p.dst], p.msg).sent);
  }

  lemma HeldWasOfferedNext(u: Setup, s: DSNet, step: Step, s': DSNet)
    requires Inv(u, s) && Next(u, s, step, s') && HeldWasOffered(u, s)
    ensures Typed(u, s') && HeldWasOffered(u, s')
  {
    if step.Propose? && step.q.dst in u.active {
      HeldPropose(u, s, step.q, s');
    } else if step.Forward? && step.p.dst in u.active {
      HeldForward(u, s, step.p, s');
    } else {
      OtherTookNothing(u, s, step, s');
    }
  }

  lemma {:induction false} HeldWasOfferedRun(u: Setup, run: seq<DSNet>, steps: seq<Step>, k: nat)
    requires IsRun(u, run, steps) && k <= |steps|
    ensures Typed(u, run[k]) && HeldWasOffered(u, run[k])
  {
    RunTyped(u, run, steps, k);
    if k > 0 {
      HeldWasOfferedRun(u, run, steps, k - 1);
      InvRun(u, run, steps, k - 1);
      HeldWasOfferedNext(u, run[k - 1], steps[k - 1], run[k - 1 + 1]);
      assert run[k - 1 + 1] == run[k];
    }
  }

  lemma OfferedIsHeld(u: Setup, s: DSNet, i: NodeId, q: Proposal)
    requires Inv(u, s) && Due(u, s.now) && i in u.active && q in u.sent && q.dst in Sources(u, i)
    ensures q.req.content in s.nodes[i].extrSet
  {
    NoProposalsLeft(u, s);
    assert q.req.content in s.nodes[q.dst].extrSet;
    if u.c.At(2) <= s.now + 1 {
      if q.dst != VIEW {
        FloodComplete(u, s, q.dst, i);
      }
    } else {
      var v :| u.HonestView(v);
      HonestSets(u, s, v, i);
    }
  }

  /** When decisions are due a node has extracted exactly what was proposed to its sources. */
  lemma SetsExactly(u: Setup, run: seq<DSNet>, steps: seq<Step>, k: nat, i: NodeId)
    requires IsRun(u, run, steps) && k <= |steps| && i in u.active && Due(u, run[k].now)
    ensures Typed(u, run[k]) && run[k].nodes[i].extrSet == OfferedTo(u, Sources(u, i))
  {
    InvRun(u, run, steps, k);
    HeldWasOfferedRun(u, run, steps, k);
    forall v | v in OfferedTo(u, Sources(u, i))
      ensures v in run[k].nodes[i].extrSet
    {
      var q :| q in u.sent && q.dst in Sources(u, i) && q.req.content == v;
      OfferedIsHeld(u, run[k], i, q);
    }
  }

  /** So every decision is determined by the proposals alone. */
  lemma DecisionExactly(u: Setup, run: seq<DSNet>, steps: seq<Step>, k: nat, i: NodeId)
    requires IsRun(u, run, steps) && Resilient(u) && k <= |steps| && i in u.active && i !in run[k].pending
    ensures Typed(u, run[k]) && OnlyOrZero(OfferedTo(u, Sources(u, i)), run[k].nodes[i].commitValue)
  {
    DecisionIs(u, run, steps, k, i);
    DecisionsStandRun(u, run, steps, k);
    assert Decided(u, run[k], i);
    InvRun(u, run, steps, k);
    DueAtCommitTime(u, run[k].now);
    SetsExactly(u, run, steps, k, i);
  }

  // ----- Decisions are made ----------------------------------------------------------------------------------------

  lemma PendingNext(u: Setup, s: DSNet, step: Step, s': DSNet)
    requires Next(u, s, step, s') && (s.pending != {} ==> s.now <= CommitTime(u.c))
    ensures s'.pending != {} ==> s'.now <= CommitTime(u.c)
  {
  }

  lemma {:induction false} PendingOnTime(u: Setup, run: seq<DSNet>, steps: seq<Step>, k: nat)
    requires IsRun(u, run, steps) && k <= |steps|
    ensures run[k].pending != {} ==> run[k].now <= CommitTime(u.c)
  {
    if k > 0 {
      PendingOnTime(u, run, steps, k - 1);
      PendingNext(u, run[k - 1], steps[k - 1], run[k - 1 + 1]);
    }
  }

  /** Once tick f + 1 is past every active node has decided. */
  lemma DecidedInTime(u: Setup, run: seq<DSNet>, steps: seq<Step>, k: nat, i: NodeId)
    requires IsRun(u, run, steps) && k <= |steps| && i in u.active && run[k].now > CommitTime(u.c)
    ensures i !in run[k].pending
  {
    PendingOnTime(u, run, steps, k);
  }

  /** And a run can always go on. */
  lemma NeverStuck(u: Setup, s: DSNet)
    requires Typed(u, s)
    ensures exists step, s' :: Next(u, s, step, s')
  {
    var step: Step;
    if q :| q in s.proposals {
      step := Propose(q);
    } else if p :| p in s.forwards {
      step := Forward(p);
    } else if i :| i in s.pending && CommitTime(u.c) <= s.now {
      step := Fire(i);
    } else {
      step := Tick;
    }
    assert Next(u, s, step, Apply(u, s, step));
  }
}
