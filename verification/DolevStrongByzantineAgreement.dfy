/** Exactly when all honest nodes decide alike under arbitrary faults. */
module DolevStrongByzantineAgreement {

  import opened Common
  import opened DolevStrong
  import opened Network
  import opened DolevStrongRuns
  import opened DolevStrongAgreement
  import opened DolevStrongByzantine

  // ----- At tick f + 1 the extracted sets are equal, and final -----------------------------------------------------

  lemma HonestProposal(a: Attack, s: DSNet, v: Value, i: NodeId)
    requires ByzInv(a, s) && VIEW in a.u.active && a.u.HonestView(v) && i in a.u.active
    ensures s.nodes[i].extrSet <= {v}
    ensures a.u.c.At(1) <= s.now ==> s.nodes[i].extrSet == {v}
  {
    forall w | w in s.nodes[i].extrSet
      ensures w == v
    {
      assert w in a.u.Values();
    }
    var q :| q in a.u.sent && q.dst == i;
  }

  lemma NothingOnItsWay(a: Attack, s: DSNet, v: Value, i: NodeId)
    requires ByzInv(a, s) && CommitTime(a.u.c) <= s.now
    ensures !SentInTime(a.u, s, i, v)
  {
    AtNext(a.u.c, a.u.c.malicious);
    assert forall p :: p in s.forwards ==> a.u.c.At(a.u.c.malicious) < p.sentAt;
  }

  /** A value one honest node holds at tick f + 1 is held by all. */
  lemma HeldByAll(a: Attack, s: DSNet, v: Value, i: NodeId)
    requires a.Valid() && ByzInv(a, s) && CommitTime(a.u.c) <= s.now
    requires HeldByHonest(a.u, s, v) && i in a.u.active
    ensures v in s.nodes[i].extrSet
  {
    if VIEW in a.u.active {
      AtMonotone(a.u.c, 1, a.u.c.malicious + 1);
      var w :| a.u.HonestView(w);
      var h :| h in a.u.active && v in s.nodes[h].extrSet;
      HonestProposal(a, s, w, h);
      HonestProposal(a, s, w, i);
    } else {
      NothingOnItsWay(a, s, v, i);
    }
  }

  /** All honest extracted sets are equal from tick f + 1 on. */
  lemma SetsEqual(a: Attack, s: DSNet, i: NodeId, j: NodeId)
    requires a.Valid() && ByzInv(a, s) && CommitTime(a.u.c) <= s.now && i in a.u.active && j in a.u.active
    ensures s.nodes[i].extrSet == s.nodes[j].extrSet
  {
    forall v
      ensures v in s.nodes[i].extrSet <==> v in s.nodes[j].extrSet
    {
      if v in s.nodes[i].extrSet {
        HeldByAll(a, s, v, j);
      } else if v in s.nodes[j].extrSet {
        HeldByAll(a, s, v, i);
      }
    }
  }

  lemma ByzArrivesLate(a: Attack, s: DSNet, dst: NodeId, m: SigList)
    requires a.Valid() && a.Guarded() && ByzInv(a, s) && CommitTime(a.u.c) <= s.now
    requires dst in a.u.active && Authentic(a.u, s, m) && (a.timely ==> Forwards(a.u.c, s.now, |m.sigs|))
    ensures m.req.content in s.nodes[dst].extrSet
  {
    if VIEW in a.u.active {
      var w :| a.u.HonestView(w);
      AtMonotone(a.u.c, 1, a.u.c.malicious + 1);
      HonestProposal(a, s, w, dst);
    } else if HeldByHonest(a.u, s, m.req.content) {
      HeldByAll(a, s, m.req.content, dst);
    } else {
      FirstAcceptor(a, s, dst, m);
      AtNext(a.u.c, a.u.c.malicious);
    }
  }

  lemma HonestArrivesLate(a: Attack, s: DSNet, p: Packet<SigList>)
    requires a.Valid() && ByzInv(a, s) && CommitTime(a.u.c) <= s.now && p in s.forwards && p.dst in a.u.active
    ensures p.msg.Content() in s.nodes[p.dst].extrSet
  {
    ArrivalIsHeld(a, s, p);
    HeldByAll(a, s, p.msg.Content(), p.dst);
  }

  lemma NoLateProposals(a: Attack, s: DSNet)
    requires a.Valid() && OnTime(a.u, s) && CommitTime(a.u.c) <= s.now
    ensures s.proposals == multiset{} && !Forwards(a.u.c, s.now, 1)
  {
    AtMonotone(a.u.c, 1, a.u.c.malicious + 1);
    TickBefore(a.u.c, s.now, 1);
  }

  /** What a step takes in, and at which node. */
  ghost predicate Takes(a: Attack, s: DSNet, step: ByzStep, i: NodeId, v: Value) {
    match step
    case ByzPropose(dst, req) => i == dst && v == req.content
    case ByzForward(dst, m) => i == dst && v == m.req.content
    case Honest(h) =>
      || (h.Propose? && h.q.dst == i && v == h.q.req.content)
      || (h.Forward? && h.p.dst == i && v == h.p.msg.Content())
  }

  lemma HonestTakes(u: Setup, s: DSNet, h: Step, s': DSNet, i: NodeId)
    requires Next(u, s, h, s') && i in u.active
    requires h.Propose? && h.q.dst == i ==> h.q.req.content in s.nodes[i].extrSet
    requires h.Forward? && h.p.dst == i ==> h.p.msg.Content() in s.nodes[i].extrSet
    ensures |s'.nodes| == |s.nodes| && s'.nodes[i].extrSet == s.nodes[i].extrSet
  {
    if h.Propose? && h.q.dst in u.active {
      ReceiveNodes(u, s.(proposals := s.proposals - multiset{h.q}), h.q.dst,
                   OnPropose(u.c, h.q.dst, s.now, s.nodes[h.q.dst], h.q.req));
    } else if h.Forward? && h.p.dst in u.active {
      ReceiveNodes(u, s.(forwards := s.forwards - multiset{h.p}), h.p.dst,
                   OnForward(u.c, h.p.dst, s.now, s.nodes[h.p.dst], h.p.msg));
    }
  }

  lemma OnlyWhatItTakes(a: Attack, s: DSNet, step: ByzStep, s': DSNet, i: NodeId)
    requires ByzNext(a, s, step, s') && i in a.u.active
    requires forall v :: Takes(a, s, step, i, v) ==> v in s.nodes[i].extrSet
    ensures |s'.nodes| == |s.nodes| && s'.nodes[i].extrSet == s.nodes[i].extrSet
  {
    match step
    case ByzPropose(dst, req) =>
      assert Takes(a, s, step, dst, req.content);
      ReceiveNodes(a.u, s, dst, OnPropose(a.u.c, dst, s.now, s.nodes[dst], req));
    case ByzForward(dst, m) =>
      assert Takes(a, s, step, dst, m.req.content);
      ReceiveNodes(a.u, s, dst, OnForward(a.u.c, dst, s.now, s.nodes[dst], m));
    case Honest(h) =>
      assert h.Propose? ==> Takes(a, s, step, h.q.dst, h.q.req.content);
      assert h.Forward? ==> Takes(a, s, step, h.p.dst, h.p.msg.Content());
      HonestTakes(a.u, s, h, s', i);
  }

  /** No honest extracted set changes after tick f + 1. */
  lemma ByzSetsFinal(a: Attack, s: DSNet, step: ByzStep, s': DSNet, i: NodeId)
    requires a.Valid() && a.Guarded() && ByzInv(a, s) && CommitTime(a.u.c) <= s.now
    requires ByzNext(a, s, step, s') && i in a.u.active
    ensures |s'.nodes| == |s.nodes| && s'.nodes[i].extrSet == s.nodes[i].extrSet
  {
    NoLateProposals(a, s);
    forall v | Takes(a, s, step, i, v)
      ensures v in s.nodes[i].extrSet
    {
      if step.ByzForward? {
        ByzArrivesLate(a, s, step.dst, step.msg);
      } else if step.Honest? && step.step.Forward? {
        HonestArrivesLate(a, s, step.step.p);
      }
    }
    OnlyWhatItTakes(a, s, step, s', i);
  }

  // ----- Decisions -------------------------------------------------------------------------------------------------

  lemma ByzCommitValueKept(a: Attack, s: DSNet, step: ByzStep, s': DSNet, i: NodeId)
    requires ByzNext(a, s, step, s') && step != Honest(Fire(i)) && i in a.u.active
    ensures |s'.nodes| == |s.nodes| && s'.nodes[i].commitValue == s.nodes[i].commitValue
    ensures i in s'.pending <==> i in s.pending
    ensures s.now <= s'.now
  {
    if step.Honest? {
      CommitValueKept(a.u, s, step.step, s', i);
    }
  }

  lemma ByzFires(a: Attack, s: DSNet, s': DSNet, i: NodeId)
    requires ByzNext(a, s, Honest(Fire(i)), s')
    ensures |s'.nodes| == |s.nodes| && s'.nodes[i].commitValue == Decide(s'.nodes[i].extrSet)
    ensures CommitTime(a.u.c) <= s.now == s'.now
  {
  }

  lemma ByzDecisionsStandNext(a: Attack, s: DSNet, step: ByzStep, s': DSNet)
    requires a.Valid() && a.Guarded() && ByzInv(a, s) && ByzNext(a, s, step, s') && Typed(a.u, s')
    requires DecisionsStand(a.u, s)
    ensures DecisionsStand(a.u, s')
  {
    forall i: NodeId | Decided(a.u, s', i)
      ensures CommitTime(a.u.c) <= s'.now && s'.nodes[i].commitValue == Decide(s'.nodes[i].extrSet)
    {
      if step == Honest(Fire(i)) {
        ByzFires(a, s, s', i);
      } else {
        ByzCommitValueKept(a, s, step, s', i);
        assert Decided(a.u, s, i);
        ByzSetsFinal(a, s, step, s', i);
      }
    }
  }

  lemma HonestTyped(u: Setup, s: DSNet, h: Step, s': DSNet)
    requires Next(u, s, h, s')
    ensures Typed(u, s')
  {
  }

  lemma ByzTypedNext(a: Attack, s: DSNet, step: ByzStep, s': DSNet)
    requires ByzNext(a, s, step, s')
    ensures Typed(a.u, s')
  {
    match step
    case ByzPropose(dst, req) => ReceiveNodes(a.u, s, dst, OnPropose(a.u.c, dst, s.now, s.nodes[dst], req));
    case ByzForward(dst, m) => ReceiveNodes(a.u, s, dst, OnForward(a.u.c, dst, s.now, s.nodes[dst], m));
    case Honest(h) => HonestTyped(a.u, s, h, s');
  }

  lemma {:induction false} ByzRunTyped(a: Attack, run: seq<DSNet>, steps: seq<ByzStep>, k: nat)
    requires IsAttackRun(a, run, steps) && k <= |steps|
    ensures Typed(a.u, run[k])
  {
    if k > 0 {
      ByzTypedNext(a, run[k - 1], steps[k - 1], run[k - 1 + 1]);
    }
  }

  lemma ByzDecisionsStandStep(a: Attack, run: seq<DSNet>, steps: seq<ByzStep>, k: nat)
    requires IsAttackRun(a, run, steps) && a.Guarded() && k < |steps|
    requires Typed(a.u, run[k]) && DecisionsStand(a.u, run[k])
    ensures Typed(a.u, run[k + 1]) && DecisionsStand(a.u, run[k + 1])
  {
    ByzRunTyped(a, run, steps, k + 1);
    ByzInvRun(a, run, steps, k);
    ByzDecisionsStandNext(a, run[k], steps[k], run[k + 1]);
  }

  lemma {:induction false} ByzDecisionsStandRun(a: Attack, run: seq<DSNet>, steps: seq<ByzStep>, k: nat)
    requires IsAttackRun(a, run, steps) && a.Guarded() && k <= |steps|
    ensures Typed(a.u, run[k]) && DecisionsStand(a.u, run[k])
  {
    if k == 0 {
      assert forall i: NodeId :: !Decided(a.u, run[0], i);
    } else {
      ByzDecisionsStandRun(a, run, steps, k - 1);
      ByzDecisionsStandStep(a, run, steps, k - 1);
    }
  }

  lemma {:induction false} ByzDecisionKept(a: Attack, run: seq<DSNet>, steps: seq<ByzStep>, k: nat, l: nat, i: NodeId)
    requires IsAttackRun(a, run, steps) && k <= l <= |steps| && i in a.u.active && i !in run[k].pending
    ensures Typed(a.u, run[k]) && Typed(a.u, run[l])
    ensures i !in run[l].pending && run[l].nodes[i].commitValue == run[k].nodes[i].commitValue
  {
    ByzRunTyped(a, run, steps, k);
    ByzRunTyped(a, run, steps, l);
    if k < l {
      ByzDecisionKept(a, run, steps, k, l - 1, i);
      assert ByzNext(a, run[l - 1], steps[l - 1], run[l - 1 + 1]);
      ByzCommitValueKept(a, run[l - 1], steps[l - 1], run[l], i);
    }
  }

  lemma ByzDecisionsAgree(a: Attack, s: DSNet, i: NodeId, j: NodeId)
    requires a.Valid() && ByzInv(a, s) && DecisionsStand(a.u, s) && Decided(a.u, s, i) && Decided(a.u, s, j)
    ensures s.nodes[i].commitValue == s.nodes[j].commitValue
  {
    SetsEqual(a, s, i, j);
  }

  /** Two honest nodes, in two moments of a run, have decided differently. */
  ghost predicate Disagree(a: Attack, run: seq<DSNet>, steps: seq<ByzStep>, k: nat, l: nat, i: NodeId, j: NodeId) {
    && IsAttackRun(a, run, steps) && k <= |steps| && l <= |steps| && Typed(a.u, run[k]) && Typed(a.u, run[l])
    && Decided(a.u, run[k], i) && Decided(a.u, run[l], j)
    && run[k].nodes[i].commitValue != run[l].nodes[j].commitValue
  }

  /** With timely messages, or an honest view node, honest nodes never disagree. */
  lemma ByzantineAgreement(a: Attack, run: seq<DSNet>, steps: seq<ByzStep>, k: nat, l: nat, i: NodeId, j: NodeId)
    requires a.Guarded()
    ensures !Disagree(a, run, steps, k, l, i, j)
  {
    if Disagree(a, run, steps, k, l, i, j) {
      var m := if k < l then l else k;
      ByzDecisionKept(a, run, steps, k, m, i);
      ByzDecisionKept(a, run, steps, l, m, j);
      ByzDecisionsStandRun(a, run, steps, m);
      ByzInvRun(a, run, steps, m);
      ByzDecisionsAgree(a, run[m], i, j);
    }
  }

  /** Whatever the others do, honest nodes decide on an honest view node's proposal. */
  lemma ByzantineValidity(a: Attack, run: seq<DSNet>, steps: seq<ByzStep>, k: nat, i: NodeId, v: Value)
    requires IsAttackRun(a, run, steps) && VIEW in a.u.active && a.u.HonestView(v)
    requires k <= |steps| && i in a.u.active && i !in run[k].pending
    ensures Typed(a.u, run[k]) && run[k].nodes[i].commitValue == v
  {
    ByzDecisionsStandRun(a, run, steps, k);
    ByzInvRun(a, run, steps, k);
    assert Decided(a.u, run[k], i);
    AtMonotone(a.u.c, 1, a.u.c.malicious + 1);
    HonestProposal(a, run[k], v, i);
  }

  // ----- Late messages break agreement -----------------------------------------------------------------------------

  lemma Extend(a: Attack, run: seq<DSNet>, steps: seq<ByzStep>, step: ByzStep, s': DSNet)
    requires IsAttackRun(a, run, steps) && ByzNext(a, run[|steps|], step, s')
    ensures IsAttackRun(a, run + [s'], steps + [step])
  {
  }

  /** The state in which nothing has happened but the clock. */
  function Quiet(a: Attack, now: nat): DSNet {
    DSNet(now, seq(a.u.c.nodeNum, i => DSState({}, "")), a.u.sent, multiset{}, a.u.active)
  }

  lemma {:induction false} QuietRun(a: Attack, t: nat) returns (run: seq<DSNet>, steps: seq<ByzStep>)
    requires a.Valid() && VIEW !in a.u.active && t <= CommitTime(a.u.c)
    ensures IsAttackRun(a, run, steps) && |steps| == t && run[t] == Quiet(a, t)
  {
    if t == 0 {
      run, steps := [Quiet(a, 0)], [];
    } else {
      run, steps := QuietRun(a, t - 1);
      Extend(a, run, steps, Honest(Tick), Quiet(a, t));
      run, steps := run + [Quiet(a, t)], steps + [Honest(Tick)];
    }
  }

  /** The view node's bare signature on "1". */
  function LateMessage(): SigList {
    SigList(Request("1", Single(VIEW, "1")), [Single(VIEW, "1")], [VIEW])
  }

  function Late(a: Attack, s: DSNet, i: NodeId): DSNet
    requires i < |s.nodes|
  {
    s.(nodes := s.nodes[i := s.nodes[i].(extrSet := {"1"})])
  }

  function Fired(s: DSNet, i: NodeId): DSNet
    requires i < |s.nodes|
  {
    s.(nodes := s.nodes[i := OnCommitTimer(s.nodes[i])], pending := s.pending - {i})
  }

  /** Delivered when the decisions are due, it is accepted but not passed on. */
  lemma LateIsAccepted(a: Attack, i: NodeId)
    requires a.Valid() && !a.timely && VIEW !in a.u.active && i in a.u.active
    ensures var s := Quiet(a, CommitTime(a.u.c)); ByzNext(a, s, ByzForward(i, LateMessage()), Late(a, s, i))
  {
    var s := Quiet(a, CommitTime(a.u.c));
    FaultyView(a, s);
    AtMonotone(a.u.c, 1, a.u.c.malicious + 1);
    TickBefore(a.u.c, s.now, 1);
    var o := OnForward(a.u.c, i, s.now, s.nodes[i], LateMessage());
    assert o.sent == None;
    assert o.state == DSState({"1"}, "");
    assert s.forwards + multiset{} == s.forwards;
  }

  /** The last two steps: both commit timers fire. */
  lemma BothFire(a: Attack, run: seq<DSNet>, steps: seq<ByzStep>, i: NodeId, j: NodeId)
    returns (run': seq<DSNet>, steps': seq<ByzStep>)
    requires IsAttackRun(a, run, steps) && i in a.u.active && j in a.u.active && i != j
    requires Typed(a.u, run[|steps|]) && CommitTime(a.u.c) <= run[|steps|].now
    requires i in run[|steps|].pending && j in run[|steps|].pending
    ensures IsAttackRun(a, run', steps') && run'[|steps'|] == Fired(Fired(run[|steps|], i), j)
  {
    var s := run[|steps|];
    Extend(a, run, steps, Honest(Fire(i)), Fired(s, i));
    run', steps' := run + [Fired(s, i)], steps + [Honest(Fire(i))];
    Extend(a, run', steps', Honest(Fire(j)), Fired(Fired(s, i), j));
    run', steps' := run' + [Fired(Fired(s, i), j)], steps' + [Honest(Fire(j))];
  }

  lemma LateDecisions(s: DSNet, i: NodeId, j: NodeId)
    requires i < |s.nodes| && j < |s.nodes| && i != j && s.nodes[i].extrSet == {"1"} && s.nodes[j].extrSet == {}
    ensures var s' := Fired(Fired(s, i), j); s'.nodes[i].commitValue == "1" && s'.nodes[j].commitValue == "0"
  {
    assert |{"1"}| == 1;
  }

  /** Without the deadline two honest nodes can decide differently: one of them gets a message too late for the other.
      */
  lemma LateMessageBreaks(a: Attack, i: NodeId, j: NodeId) returns (run: seq<DSNet>, steps: seq<ByzStep>)
    requires a.Valid() && !a.timely && VIEW !in a.u.active && i in a.u.active && j in a.u.active && i != j
    ensures Disagree(a, run, steps, |steps|, |steps|, i, j)
  {
    var t := CommitTime(a.u.c);
    run, steps := QuietRun(a, t);
    var s := Late(a, Quiet(a, t), i);
    LateIsAccepted(a, i);
    Extend(a, run, steps, ByzForward(i, LateMessage()), s);
    run, steps := run + [s], steps + [ByzForward(i, LateMessage())];
    run, steps := BothFire(a, run, steps, i, j);
    LateDecisions(s, i, j);
  }

  /** A single honest node does not disagree with itself. */
  lemma AloneAgrees(a: Attack, run: seq<DSNet>, steps: seq<ByzStep>, k: nat, l: nat, i: NodeId, j: NodeId)
    requires |a.u.active| <= 1
    ensures !Disagree(a, run, steps, k, l, i, j)
  {
    if Disagree(a, run, steps, k, l, i, j) {
      SubsetSize({i, j}, a.u.active);
      assert i == j;
      var m := if k < l then l else k;
      ByzDecisionKept(a, run, steps, k, m, i);
      ByzDecisionKept(a, run, steps, l, m, i);
    }
  }

  /** Honest nodes always decide alike if and only if messages are timely, the view node is honest, or there are no
      two honest nodes to disagree. */
  lemma AgreementExactly(a: Attack)
    requires a.Valid()
    ensures (a.timely || VIEW in a.u.active || |a.u.active| <= 1)
      <==> forall run, steps, k, l, i, j :: !Disagree(a, run, steps, k, l, i, j)
  {
    if !a.Guarded() && |a.u.active| > 1 {
      var i: NodeId :| i in a.u.active;
      assert |a.u.active - {i}| == |a.u.active| - 1;
      var j: NodeId :| j in a.u.active - {i};
      var run, steps := LateMessageBreaks(a, i, j);
    } else if a.Guarded() {
      forall run, steps, k: nat, l: nat, i: NodeId, j: NodeId
        ensures !Disagree(a, run, steps, k, l, i, j)
      {
        ByzantineAgreement(a, run, steps, k, l, i, j);
      }
    } else {
      forall run, steps, k: nat, l: nat, i: NodeId, j: NodeId
        ensures !Disagree(a, run, steps, k, l, i, j)
      {
        AloneAgrees(a, run, steps, k, l, i, j);
      }
    }
  }
}
