/** TBB terminates: with an honest view node every active node ends up committed to its proposal. */
module TbbTermination {

  import opened Common
  import opened Network
  import opened Tbb
  import opened TbbRuns
  import opened TbbAgreement
  import DolevStrong
  import DS = DolevStrongRuns
  import DSA = DolevStrongAgreement
  import BB = DeltaBBRuns
  import BBA = DeltaBBAgreement
  import TbbQueries

  // ----- Timers fire on time ---------------------------------------------------------------------------------------

  ghost predicate TimersKept(u: Setup, s: TbbNet) {
    && (s.ds.pending != {} ==> s.ds.now <= DolevStrong.CommitTime(u.c))
    && (s.check2 != {} ==> s.ds.now <= Check2At(u.c))
    && (s.point3 != {} ==> s.ds.now <= Point3At(u.c))
  }

  lemma PendingNext(u: Setup, s: DS.DSNet, d: DS.Step, s': DS.DSNet)
    requires DS.Next(u, s, d, s')
    ensures s'.pending <= s.pending && s'.now == s.now + if d.Tick? then 1 else 0
    ensures d.Tick? && s.pending != {} ==> s.now < DolevStrong.CommitTime(u.c)
  {
  }

  lemma TimersKeptNext(u: Setup, s: TbbNet, step: Step, s': TbbNet)
    requires Next(u, s, step, s') && TimersKept(u, s)
    ensures TimersKept(u, s')
  {
    Parts(u, s, step, s');
    LocalsNext(u, s, step, s');
    assert step.Tick? ==> MayTick(u, s);
    match DSPart(step)
    case Some(d) => PendingNext(u, s.ds, d, s'.ds);
    case None =>
  }

  // ----- The second reference value and the last slot --------------------------------------------------------------

  /** A node past the second reference point has v as reference, and one past the last commit point has committed it.
      */
  ghost predicate Settles(u: Setup, s: TbbNet, i: NodeId, v: Value)
    requires Typed(u, s) && i in u.active
  {
    && (i !in s.check2 ==> s.locals[i].reference2 == v)
    && (i !in s.point3 ==> s.locals[i].slots[2] == v)
  }

  ghost predicate EndInv(u: Setup, s: TbbNet, v: Value) {
    && TbbInv(u, s) && DSA.DecisionsStand(u, s.ds) && TimersKept(u, s)
    && (forall i :: i in u.active ==> Settles(u, s, i, v))
  }

  lemma EndTimes(c: Config)
    requires c.Valid() && c.Quorum() >= 2
    ensures DolevStrong.CommitTime(c) < Check2At(c) < Point3At(c) && c.At(1) <= Check2At(c)
  {
    MulMonotone(c.malicious + 2, c.nodeNum, c.tickInterval);
    MulMonotone(1, c.nodeNum, c.tickInterval);
    assert c.T2() + 1 == c.nodeNum;
  }

  /** At the second reference point Dolev-Strong has decided, on the honest proposal. */
  lemma Check2Refers(u: Setup, s: TbbNet, i: NodeId, v: Value)
    requires EndInv(u, s, v) && u.HonestView(v) && u.c.Quorum() >= 2 && i in u.active && Check2At(u.c) <= s.ds.now
    ensures OnReference2(s.locals[i], s.ds.nodes[i]).reference2 == v
  {
    EndTimes(u.c);
    assert s.ds.pending == {};
    assert DSA.Decided(u, s.ds, i);
    DSA.HonestSets(u, s.ds, v, i);
  }

  /** At the last commit point the node takes the certified value, which is v, or the reference, which is v. */
  lemma Point3Commits(u: Setup, s: TbbNet, i: NodeId, v: Value)
    requires EndInv(u, s, v) && u.HonestView(v) && v != "" && u.c.Quorum() >= 2 && i in u.active
    requires Point3At(u.c) <= s.ds.now
    ensures OnCommitPoint3(s.locals[i], s.bb.nodes[i]).slots[2] == v
  {
    EndTimes(u.c);
    assert i !in s.check2;
    assert Settles(u, s, i, v);
    if |s.bb.nodes[i].blckSet| == 1 {
      var w := TheOnly(s.bb.nodes[i].blckSet);
      assert w in s.bb.nodes[i].blckSet;
      assert Certified(s, w);
      JustifiedIsProposed(u, s, i, w, v);
    }
  }

  lemma ChecksNext(u: Setup, s: TbbNet, step: Step, s': TbbNet, i: NodeId)
    requires Next(u, s, step, s') && i in u.active
    ensures i !in s'.check2 && i in s.check2 ==> step == Check2(i) && Check2At(u.c) <= s.ds.now
    ensures i !in s'.point3 && i in s.point3 ==> step == Point3(i) && Point3At(u.c) <= s.ds.now
  {
  }

  lemma OthersKeep(s: TbbNet, step: Step, i: NodeId)
    requires i < |s.locals| && |s.locals[i].slots| == 3 && |s.ds.nodes| == |s.bb.nodes| == |s.locals|
    ensures var l := LocalAfter(s, step, i);
      && (step != Check2(i) ==> l.reference2 == s.locals[i].reference2)
      && (step != Point3(i) ==> l.slots[2] == s.locals[i].slots[2])
  {
  }

  lemma SettlesNext(u: Setup, s: TbbNet, step: Step, s': TbbNet, i: NodeId, v: Value)
    requires Next(u, s, step, s') && Typed(u, s') && EndInv(u, s, v) && i in u.active
    requires u.HonestView(v) && v != "" && u.c.Quorum() >= 2
    ensures Settles(u, s', i, v)
  {
    LocalsNext(u, s, step, s');
    ChecksNext(u, s, step, s', i);
    OthersKeep(s, step, i);
    assert Settles(u, s, i, v);
    if step == Check2(i) {
      Check2Refers(u, s, i, v);
    } else if step == Point3(i) {
      Point3Commits(u, s, i, v);
    }
  }

  lemma DecisionsNext(u: Setup, s: TbbNet, step: Step, s': TbbNet)
    requires Next(u, s, step, s') && Typed(u, s') && DS.Inv(u, s.ds) && DSA.DecisionsStand(u, s.ds) && DSA.Resilient(u)
    requires DS.Typed(u, s'.ds)
    ensures DSA.DecisionsStand(u, s'.ds)
  {
    Parts(u, s, step, s');
    match DSPart(step)
    case Some(d) => DSA.DecisionsStandNext(u, s.ds, d, s'.ds);
    case None =>
  }

  // ----- Runs ------------------------------------------------------------------------------------------------------

  lemma EndInvInit(u: Setup, s: TbbNet, v: Value)
    requires Init(u, s)
    ensures EndInv(u, s, v)
  {
    TbbInvInit(u, s);
    assert forall i: NodeId :: !DSA.Decided(u, s.ds, i);
    assert 0 <= (u.c.T2() + 1) * u.c.tickInterval && 0 <= (u.c.T2() + 6) * u.c.tickInterval;
  }

  lemma EndInvNext(u: Setup, s: TbbNet, step: Step, s': TbbNet, v: Value)
    requires Next(u, s, step, s') && EndInv(u, s, v) && Protected(u.c) && u.HonestView(v) && v != ""
    ensures EndInv(u, s', v)
  {
    TbbInvNext(u, s, step, s');
    DecisionsNext(u, s, step, s');
    TimersKeptNext(u, s, step, s');
    forall i | i in u.active
      ensures Settles(u, s', i, v)
    {
      SettlesNext(u, s, step, s', i, v);
    }
  }

  lemma {:induction false} EndInvRun(u: Setup, run: seq<TbbNet>, steps: seq<Step>, k: nat, v: Value)
    requires IsRun(u, run, steps) && k <= |steps| && Protected(u.c) && u.HonestView(v) && v != ""
    ensures EndInv(u, run[k], v)
  {
    if k == 0 {
      EndInvInit(u, run[0], v);
    } else {
      EndInvRun(u, run, steps, k - 1, v);
      EndInvNext(u, run[k - 1], steps[k - 1], run[k - 1 + 1], v);
      assert run[k - 1 + 1] == run[k];
    }
  }

  lemma AnswerAtEnd(slots: seq<Value>, v: Value)
    requires |slots| == 3 && v != "" && slots[2] == v && forall x :: 0 <= x < 3 ==> slots[x] in {"", v}
    ensures Answer(slots) == v
  {
    TbbQueries.Answer3(slots);
  }

  /** Once tick t2 + 6 is past, every active node has committed the honest view node's proposal, and answers with it.
      */
  lemma Termination(u: Setup, run: seq<TbbNet>, steps: seq<Step>, k: nat, i: NodeId, v: Value)
    requires IsRun(u, run, steps) && k <= |steps| && Protected(u.c) && u.HonestView(v) && v != "" && i in u.active
    requires run[k].ds.now > Point3At(u.c)
    ensures Typed(u, run[k]) && run[k].locals[i].slots[2] == v && Answer(run[k].locals[i].slots) == v
  {
    EndInvRun(u, run, steps, k, v);
    assert Settles(u, run[k], i, v);
    forall x: nat | x < 3
      ensures run[k].locals[i].slots[x] in {"", v}
    {
      Validity(u, run, steps, k, i, x, v);
    }
    AnswerAtEnd(run[k].locals[i].slots, v);
  }

  // ----- Runs can always go on -------------------------------------------------------------------------------------

  /** Both modules wait for the same proposals. */
  ghost predicate SameProposals(s: TbbNet) {
    s.ds.proposals == s.bb.proposals
  }

  lemma ProposalsDS(u: Setup, s: DS.DSNet, d: DS.Step, s': DS.DSNet)
    requires DS.Next(u, s, d, s')
    ensures s'.proposals == if d.Propose? then s.proposals - multiset{d.q} else s.proposals
  {
  }

  lemma ProposalsArrive(u: Setup, s: BB.DbbNet, b: BB.Step, s': BB.DbbNet)
    requires BB.Typed(u, s) && BB.Arrives(u, s, b, s')
    ensures s'.proposals == if b.Propose? then s.proposals - multiset{b.q} else s.proposals
  {
  }

  lemma ProposalsBB(u: Setup, s: BB.DbbNet, b: BB.Step, s': BB.DbbNet)
    requires BB.Next(Silent(u), s, b, s')
    ensures s'.proposals == if b.Propose? then s.proposals - multiset{b.q} else s.proposals
  {
    if BB.Arrives(u, s, b, s') {
      ProposalsArrive(u, s, b, s');
    }
  }

  lemma SameProposalsNext(u: Setup, s: TbbNet, step: Step, s': TbbNet)
    requires Next(u, s, step, s') && SameProposals(s)
    ensures SameProposals(s')
  {
    Parts(u, s, step, s');
    match DSPart(step) {
      case Some(d) => ProposalsDS(u, s.ds, d, s'.ds);
      case None =>
    }
    match BBPart(step) {
      case Some(b) => ProposalsBB(u, s.bb, b, s'.bb);
      case None =>
    }
  }

  ghost predicate CanMove(u: Setup, s: TbbNet) {
    exists step, s' :: Next(u, s, step, s')
  }

  lemma DSMoves(u: Setup, s: TbbNet, d: DS.Step)
    requires Typed(u, s) && DS.Typed(u, s.ds) && OnlyDS(d) && DS.Enabled(u, s.ds, d)
    ensures CanMove(u, s)
  {
    assert Next(u, s, InDS(d), s.(ds := DS.Apply(u, s.ds, d)));
  }

  lemma BBMoves(u: Setup, s: TbbNet, b: BB.Step)
    requires Typed(u, s) && BB.Typed(u, s.bb) && OnlyBB(b) && BB.Enabled(Silent(u), s.bb, b)
    ensures CanMove(u, s)
  {
    var t: BB.DbbNet;
    if b.Forward1? || b.Vote? || b.Forward2? {
      t := BB.MessageArrives(Silent(u), s.bb, b);
    } else {
      t := BB.TimerFires(Silent(u), s.bb, b);
    }
    assert Next(u, s, InBB(b), s.(bb := t));
  }

  lemma ProposalMoves(u: Setup, s: TbbNet, q: Proposal)
    requires Typed(u, s) && DS.Typed(u, s.ds) && BB.Typed(u, s.bb) && SameProposals(s) && q in s.ds.proposals
    ensures CanMove(u, s)
  {
    var t := BB.MessageArrives(Silent(u), s.bb, BB.Propose(q));
    assert Next(u, s, Propose(q), s.(ds := DS.Apply(u, s.ds, DS.Propose(q)), bb := t));
  }

  lemma TriggerMoves(u: Setup, s: TbbNet, i: NodeId)
    requires Typed(u, s) && BB.Typed(u, s.bb) && i in u.active && s.bb.nodes[i].trigger > 0
    ensures CanMove(u, s)
  {
    var t := BB.TimerFires(Silent(u), s.bb, BB.TakeTrigger(i));
    assert Next(u, s, Point1(i), s.(bb := t, locals := s.locals[i := OnCommitPoint1(s.locals[i], s.bb.nodes[i])]));
  }

  lemma TickMoves(u: Setup, s: TbbNet)
    requires Typed(u, s) && DS.Typed(u, s.ds) && BB.Typed(u, s.bb)
    requires MayTick(u, s) && DS.Enabled(u, s.ds, DS.Tick) && BB.Enabled(Silent(u), s.bb, BB.Tick)
    ensures CanMove(u, s)
  {
    var t := BB.TimerFires(Silent(u), s.bb, BB.Tick);
    assert Next(u, s, Tick, s.(ds := DS.Apply(u, s.ds, DS.Tick), bb := t));
  }

  lemma PointMoves(u: Setup, s: TbbNet)
    requires Typed(u, s) && !MayTick(u, s)
    ensures CanMove(u, s)
  {
    if i :| i in s.check1 && Check1At(u.c) <= s.ds.now {
      assert Next(u, s, Check1(i),
        s.(locals := s.locals[i := OnReference1(s.locals[i], s.ds.nodes[i])], check1 := s.check1 - {i}));
    } else if i :| i in s.check2 && Check2At(u.c) <= s.ds.now {
      assert Next(u, s, Check2(i),
        s.(locals := s.locals[i := OnReference2(s.locals[i], s.ds.nodes[i])], check2 := s.check2 - {i}));
    } else if i :| i in s.point2 && Point2At(u.c) <= s.ds.now {
      assert Next(u, s, Point2(i),
        s.(locals := s.locals[i := OnCommitPoint2(s.locals[i], s.bb.nodes[i])], point2 := s.point2 - {i}));
    } else {
      var i :| i in s.point3 && Point3At(u.c) <= s.ds.now;
      assert Next(u, s, Point3(i),
        s.(locals := s.locals[i := OnCommitPoint3(s.locals[i], s.bb.nodes[i])], point3 := s.point3 - {i}));
    }
  }

  /** In whatever state a run is, some step can be taken: the requirements on time never contradict each other. */
  lemma NeverStuck(u: Setup, s: TbbNet)
    requires Typed(u, s) && DS.Typed(u, s.ds) && BB.Typed(u, s.bb) && SameProposals(s)
    ensures CanMove(u, s)
  {
    if s.ds.proposals != multiset{} {
      var q :| q in s.ds.proposals;
      ProposalMoves(u, s, q);
    } else if p :| p in s.ds.forwards {
      DSMoves(u, s, DS.Forward(p));
    } else if i :| i in s.ds.pending && DolevStrong.CommitTime(u.c) <= s.ds.now {
      DSMoves(u, s, DS.Fire(i));
    } else if !MayTick(u, s) {
      PointMoves(u, s);
    } else {
      var b := BB.SomethingEnabled(u, s.bb);
      if b.TakeTrigger? {
        TriggerMoves(u, s, b.i);
      } else if b.Tick? {
        TickMoves(u, s);
      } else {
        BBMoves(u, s, b);
      }
    }
  }

  ghost predicate GoingInv(u: Setup, s: TbbNet) {
    Typed(u, s) && DS.Inv(u, s.ds) && BB.Typed(u, s.bb) && SameProposals(s)
  }

  lemma GoingInvNext(u: Setup, s: TbbNet, step: Step, s': TbbNet)
    requires Next(u, s, step, s') && GoingInv(u, s)
    ensures GoingInv(u, s')
  {
    TypedNext(u, s, step, s');
    DSInvNext(u, s, step, s');
    SameProposalsNext(u, s, step, s');
    Parts(u, s, step, s');
    match BBPart(step)
    case Some(b) => BBA.TypedNext(Silent(u), s.bb, b, s'.bb);
    case None =>
  }

  lemma {:induction false} GoingInvRun(u: Setup, run: seq<TbbNet>, steps: seq<Step>, k: nat)
    requires IsRun(u, run, steps) && k <= |steps|
    ensures GoingInv(u, run[k])
  {
    if k == 0 {
      DS.InvInit(u, run[0].ds);
    } else {
      GoingInvRun(u, run, steps, k - 1);
      GoingInvNext(u, run[k - 1], steps[k - 1], run[k - 1 + 1]);
      assert run[k - 1 + 1] == run[k];
    }
  }

  /** Every run can go on. */
  lemma RunsGoOn(u: Setup, run: seq<TbbNet>, steps: seq<Step>, k: nat)
    requires IsRun(u, run, steps) && k <= |steps|
    ensures exists step, s' :: Next(u, run[k], step, s')
  {
    GoingInvRun(u, run, steps, k);
    NeverStuck(u, run[k]);
  }
}
