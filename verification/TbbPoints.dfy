/** The five timed steps of the TBB combiner, and what they are for: with an honest view node, and the first reference
    point after Dolev-Strong has decided, everybody has committed by commit point 2. */
module TbbPoints {

  import opened Common
  import opened Network
  import opened Tbb
  import opened TbbRuns
  import opened TbbAgreement
  import opened TbbTermination
  import TbbQueries
  import DolevStrong
  import DS = DolevStrongRuns
  import DSA = DolevStrongAgreement
  import BB = DeltaBBRuns
  import BBA = DeltaBBAgreement
  import BBC = DeltaBBCertificates

  // ----- What each step writes -------------------------------------------------------------------------------------

  /** The value a node has extracted alone and Dolev-Strong has committed. */
  ghost predicate Settled1(s: TbbNet, i: NodeId, w: Value)
    requires i < |s.ds.nodes|
  {
    s.ds.nodes[i].extrSet == {w} && s.ds.nodes[i].commitValue == w
  }

  /** A reference point takes the value that is the only one extracted and is committed by Dolev-Strong; without one
      it changes nothing. */
  lemma ChecksExactly(u: Setup, s: TbbNet, step: Step, s': TbbNet, i: NodeId)
    requires Next(u, s, step, s') && i in u.active && (step == Check1(i) || step == Check2(i))
    ensures i < |s.locals| == |s'.locals| && s'.ds == s.ds && s'.bb == s.bb
    ensures forall w :: Settled1(s, i, w) ==>
      s'.locals[i] == if step == Check1(i) then s.locals[i].(reference1 := w) else s.locals[i].(reference2 := w)
    ensures (forall w :: !Settled1(s, i, w)) ==> s'.locals[i] == s.locals[i]
  {
    assert HasReference(s.ds.nodes[i]) ==> Settled1(s, i, TheOnly(s.ds.nodes[i].extrSet));
    forall w | Settled1(s, i, w)
      ensures HasReference(s.ds.nodes[i]) && TheOnly(s.ds.nodes[i].extrSet) == w
    {
      assert |{w}| == 1;
    }
  }

  /** Commit point 1 writes the commit value of 1Δ-BB*, which is certified. */
  lemma Point1Writes(u: Setup, s: TbbNet, s': TbbNet, i: NodeId)
    requires Next(u, s, Point1(i), s') && BBA.NodesOneShot(s.bb) && i in u.active
    ensures i < |s.locals| == |s'.locals| && i < |s.bb.nodes| == |s'.bb.nodes|
    ensures var l, w := s.locals[i], s.bb.nodes[i].commitValue;
      s'.locals[i] == l.(slots := [w, l.slots[1], l.slots[2]], isCommit := true) && Certified(s, w)
    ensures s'.bb.nodes[i].trigger == s.bb.nodes[i].trigger - 1
  {
    assert BBC.OneShot(s.bb.nodes[i]) && s.bb.nodes[i].trigger > 0;
    assert s.locals[i].slots[0 := s.bb.nodes[i].commitValue] ==
      [s.bb.nodes[i].commitValue, s.locals[i].slots[1], s.locals[i].slots[2]];
  }

  /** Commit point 2 writes slot 1 of a node that has not committed at point 1: with the only certified value; without
      exactly one, with the first reference, if there is one; else it changes nothing. */
  lemma Point2Writes(u: Setup, s: TbbNet, s': TbbNet, i: NodeId)
    requires Next(u, s, Point2(i), s') && i in u.active
    ensures i < |s.locals| == |s'.locals| && i < |s.bb.nodes|
    ensures var l, l', certified := s.locals[i], s'.locals[i], s.bb.nodes[i].blckSet;
      && (forall w :: !l.isCommit && certified == {w} ==> l' == l.(slots := [l.slots[0], w, l.slots[2]]))
      && (!l.isCommit && |certified| != 1 && l.reference1 != "" ==>
          l' == l.(slots := [l.slots[0], l.reference1, l.slots[2]]))
      && (l.isCommit || (|certified| != 1 && l.reference1 == "") ==> l' == l)
  {
    var l, certified := s.locals[i], s.bb.nodes[i].blckSet;
    assert forall w :: l.slots[1 := w] == [l.slots[0], w, l.slots[2]];
    forall w | certified == {w}
      ensures |certified| == 1 && TheOnly(certified) == w
    {
      assert |{w}| == 1;
    }
  }

  /** Commit point 3 writes slot 2 in the same way, with the second reference, and also after a commit. */
  lemma Point3Writes(u: Setup, s: TbbNet, s': TbbNet, i: NodeId)
    requires Next(u, s, Point3(i), s') && i in u.active
    ensures i < |s.locals| == |s'.locals| && i < |s.bb.nodes|
    ensures var l, l', certified := s.locals[i], s'.locals[i], s.bb.nodes[i].blckSet;
      && (forall w :: certified == {w} ==> l' == l.(slots := [l.slots[0], l.slots[1], w]))
      && (|certified| != 1 && l.reference2 != "" ==> l' == l.(slots := [l.slots[0], l.slots[1], l.reference2]))
      && (|certified| != 1 && l.reference2 == "" ==> l' == l)
  {
    var l, certified := s.locals[i], s.bb.nodes[i].blckSet;
    assert forall w :: l.slots[2 := w] == [l.slots[0], l.slots[1], w];
    forall w | certified == {w}
      ensures |certified| == 1 && TheOnly(certified) == w
    {
      assert |{w}| == 1;
    }
  }

  // ----- Commit point 2 with an honest view node -------------------------------------------------------------------

  /** The first reference point comes after Dolev-Strong has decided. */
  predicate LateReference(c: Config) {
    c.t1 > c.malicious
  }

  ghost predicate Timers2(u: Setup, s: TbbNet) {
    && (s.check1 != {} ==> s.ds.now <= Check1At(u.c))
    && (s.point2 != {} ==> s.ds.now <= Point2At(u.c))
  }

  /** Past the first reference point node i refers to v; committed at point 1 it holds v; past commit point 2 it holds
      v in one of the first two slots. */
  ghost predicate Holds(u: Setup, s: TbbNet, i: NodeId, v: Value)
    requires Typed(u, s) && i in u.active
  {
    && (i !in s.check1 ==> s.locals[i].reference1 == v)
    && (s.locals[i].isCommit ==> s.locals[i].slots[0] == v)
    && (i !in s.point2 ==> v in s.locals[i].slots[..2])
  }

  ghost predicate Point2Inv(u: Setup, s: TbbNet, v: Value) {
    EndInv(u, s, v) && Timers2(u, s) && forall i {:trigger Holds(u, s, i, v)} :: i in u.active ==> Holds(u, s, i, v)
  }

  lemma Timers2Next(u: Setup, s: TbbNet, step: Step, s': TbbNet)
    requires Next(u, s, step, s') && Timers2(u, s)
    ensures Timers2(u, s')
  {
    Parts(u, s, step, s');
    LocalsNext(u, s, step, s');
    assert step.Tick? ==> MayTick(u, s);
    match DSPart(step)
    case Some(d) => PendingNext(u, s.ds, d, s'.ds);
    case None =>
  }

  lemma FirstTimes(c: Config)
    requires c.Valid() && LateReference(c)
    ensures DolevStrong.CommitTime(c) < Check1At(c) < Point2At(c) && c.At(1) <= Check1At(c)
  {
    MulMonotone(c.malicious + 2, c.t1 + 1, c.tickInterval);
    MulMonotone(1, c.t1 + 1, c.tickInterval);
  }

  /** At the first reference point Dolev-Strong has decided, on the honest proposal. */
  lemma Check1Refers(u: Setup, s: TbbNet, s': TbbNet, i: NodeId, v: Value)
    requires Next(u, s, Check1(i), s') && EndInv(u, s, v) && u.HonestView(v) && LateReference(u.c) && i in u.active
    ensures |s'.locals| == |s.locals| == u.c.nodeNum && s'.locals[i].reference1 == v
    ensures s'.locals[i].slots == s.locals[i].slots && s'.locals[i].isCommit == s.locals[i].isCommit
  {
    FirstTimes(u.c);
    assert s.ds.pending == {};
    assert DSA.Decided(u, s.ds, i);
    DSA.HonestSets(u, s.ds, v, i);
    assert Settled1(s, i, v);
    ChecksExactly(u, s, Check1(i), s', i);
  }

  lemma CertifiedIsProposed(u: Setup, s: TbbNet, i: NodeId, w: Value, v: Value)
    requires EndInv(u, s, v) && u.HonestView(v) && u.c.Quorum() >= 2 && i in u.active && Certified(s, w)
    ensures w == v
  {
    JustifiedIsProposed(u, s, i, w, v);
  }

  lemma Point1Holds(u: Setup, s: TbbNet, s': TbbNet, i: NodeId, v: Value)
    requires Next(u, s, Point1(i), s') && EndInv(u, s, v) && u.HonestView(v) && u.c.Quorum() >= 2 && i in u.active
    requires Holds(u, s, i, v) && Typed(u, s')
    ensures Holds(u, s', i, v)
  {
    Point1Writes(u, s, s', i);
    CertifiedIsProposed(u, s, i, s.bb.nodes[i].commitValue, v);
    assert s'.locals[i].slots[0] in s'.locals[i].slots[..2];
  }

  /** At commit point 2 the node has committed, or takes the certified value, or the reference, and all of them are v.
      */
  lemma Point2Holds(u: Setup, s: TbbNet, s': TbbNet, i: NodeId, v: Value)
    requires Next(u, s, Point2(i), s') && EndInv(u, s, v) && u.HonestView(v) && v != "" && u.c.Quorum() >= 2
    requires LateReference(u.c) && i in u.active && Timers2(u, s) && Holds(u, s, i, v) && Typed(u, s')
    ensures Holds(u, s', i, v)
  {
    FirstTimes(u.c);
    assert i !in s.check1;
    Point2Writes(u, s, s', i);
    var certified := s.bb.nodes[i].blckSet;
    if s.locals[i].isCommit {
      assert s'.locals[i].slots[0] in s'.locals[i].slots[..2];
    } else {
      if |certified| == 1 {
        var w := TheOnly(certified);
        assert w in certified;
        CertifiedIsProposed(u, s, i, w, v);
      }
      assert s'.locals[i].slots[1] == v;
      assert s'.locals[i].slots[1] in s'.locals[i].slots[..2];
    }
  }

  lemma OthersHold(u: Setup, s: TbbNet, step: Step, s': TbbNet, i: NodeId, v: Value)
    requires Next(u, s, step, s') && Typed(u, s') && i in u.active && Holds(u, s, i, v)
    requires step != Check1(i) && step != Point1(i) && step != Point2(i)
    ensures Holds(u, s', i, v)
  {
    LocalsNext(u, s, step, s');
    assert i in s'.check1 <==> i in s.check1;
    assert i in s'.point2 <==> i in s.point2;
    var l, l' := s.locals[i], LocalAfter(s, step, i);
    assert l'.slots[..2] == l.slots[..2];
  }

  lemma HoldsNext(u: Setup, s: TbbNet, step: Step, s': TbbNet, i: NodeId, v: Value)
    requires Next(u, s, step, s') && Typed(u, s') && EndInv(u, s, v) && Timers2(u, s) && i in u.active
    requires Holds(u, s, i, v) && u.HonestView(v) && v != "" && u.c.Quorum() >= 2 && LateReference(u.c)
    ensures Holds(u, s', i, v)
  {
    if step == Check1(i) {
      Check1Refers(u, s, s', i, v);
    } else if step == Point1(i) {
      Point1Holds(u, s, s', i, v);
    } else if step == Point2(i) {
      Point2Holds(u, s, s', i, v);
    } else {
      OthersHold(u, s, step, s', i, v);
    }
  }

  lemma Point2InvInit(u: Setup, s: TbbNet, v: Value)
    requires Init(u, s)
    ensures Point2Inv(u, s, v)
  {
    EndInvInit(u, s, v);
    MulMonotone(0, u.c.t1 + 1, u.c.tickInterval);
    MulMonotone(0, u.c.t1 + 6, u.c.tickInterval);
  }

  lemma Point2InvNext(u: Setup, s: TbbNet, step: Step, s': TbbNet, v: Value)
    requires Next(u, s, step, s') && Point2Inv(u, s, v) && Protected(u.c) && LateReference(u.c)
    requires u.HonestView(v) && v != ""
    ensures Point2Inv(u, s', v)
  {
    EndInvNext(u, s, step, s', v);
    Timers2Next(u, s, step, s');
    forall i | i in u.active
      ensures Holds(u, s', i, v)
    {
      assert Holds(u, s, i, v);
      HoldsNext(u, s, step, s', i, v);
    }
  }

  lemma {:induction false} Point2InvRun(u: Setup, run: seq<TbbNet>, steps: seq<Step>, k: nat, v: Value)
    requires IsRun(u, run, steps) && k <= |steps| && Protected(u.c) && LateReference(u.c) && u.HonestView(v) && v != ""
    ensures Point2Inv(u, run[k], v)
  {
    if k == 0 {
      Point2InvInit(u, run[0], v);
    } else {
      Point2InvRun(u, run, steps, k - 1, v);
      Point2InvNext(u, run[k - 1], steps[k - 1], run[k - 1 + 1], v);
      assert run[k - 1 + 1] == run[k];
    }
  }

  lemma AnswerEarly(slots: seq<Value>, v: Value)
    requires |slots| == 3 && v != "" && v in slots[..2] && forall x :: 0 <= x < 3 ==> slots[x] in {"", v}
    ensures (slots[0] == v || slots[1] == v) && Answer(slots) == v
  {
    TbbQueries.Answer3(slots);
  }

  /** Once tick t1 + 6 is past every active node has committed the honest view node's proposal at commit point 1 or 2,
      and answers with it. */
  lemma Point2Terminates(u: Setup, run: seq<TbbNet>, steps: seq<Step>, k: nat, i: NodeId, v: Value)
    requires IsRun(u, run, steps) && k <= |steps| && Protected(u.c) && LateReference(u.c) && u.HonestView(v) && v != ""
    requires i in u.active && run[k].ds.now > Point2At(u.c)
    ensures Typed(u, run[k]) && (run[k].locals[i].slots[0] == v || run[k].locals[i].slots[1] == v)
    ensures Answer(run[k].locals[i].slots) == v
  {
    Point2InvRun(u, run, steps, k, v);
    assert Holds(u, run[k], i, v);
    forall x: nat | x < 3
      ensures run[k].locals[i].slots[x] in {"", v}
    {
      Validity(u, run, steps, k, i, x, v);
    }
    AnswerEarly(run[k].locals[i].slots, v);
  }
}
