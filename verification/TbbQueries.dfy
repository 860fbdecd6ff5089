/** Once a node has answered a query with a value, it never answers with another, even where nodes might disagree. */
module TbbQueries {

  import opened Common
  import opened Network
  import opened Tbb
  import opened TbbRuns
  import opened TbbAgreement
  import DS = DolevStrongRuns
  import DB = DeltaBB
  import BB = DeltaBBRuns
  import BBC = DeltaBBCertificates
  import BBA = DeltaBBAgreement

  // ----- The trigger is sent, and taken, before tick 3 -------------------------------------------------------------

  lemma VoteTriggers(c: Config, elapsed: nat, n: DB.DbbState, vote: DB.VoteContent)
    ensures DB.OnVote(c, elapsed, n, vote).state.trigger > n.trigger ==> elapsed < c.At(3)
  {
  }

  lemma AfterTriggers(u: Setup, s: BB.DbbNet, b: BB.Step, i: NodeId)
    requires BB.Typed(u, s) && i < |s.nodes| && (b.Forward2? ==> b.l in s.forward2s)
    requires !b.InjectVote? && !b.InjectForward2?
    ensures BB.NodeAfter(u, s, b, i).trigger > s.nodes[i].trigger ==> s.now < u.c.At(3)
  {
    if b.Vote? {
      VoteTriggers(u.c, s.now, s.nodes[i], b.p.msg);
    } else if !b.FireFinal? {
      BBC.AfterSame(u, s, b, i);
    }
  }

  ghost predicate TriggersEarly(u: Setup, s: BB.DbbNet) {
    forall i :: i in u.active && i < |s.nodes| && s.nodes[i].trigger > 0 ==> s.now < u.c.At(3)
  }

  lemma TriggersEarlyNext(u: Setup, s: BB.DbbNet, b: BB.Step, s': BB.DbbNet)
    requires BB.Next(Silent(u), s, b, s') && TriggersEarly(u, s)
    ensures TriggersEarly(u, s')
  {
    HandledNext(u, s, b, s');
    BBC.SameSize(Silent(u), s, b, s');
    assert b.Tick? ==> BB.MayTick(u, s);
    forall i | i in u.active && i < |s'.nodes| && s'.nodes[i].trigger > 0
      ensures s'.now < u.c.At(3)
    {
      BB.NodeNext(Silent(u), s, b, s', i);
      AfterTriggers(u, s, b, i);
    }
  }

  // ----- Slots are written in order, and once ----------------------------------------------------------------------

  /** The combiner has committed at point 1 only with 1Δ-BB*, and after taking the trigger. */
  predicate Together(isCommit: bool, slot0: Value, bb: DB.DbbState) {
    if isCommit then bb.isCommit && bb.trigger == 0 else slot0 == ""
  }

  /** How far node i has come, and what it cannot have written yet. */
  ghost predicate InOrder(u: Setup, s: TbbNet, i: NodeId)
    requires Typed(u, s) && i in u.active
  {
    var l := s.locals[i];
    && (if i in s.point2 then s.ds.now <= Point2At(u.c) && l.slots[1] == "" else s.ds.now >= Point2At(u.c))
    && (if i in s.point3 then s.ds.now <= Point3At(u.c) && l.slots[2] == "" else s.ds.now >= Point3At(u.c))
    && Together(l.isCommit, l.slots[0], s.bb.nodes[i])
  }

  ghost predicate AllInOrder(u: Setup, s: TbbNet)
    requires Typed(u, s)
  {
    forall i :: i in u.active ==> InOrder(u, s, i)
  }

  /** Point 3 comes after point 2. */
  predicate Ordered(c: Config) {
    c.t1 < c.T2()
  }

  lemma PointTimes(c: Config)
    requires c.Valid() && Ordered(c)
    ensures c.At(3) < Point2At(c) < Point3At(c)
  {
    MulMonotone(4, c.t1 + 6, c.tickInterval);
    MulMonotone(c.t1 + 7, c.T2() + 6, c.tickInterval);
  }

  /** When commit point 1 is reached nothing has been written yet. */
  lemma Point1First(u: Setup, s: TbbNet, i: NodeId)
    requires Typed(u, s) && Linked(u, s) && TriggersEarly(u, s.bb) && i in u.active && InOrder(u, s, i) && Ordered(u.c)
    requires s.bb.nodes[i].trigger > 0
    ensures s.locals[i].slots == ["", "", ""] && !s.locals[i].isCommit
  {
    PointTimes(u.c);
    assert i in s.point2 && i in s.point3;
  }

  /** When commit point 2 is reached only slot 0 can have been written. */
  lemma Point2Second(u: Setup, s: TbbNet, i: NodeId)
    requires Typed(u, s) && i in s.point2 && i in u.active && InOrder(u, s, i)
    requires Ordered(u.c) && Point2At(u.c) <= s.ds.now
    ensures s.locals[i].slots[1] == "" && s.locals[i].slots[2] == ""
    ensures !s.locals[i].isCommit ==> s.locals[i].slots[0] == ""
  {
    PointTimes(u.c);
    assert i in s.point3;
  }

  /** What a step does to the slots of a node: nothing, or it fills one slot with nothing written from there on, and
      with nothing written at all unless it is the last one. */
  lemma SlotsKept(u: Setup, s: TbbNet, step: Step, s': TbbNet, i: NodeId)
    requires Next(u, s, step, s') && Linked(u, s) && TriggersEarly(u, s.bb) && Ordered(u.c)
    requires i in u.active && InOrder(u, s, i)
    ensures var l := LocalAfter(s, step, i);
      && (forall x :: 0 <= x < 3 && s.locals[i].slots[x] != "" ==> l.slots[x] == s.locals[i].slots[x])
      && (Answer(s.locals[i].slots) != "" ==> Answer(l.slots) == Answer(s.locals[i].slots))
  {
    Answer3(s.locals[i].slots);
    Answer3(LocalAfter(s, step, i).slots);
    if step == Point1(i) {
      Point1First(u, s, i);
    } else if step == Point2(i) {
      Point2Second(u, s, i);
    }
  }

  lemma Answer3(slots: seq<Value>)
    requires |slots| == 3
    ensures Answer(slots) == if slots[0] != "" then slots[0] else if slots[1] != "" then slots[1] else slots[2]
  {
    assert slots[1..][1..] == [slots[2]];
    assert Answer([slots[2]]) == slots[2];
  }

  // ----- The order is kept -----------------------------------------------------------------------------------------

  lemma PointsNext(u: Setup, s: TbbNet, step: Step, s': TbbNet)
    requires Next(u, s, step, s')
    ensures s'.point2 == (if step.Point2? then s.point2 - {step.i} else s.point2)
    ensures s'.point3 == (if step.Point3? then s.point3 - {step.i} else s.point3)
    ensures step.Point2? ==> Point2At(u.c) <= s.ds.now
    ensures step.Point3? ==> Point3At(u.c) <= s.ds.now
    ensures step.Tick? ==> MayTick(u, s)
  {
  }

  lemma CommitStays(u: Setup, s: TbbNet, step: Step, s': TbbNet, i: NodeId)
    requires Next(u, s, step, s') && Typed(u, s') && BBA.NodesOneShot(s.bb) && i in u.active && s.bb.nodes[i].isCommit
    ensures s'.bb.nodes[i].isCommit && s'.bb.nodes[i].trigger <= s.bb.nodes[i].trigger
  {
    Parts(u, s, step, s');
    assert BBC.OneShot(s.bb.nodes[i]);
    match BBPart(step)
    case Some(b) => BBC.StepCommit(Silent(u), s.bb, b, s'.bb, i);
    case None =>
  }

  lemma TriggerTaken(u: Setup, s: TbbNet, s': TbbNet, i: NodeId)
    requires Next(u, s, Point1(i), s') && Typed(u, s') && BBA.NodesOneShot(s.bb) && i in u.active
    ensures s'.bb.nodes[i].isCommit && s'.bb.nodes[i].trigger == 0
  {
    assert BBC.OneShot(s.bb.nodes[i]);
    BB.NodeNext(Silent(u), s.bb, BB.TakeTrigger(i), s'.bb, i);
  }

  lemma CommitTogether(u: Setup, s: TbbNet, step: Step, s': TbbNet, i: NodeId)
    requires Next(u, s, step, s') && Typed(u, s') && BBA.NodesOneShot(s.bb) && i in u.active
    requires Together(s.locals[i].isCommit, s.locals[i].slots[0], s.bb.nodes[i])
    ensures var l := LocalAfter(s, step, i); Together(l.isCommit, l.slots[0], s'.bb.nodes[i])
  {
    if step == Point1(i) {
      TriggerTaken(u, s, s', i);
    } else if s.bb.nodes[i].isCommit {
      CommitStays(u, s, step, s', i);
    }
  }

  lemma InOrderNext(u: Setup, s: TbbNet, step: Step, s': TbbNet, i: NodeId)
    requires Next(u, s, step, s') && Typed(u, s') && PartsInv(u, s) && i in u.active && InOrder(u, s, i)
    ensures InOrder(u, s', i)
  {
    LocalsNext(u, s, step, s');
    PointsNext(u, s, step, s');
    DSGrows(u, s, step, s');
    CommitTogether(u, s, step, s', i);
  }

  // ----- Runs ------------------------------------------------------------------------------------------------------

  ghost predicate QueryInv(u: Setup, s: TbbNet) {
    Typed(u, s) && PartsInv(u, s) && Linked(u, s) && TriggersEarly(u, s.bb) && AllInOrder(u, s)
  }

  lemma TriggersEarlyStep(u: Setup, s: TbbNet, step: Step, s': TbbNet)
    requires Next(u, s, step, s') && TriggersEarly(u, s.bb)
    ensures TriggersEarly(u, s'.bb)
  {
    Parts(u, s, step, s');
    match BBPart(step)
    case Some(b) => TriggersEarlyNext(u, s.bb, b, s'.bb);
    case None =>
  }

  lemma QueryInvInit(u: Setup, s: TbbNet)
    requires Init(u, s)
    ensures QueryInv(u, s)
  {
    TbbInvInit(u, s);
    assert 0 <= (u.c.t1 + 6) * u.c.tickInterval && 0 <= (u.c.T2() + 6) * u.c.tickInterval;
  }

  lemma QueryInvNext(u: Setup, s: TbbNet, step: Step, s': TbbNet)
    requires Next(u, s, step, s') && QueryInv(u, s)
    ensures QueryInv(u, s')
  {
    TypedNext(u, s, step, s');
    PartsInvNext(u, s, step, s');
    LinkedNext(u, s, step, s');
    TriggersEarlyStep(u, s, step, s');
    forall i | i in u.active
      ensures InOrder(u, s', i)
    {
      InOrderNext(u, s, step, s', i);
    }
  }

  lemma {:induction false} QueryInvRun(u: Setup, run: seq<TbbNet>, steps: seq<Step>, k: nat)
    requires IsRun(u, run, steps) && k <= |steps|
    ensures QueryInv(u, run[k])
  {
    if k == 0 {
      QueryInvInit(u, run[0]);
    } else {
      QueryInvRun(u, run, steps, k - 1);
      QueryInvNext(u, run[k - 1], steps[k - 1], run[k - 1 + 1]);
      assert run[k - 1 + 1] == run[k];
    }
  }

  lemma TypedInRun(u: Setup, run: seq<TbbNet>, steps: seq<Step>, k: nat)
    requires IsRun(u, run, steps) && k <= |steps|
    ensures Typed(u, run[k])
  {
    QueryInvRun(u, run, steps, k);
  }

  lemma SlotsKeptStep(u: Setup, run: seq<TbbNet>, steps: seq<Step>, k: nat, i: NodeId)
    requires IsRun(u, run, steps) && k < |steps| && i in u.active && Ordered(u.c)
    ensures Typed(u, run[k]) && Typed(u, run[k + 1])
    ensures forall x :: 0 <= x < 3 && run[k].locals[i].slots[x] != "" ==>
        run[k + 1].locals[i].slots[x] == run[k].locals[i].slots[x]
    ensures Answer(run[k].locals[i].slots) != "" ==>
      Answer(run[k + 1].locals[i].slots) == Answer(run[k].locals[i].slots)
  {
    TypedInRun(u, run, steps, k + 1);
    QueryInvRun(u, run, steps, k);
    SlotsKept(u, run[k], steps[k], run[k + 1], i);
    LocalsNext(u, run[k], steps[k], run[k + 1]);
  }

  /** A slot once written is never written again, and an answer once given is given for ever. */
  lemma {:induction false} AnswerStable(u: Setup, run: seq<TbbNet>, steps: seq<Step>, k: nat, l: nat, i: NodeId)
    requires IsRun(u, run, steps) && k <= l <= |steps| && i in u.active && Ordered(u.c)
    ensures Typed(u, run[k]) && Typed(u, run[l])
    ensures forall x :: 0 <= x < 3 && run[k].locals[i].slots[x] != "" ==>
        run[l].locals[i].slots[x] == run[k].locals[i].slots[x]
    ensures Answer(run[k].locals[i].slots) != "" ==> Answer(run[l].locals[i].slots) == Answer(run[k].locals[i].slots)
  {
    TypedInRun(u, run, steps, k);
    if k < l {
      AnswerStable(u, run, steps, k, l - 1, i);
      SlotsKeptStep(u, run, steps, l - 1, i);
      assert run[l - 1 + 1] == run[l];
    }
  }
}
