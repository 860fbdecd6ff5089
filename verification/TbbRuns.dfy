/** Runs of TBB: Dolev-Strong and 1Δ-BB* side by side on the same proposals and the same clock, and the combiner on
    top. Faulty nodes other than the view node are silent (handler_tbb_m.go). */
module TbbRuns {

  import opened Common
  import opened Network
  import opened Tbb
  import DS = DolevStrongRuns
  import BB = DeltaBBRuns

  /** The sets hold the nodes whose reference and commit points are still to come. */
  datatype TbbNet = TbbNet(ds: DS.DSNet, bb: BB.DbbNet, locals: seq<TbbState>, check1: set<NodeId>, check2: set<NodeId>,
                           point2: set<NodeId>, point3: set<NodeId>)

  datatype Step =
    | Propose(q: Proposal) | InDS(d: DS.Step) | InBB(b: BB.Step) | Tick
    | Check1(i: NodeId) | Check2(i: NodeId) | Point1(i: NodeId) | Point2(i: NodeId) | Point3(i: NodeId)

  function Silent(u: Setup): BB.System {
    BB.System(u, false)
  }

  ghost predicate Typed(u: Setup, s: TbbNet) {
    && u.Valid() && |s.ds.nodes| == |s.bb.nodes| == |s.locals| == u.c.nodeNum
    && (forall i :: 0 <= i < |s.locals| ==> |s.locals[i].slots| == 3)
    && s.check1 <= u.active && s.check2 <= u.active && s.point2 <= u.active && s.point3 <= u.active
  }

  ghost predicate Init(u: Setup, s: TbbNet) {
    && Typed(u, s) && DS.Init(u, s.ds) && BB.Init(u, s.bb)
    && (forall i :: 0 <= i < |s.locals| ==> s.locals[i] == FRESH)
    && s.check1 == u.active && s.check2 == u.active && s.point2 == u.active && s.point3 == u.active
  }

  /** The times of the four timers; t1 may be -1. */
  function Check1At(c: Config): int {
    (c.t1 + 1) * c.tickInterval
  }

  function Check2At(c: Config): int {
    (c.T2() + 1) * c.tickInterval
  }

  function Point2At(c: Config): int {
    (c.t1 + 6) * c.tickInterval
  }

  function Point3At(c: Config): int {
    (c.T2() + 6) * c.tickInterval
  }

  ghost predicate MayTick(u: Setup, s: TbbNet) {
    && (s.check1 != {} ==> s.ds.now < Check1At(u.c))
    && (s.check2 != {} ==> s.ds.now < Check2At(u.c))
    && (s.point2 != {} ==> s.ds.now < Point2At(u.c))
    && (s.point3 != {} ==> s.ds.now < Point3At(u.c))
  }

  /** A step of one sub-module alone; proposals, the trigger and the clock concern more than one. */
  predicate OnlyDS(d: DS.Step) {
    d.Forward? || d.Fire?
  }

  predicate OnlyBB(b: BB.Step) {
    !b.Propose? && !b.TakeTrigger? && !b.Tick?
  }

  ghost predicate Next(u: Setup, s: TbbNet, step: Step, s': TbbNet) {
    Typed(u, s) &&
    match step
    case Propose(q) =>
      && DS.Next(u, s.ds, DS.Propose(q), s'.ds) && BB.Next(Silent(u), s.bb, BB.Propose(q), s'.bb)
      && s' == s.(ds := s'.ds, bb := s'.bb)
    case InDS(d) => OnlyDS(d) && DS.Next(u, s.ds, d, s'.ds) && s' == s.(ds := s'.ds)
    case InBB(b) => OnlyBB(b) && BB.Next(Silent(u), s.bb, b, s'.bb) && s' == s.(bb := s'.bb)
    case Tick =>
      && MayTick(u, s) && DS.Next(u, s.ds, DS.Tick, s'.ds) && BB.Next(Silent(u), s.bb, BB.Tick, s'.bb)
      && s' == s.(ds := s'.ds, bb := s'.bb)
    case Check1(i) =>
      && i in s.check1 && Check1At(u.c) <= s.ds.now
      && s' == s.(locals := s.locals[i := OnReference1(s.locals[i], s.ds.nodes[i])], check1 := s.check1 - {i})
    case Check2(i) =>
      && i in s.check2 && Check2At(u.c) <= s.ds.now
      && s' == s.(locals := s.locals[i := OnReference2(s.locals[i], s.ds.nodes[i])], check2 := s.check2 - {i})
    case Point1(i) =>
      && i in u.active && BB.Next(Silent(u), s.bb, BB.TakeTrigger(i), s'.bb)
      && s' == s.(bb := s'.bb, locals := s.locals[i := OnCommitPoint1(s.locals[i], s.bb.nodes[i])])
    case Point2(i) =>
      && i in s.point2 && Point2At(u.c) <= s.ds.now
      && s' == s.(locals := s.locals[i := OnCommitPoint2(s.locals[i], s.bb.nodes[i])], point2 := s.point2 - {i})
    case Point3(i) =>
      && i in s.point3 && Point3At(u.c) <= s.ds.now
      && s' == s.(locals := s.locals[i := OnCommitPoint3(s.locals[i], s.bb.nodes[i])], point3 := s.point3 - {i})
  }

  ghost predicate IsRun(u: Setup, run: seq<TbbNet>, steps: seq<Step>) {
    && |run| == |steps| + 1 && Init(u, run[0])
    && forall k {:trigger steps[k]} :: 0 <= k < |steps| ==> Next(u, run[k], steps[k], run[k + 1])
  }

  // ----- The sub-modules run as they would alone -------------------------------------------------------------------

  /** The step of Dolev-Strong in a step of TBB, if there is one. */
  function DSPart(step: Step): Option<DS.Step> {
    match step
    case Propose(q) => Some(DS.Propose(q))
    case InDS(d) => Some(d)
    case Tick => Some(DS.Tick)
    case _ => None
  }

  function BBPart(step: Step): Option<BB.Step> {
    match step
    case Propose(q) => Some(BB.Propose(q))
    case InBB(b) => Some(b)
    case Tick => Some(BB.Tick)
    case Point1(i) => Some(BB.TakeTrigger(i))
    case _ => None
  }

  lemma Parts(u: Setup, s: TbbNet, step: Step, s': TbbNet)
    requires Next(u, s, step, s')
    ensures match DSPart(step)
            case Some(d) => DS.Next(u, s.ds, d, s'.ds)
            case None => s'.ds == s.ds
    ensures match BBPart(step)
            case Some(b) => BB.Next(Silent(u), s.bb, b, s'.bb)
            case None => s'.bb == s.bb
  {
  }
}
