/** TBB against arbitrary faults: the nodes that are not active send what they like, but forge no signature of an
    active node.  It joins DolevStrongByzantine with the injecting system of 1Δ-BB*. */
module TbbByzantine {

  import opened Common
  import opened Network
  import opened Tbb
  import opened TbbRuns
  import opened TbbAgreement
  import DeltaBB
  import DolevStrong
  import DS = DolevStrongRuns
  import DSB = DolevStrongByzantine
  import DSBA = DolevStrongByzantineAgreement
  import BB = DeltaBBRuns
  import BBV = DeltaBBVotes
  import BBC = DeltaBBCertificates
  import BBA = DeltaBBAgreement

  /** A proposal of a faulty view node reaches both sub-modules; all other messages are for one of them. */
  datatype ByzStep =
    | Honest(step: Step)
    | ByzProposal(dst: NodeId, req: Request) | ByzList(dst: NodeId, msg: DolevStrong.SigList) | ByzVoting(b: BB.Step)

  function Injecting(u: Setup): BB.System {
    BB.System(u, true)
  }

  ghost predicate ByzNext(a: DSB.Attack, s: TbbNet, step: ByzStep, s': TbbNet) {
    && Typed(a.u, s)
    && match step
       case Honest(h) => Next(a.u, s, h, s')
       case ByzProposal(dst, req) =>
         && DSB.ByzNext(a, s.ds, DSB.ByzPropose(dst, req), s'.ds)
         && BB.Next(Injecting(a.u), s.bb, BB.InjectProposal(dst, req), s'.bb)
         && s' == s.(ds := s'.ds, bb := s'.bb)
       case ByzList(dst, m) => DSB.ByzNext(a, s.ds, DSB.ByzForward(dst, m), s'.ds) && s' == s.(ds := s'.ds)
       case ByzVoting(b) =>
         && (b.InjectForward1? || b.InjectVote? || b.InjectForward2?)
         && BB.Next(Injecting(a.u), s.bb, b, s'.bb) && s' == s.(bb := s'.bb)
  }

  ghost predicate IsAttackRun(a: DSB.Attack, run: seq<TbbNet>, steps: seq<ByzStep>) {
    && a.Valid() && |run| == |steps| + 1 && Init(a.u, run[0])
    && forall k {:trigger steps[k]} :: 0 <= k < |steps| ==> ByzNext(a, run[k], steps[k], run[k + 1])
  }

  /** Timely messages or an honest view node, and reference points not before tick f + 1. */
  predicate Prepared(a: DSB.Attack) {
    a.Guarded() && a.u.c.t1 >= a.u.c.malicious
  }

  /** And more honest nodes than there can be faulty ones. */
  predicate Withstood(a: DSB.Attack) {
    Prepared(a) && |a.u.active| > a.u.c.malicious
  }

  function Since(a: DSB.Attack): nat {
    DolevStrong.CommitTime(a.u.c)
  }

  // ----- The sub-modules run as they would alone under attack ------------------------------------------------------

  function DSStep(step: ByzStep): Option<DSB.ByzStep> {
    match step
    case Honest(h) => (match DSPart(h) case Some(d) => Some(DSB.Honest(d)) case None => None)
    case ByzProposal(dst, req) => Some(DSB.ByzPropose(dst, req))
    case ByzList(dst, m) => Some(DSB.ByzForward(dst, m))
    case ByzVoting(_) => None
  }

  function BBStep(step: ByzStep): Option<BB.Step> {
    match step
    case Honest(h) => BBPart(h)
    case ByzProposal(dst, req) => Some(BB.InjectProposal(dst, req))
    case ByzList(_, _) => None
    case ByzVoting(b) => Some(b)
  }

  lemma SilenceIsAllowed(u: Setup, s: BB.DbbNet, b: BB.Step, s': BB.DbbNet)
    requires BB.Next(Silent(u), s, b, s')
    ensures BB.Next(Injecting(u), s, b, s')
  {
  }

  lemma ByzParts(a: DSB.Attack, s: TbbNet, step: ByzStep, s': TbbNet)
    requires ByzNext(a, s, step, s')
    ensures match DSStep(step)
            case Some(d) => DSB.ByzNext(a, s.ds, d, s'.ds)
            case None => s'.ds == s.ds
    ensures match BBStep(step)
            case Some(b) => BB.Next(Injecting(a.u), s.bb, b, s'.bb)
            case None => s'.bb == s.bb
  {
    if step.Honest? {
      Parts(a.u, s, step.step, s');
      match BBPart(step.step)
      case Some(b) => SilenceIsAllowed(a.u, s.bb, b, s'.bb);
      case None =>
    }
  }

  // ----- The invariant ---------------------------------------------------------------------------------------------

  ghost predicate ByzPartsInv(a: DSB.Attack, s: TbbNet) {
    DSB.ByzInv(a, s.ds) && BBA.DbbInv(Injecting(a.u), s.bb)
  }

  lemma ByzPartsInvNext(a: DSB.Attack, s: TbbNet, step: ByzStep, s': TbbNet)
    requires a.Valid() && a.Guarded() && ByzNext(a, s, step, s') && ByzPartsInv(a, s)
    ensures ByzPartsInv(a, s')
  {
    ByzParts(a, s, step, s');
    match DSStep(step) {
      case Some(d) => DSB.ByzInvNext(a, s.ds, d, s'.ds);
      case None =>
    }
    match BBStep(step) {
      case Some(b) => BBA.DbbInvNext(Injecting(a.u), s.bb, b, s'.bb);
      case None =>
    }
  }

  lemma TakesIn(a: DSB.Attack, s: DS.DSNet, d: DSB.ByzStep, s': DS.DSNet)
    requires DSB.ByzNext(a, s, d, s') && (d.ByzPropose? || d.ByzForward?)
    ensures ExtrGrow(s, s') && s'.now == s.now
    ensures d.ByzPropose? ==> d.req.content in s'.nodes[d.dst].extrSet
  {
    match d
    case ByzPropose(dst, req) =>
      DS.Received(a.u, s, s, dst, req.content, DolevStrong.OnPropose(a.u.c, dst, s.now, s.nodes[dst], req));
    case ByzForward(dst, m) => DSB.ByzForwardTookIn(a, s, dst, m, s');
  }

  lemma InjectsHandled(u: Setup, s: BB.DbbNet, b: BB.Step, s': BB.DbbNet)
    requires BB.Next(Injecting(u), s, b, s')
    requires b.InjectProposal? || b.InjectForward1? || b.InjectVote? || b.InjectForward2?
    ensures s'.now == s.now && |s'.nodes| == |s.nodes|
    ensures s'.handled ==
      if b.InjectProposal? then s.handled + {BB.Event(b.dst, b.req.content, s.now)} else s.handled
  {
  }

  lemma ByzLinkedNext(a: DSB.Attack, s: TbbNet, step: ByzStep, s': TbbNet)
    requires ByzNext(a, s, step, s') && DS.OnTime(a.u, s.ds) && Linked(a.u, s)
    ensures Linked(a.u, s')
  {
    match step
    case Honest(h) => LinkedNext(a.u, s, h, s');
    case ByzProposal(dst, req) =>
      TakesIn(a, s.ds, DSB.ByzPropose(dst, req), s'.ds);
      InjectsHandled(a.u, s.bb, BB.InjectProposal(dst, req), s'.bb);
      LinkedKept(a.u, s, s', {BB.Event(dst, req.content, s.bb.now)});
    case ByzList(dst, m) =>
      TakesIn(a, s.ds, DSB.ByzForward(dst, m), s'.ds);
      LinkedKept(a.u, s, s', {});
    case ByzVoting(b) =>
      InjectsHandled(a.u, s.bb, b, s'.bb);
      LinkedKept(a.u, s, s', {});
  }

  /** Combiners move in steps of their own only. */
  lemma ByzTypedNext(a: DSB.Attack, s: TbbNet, step: ByzStep, s': TbbNet)
    requires ByzNext(a, s, step, s') && DS.OnTime(a.u, s.ds)
    ensures Typed(a.u, s') && (!step.Honest? ==> s'.locals == s.locals)
  {
    match step
    case Honest(h) => TypedNext(a.u, s, h, s');
    case ByzProposal(dst, req) =>
      TakesIn(a, s.ds, DSB.ByzPropose(dst, req), s'.ds);
      InjectsHandled(a.u, s.bb, BB.InjectProposal(dst, req), s'.bb);
    case ByzList(dst, m) => TakesIn(a, s.ds, DSB.ByzForward(dst, m), s'.ds);
    case ByzVoting(b) => InjectsHandled(a.u, s.bb, b, s'.bb);
  }

  // ----- At most one value is justified ----------------------------------------------------------------------------

  /** More honest nodes than f: exactly then the faulty ones are no quorum. */
  lemma FaultyExactly(u: Setup)
    requires u.Valid()
    ensures |Ids(u.c.nodeNum) - u.active| < u.c.Quorum() <==> |u.active| > u.c.malicious
  {
    assert Ids(u.c.nodeNum) == (Ids(u.c.nodeNum) - u.active) + u.active;
  }

  lemma VoterHolds(a: DSB.Attack, s: TbbNet, v: Value) returns (b: BB.Event)
    requires Typed(a.u, s) && ByzPartsInv(a, s) && Linked(a.u, s) && Certified(s, v) && Withstood(a)
    ensures b in s.bb.ballots && b.value == v && b.node in a.u.active && v in s.ds.nodes[b.node].extrSet
  {
    var j: nat :| j < |s.bb.nodes| && v in s.bb.nodes[j].blckSet;
    assert BBC.OneShot(s.bb.nodes[j]);
    FaultyExactly(a.u);
    b := BBC.ActiveVoteBehind(Injecting(a.u), s.bb, j, v);
    assert BBV.Founded(a.u, s.bb, b);
  }

  /** Votes of honest nodes agree by the vote rule, or because an honest view node proposed one value only. */
  lemma ByzCertifiedOnce(a: DSB.Attack, s: TbbNet, v: Value, w: Value)
    requires Typed(a.u, s) && ByzPartsInv(a, s) && Linked(a.u, s) && a.Valid() && Withstood(a)
    requires Certified(s, v) && Certified(s, w)
    ensures v == w
  {
    var b := VoterHolds(a, s, v);
    var c := VoterHolds(a, s, w);
    if VIEW in a.u.active {
      var proposed :| a.u.HonestView(proposed);
      DSBA.HonestProposal(a, s.ds, proposed, b.node);
      DSBA.HonestProposal(a, s.ds, proposed, c.node);
    } else {
      BBV.VotesAgree(a.u, s.bb, b, c);
    }
  }

  lemma ByzJustifiedOnce(a: DSB.Attack, s: TbbNet, i: NodeId, v: Value, j: NodeId, w: Value)
    requires Typed(a.u, s) && ByzPartsInv(a, s) && Linked(a.u, s) && a.Valid() && Withstood(a)
    requires Justified(a.u, s, Since(a), i, v) && Justified(a.u, s, Since(a), j, w)
    ensures v == w
  {
    if Certified(s, v) && Certified(s, w) {
      ByzCertifiedOnce(a, s, v, w);
    } else if Certified(s, v) {
      var b := VoterHolds(a, s, v);
      DSBA.SetsEqual(a, s.ds, b.node, j);
    } else if Certified(s, w) {
      var b := VoterHolds(a, s, w);
      DSBA.SetsEqual(a, s.ds, b.node, i);
    } else {
      DSBA.SetsEqual(a, s.ds, i, j);
      assert v in s.ds.nodes[j].extrSet;
    }
  }

  // ----- Justifications stand --------------------------------------------------------------------------------------

  lemma ByzCertifiedKept(a: DSB.Attack, s: TbbNet, step: ByzStep, s': TbbNet, v: Value)
    requires ByzNext(a, s, step, s') && BBA.NodesOneShot(s.bb) && Certified(s, v)
    ensures Certified(s', v)
  {
    ByzParts(a, s, step, s');
    var j: nat :| j < |s.bb.nodes| && v in s.bb.nodes[j].blckSet;
    match BBStep(step)
    case Some(b) => BBC.StepCommit(Injecting(a.u), s.bb, b, s'.bb, j);
    case None =>
  }

  lemma ByzTimeGrows(a: DSB.Attack, s: DS.DSNet, d: DSB.ByzStep, s': DS.DSNet)
    requires DSB.ByzNext(a, s, d, s')
    ensures s.now <= s'.now
  {
  }

  lemma ByzReferencedKept(a: DSB.Attack, s: TbbNet, step: ByzStep, s': TbbNet, i: NodeId, v: Value)
    requires a.Valid() && a.Guarded() && ByzNext(a, s, step, s') && Typed(a.u, s') && DSB.ByzInv(a, s.ds)
    requires Referenced(a.u, s, Since(a), i, v)
    ensures Referenced(a.u, s', Since(a), i, v)
  {
    ByzParts(a, s, step, s');
    match DSStep(step)
    case Some(d) =>
      DSBA.ByzSetsFinal(a, s.ds, d, s'.ds, i);
      ByzTimeGrows(a, s.ds, d, s'.ds);
    case None =>
  }

  lemma ByzJustifiedKept(a: DSB.Attack, s: TbbNet, step: ByzStep, s': TbbNet, i: NodeId, v: Value)
    requires a.Valid() && a.Guarded() && ByzNext(a, s, step, s') && Typed(a.u, s') && ByzPartsInv(a, s)
    requires Justified(a.u, s, Since(a), i, v)
    ensures Justified(a.u, s', Since(a), i, v)
  {
    if Certified(s, v) {
      ByzCertifiedKept(a, s, step, s', v);
    } else {
      ByzReferencedKept(a, s, step, s', i, v);
    }
  }

  lemma ChecksAfterDecisions(a: DSB.Attack)
    requires a.u.Valid() && Withstood(a)
    ensures ChecksFrom(a.u.c, Since(a))
  {
    MulMonotone(a.u.c.malicious + 1, a.u.c.t1 + 1, a.u.c.tickInterval);
    MulMonotone(a.u.c.malicious + 1, a.u.c.nodeNum, a.u.c.tickInterval);
  }

  /** What a combiner holds after a step was justified before it. */
  lemma HeldIsSound(a: DSB.Attack, s: TbbNet, step: ByzStep, s': TbbNet, i: NodeId)
    requires ByzNext(a, s, step, s') && Typed(a.u, s') && BBA.NodesOneShot(s.bb) && DS.OnTime(a.u, s.ds)
    requires i in a.u.active && Sound(a.u, s, Since(a), i, s.locals[i]) && Withstood(a)
    ensures Sound(a.u, s, Since(a), i, s'.locals[i])
  {
    if step.Honest? {
      ChecksAfterDecisions(a);
      LocalAfterSound(a.u, s, step.step, s', Since(a), i);
      LocalsNext(a.u, s, step.step, s');
    } else {
      ByzTypedNext(a, s, step, s');
    }
  }

  lemma ByzSoundNext(a: DSB.Attack, s: TbbNet, step: ByzStep, s': TbbNet, i: NodeId)
    requires a.Valid() && ByzNext(a, s, step, s') && Typed(a.u, s') && ByzPartsInv(a, s)
    requires i in a.u.active && Sound(a.u, s, Since(a), i, s.locals[i]) && Withstood(a)
    ensures Sound(a.u, s', Since(a), i, s'.locals[i])
  {
    HeldIsSound(a, s, step, s', i);
    var l := s'.locals[i];
    if l.reference1 != "" {
      ByzReferencedKept(a, s, step, s', i, l.reference1);
    }
    if l.reference2 != "" {
      ByzReferencedKept(a, s, step, s', i, l.reference2);
    }
    forall x | 0 <= x < 3 && l.slots[x] != ""
      ensures Justified(a.u, s', Since(a), i, l.slots[x])
    {
      ByzJustifiedKept(a, s, step, s', i, l.slots[x]);
    }
  }

  // ----- Runs ------------------------------------------------------------------------------------------------------

  ghost predicate ByzTbbInv(a: DSB.Attack, s: TbbNet) {
    Typed(a.u, s) && ByzPartsInv(a, s) && Linked(a.u, s) && LocalsSound(a.u, s, Since(a))
  }

  lemma ByzTbbInvInit(a: DSB.Attack, s: TbbNet)
    requires a.Valid() && Init(a.u, s)
    ensures ByzTbbInv(a, s)
  {
    DSB.ByzInvInit(a, s.ds);
    BBA.DbbInvInit(Injecting(a.u), s.bb);
  }

  lemma ByzTbbInvNext(a: DSB.Attack, s: TbbNet, step: ByzStep, s': TbbNet)
    requires a.Valid() && Withstood(a) && ByzNext(a, s, step, s') && ByzTbbInv(a, s)
    ensures ByzTbbInv(a, s')
  {
    ByzTypedNext(a, s, step, s');
    ByzPartsInvNext(a, s, step, s');
    ByzLinkedNext(a, s, step, s');
    forall i | i in a.u.active
      ensures Sound(a.u, s', Since(a), i, s'.locals[i])
    {
      ByzSoundNext(a, s, step, s', i);
    }
  }

  lemma RunStep(a: DSB.Attack, run: seq<TbbNet>, steps: seq<ByzStep>, k: nat)
    requires IsAttackRun(a, run, steps) && k < |steps|
    ensures ByzNext(a, run[k], steps[k], run[k + 1])
  {
  }

  lemma ByzTbbInvStep(a: DSB.Attack, run: seq<TbbNet>, steps: seq<ByzStep>, k: nat)
    requires IsAttackRun(a, run, steps) && Withstood(a) && 0 < k <= |steps| && ByzTbbInv(a, run[k - 1])
    ensures ByzTbbInv(a, run[k])
  {
    RunStep(a, run, steps, k - 1);
    var s, s' := run[k - 1], run[k];
    ByzTbbInvNext(a, s, steps[k - 1], s');
  }

  lemma {:induction false} ByzTbbInvRun(a: DSB.Attack, run: seq<TbbNet>, steps: seq<ByzStep>, k: nat)
    requires IsAttackRun(a, run, steps) && Withstood(a) && k <= |steps|
    ensures ByzTbbInv(a, run[k])
  {
    if k == 0 {
      ByzTbbInvInit(a, run[0]);
    } else {
      ByzTbbInvRun(a, run, steps, k - 1);
      ByzTbbInvStep(a, run, steps, k);
    }
  }

  lemma ByzJustifiedStep(a: DSB.Attack, run: seq<TbbNet>, steps: seq<ByzStep>, k: nat, i: NodeId, v: Value)
    requires IsAttackRun(a, run, steps) && Withstood(a) && k < |steps|
    requires Typed(a.u, run[k]) && Justified(a.u, run[k], Since(a), i, v)
    ensures Typed(a.u, run[k + 1]) && Justified(a.u, run[k + 1], Since(a), i, v)
  {
    ByzTbbInvRun(a, run, steps, k + 1);
    ByzTbbInvRun(a, run, steps, k);
    ByzJustifiedKept(a, run[k], steps[k], run[k + 1], i, v);
  }

  lemma {:induction false} ByzJustifiedStays(a: DSB.Attack, run: seq<TbbNet>, steps: seq<ByzStep>, k: nat, l: nat,
                                             i: NodeId, v: Value)
    requires IsAttackRun(a, run, steps) && Withstood(a) && k <= l <= |steps|
    requires Typed(a.u, run[k]) && Justified(a.u, run[k], Since(a), i, v)
    ensures Typed(a.u, run[l]) && Justified(a.u, run[l], Since(a), i, v)
  {
    if k < l {
      ByzJustifiedStays(a, run, steps, k, l - 1, i, v);
      ByzJustifiedStep(a, run, steps, l - 1, i, v);
      assert run[l - 1 + 1] == run[l];
    }
  }

  lemma ByzSlotJustified(a: DSB.Attack, run: seq<TbbNet>, steps: seq<ByzStep>, k: nat, i: NodeId, x: nat)
    requires IsAttackRun(a, run, steps) && Withstood(a) && k <= |steps| && i in a.u.active && x < 3
    ensures Typed(a.u, run[k])
    ensures run[k].locals[i].slots[x] != "" ==> Justified(a.u, run[k], Since(a), i, run[k].locals[i].slots[x])
  {
    ByzTbbInvRun(a, run, steps, k);
    assert Sound(a.u, run[k], Since(a), i, run[k].locals[i]);
  }

  /** Two honest nodes, at two moments of a run, have committed different values, at any commit points. */
  ghost predicate Disagree(a: DSB.Attack, run: seq<TbbNet>, steps: seq<ByzStep>, k: nat, i: NodeId, x: nat,
                           l: nat, j: NodeId, y: nat) {
    && IsAttackRun(a, run, steps) && k <= |steps| && l <= |steps| && Typed(a.u, run[k]) && Typed(a.u, run[l])
    && i in a.u.active && j in a.u.active && x < 3 && y < 3
    && run[k].locals[i].slots[x] != "" && run[l].locals[j].slots[y] != ""
    && run[k].locals[i].slots[x] != run[l].locals[j].slots[y]
  }

  /** That never happens, whatever the faulty nodes send. */
  lemma ByzantineAgreement(a: DSB.Attack, run: seq<TbbNet>, steps: seq<ByzStep>, k: nat, i: NodeId, x: nat,
                           l: nat, j: NodeId, y: nat)
    requires Withstood(a)
    ensures !Disagree(a, run, steps, k, i, x, l, j, y)
  {
    if Disagree(a, run, steps, k, i, x, l, j, y) {
      ByzSlotJustified(a, run, steps, k, i, x);
      ByzSlotJustified(a, run, steps, l, j, y);
      var v, w := run[k].locals[i].slots[x], run[l].locals[j].slots[y];
      var m := if k < l then l else k;
      ByzJustifiedStays(a, run, steps, k, m, i, v);
      ByzJustifiedStays(a, run, steps, l, m, j, w);
      ByzTbbInvRun(a, run, steps, m);
      ByzJustifiedOnce(a, run[m], i, v, j, w);
    }
  }

  lemma ByzJustifiedIsProposed(a: DSB.Attack, s: TbbNet, i: NodeId, w: Value, v: Value)
    requires Typed(a.u, s) && ByzPartsInv(a, s) && Linked(a.u, s) && Withstood(a) && Justified(a.u, s, Since(a), i, w)
    requires VIEW in a.u.active && a.u.HonestView(v)
    ensures w == v
  {
    if Certified(s, w) {
      var b := VoterHolds(a, s, w);
      DSBA.HonestProposal(a, s.ds, v, b.node);
    } else {
      assert w in s.ds.nodes[i].extrSet;
      DSBA.HonestProposal(a, s.ds, v, i);
    }
  }

  /** With an honest view node they are its proposal. */
  lemma ByzantineValidity(a: DSB.Attack, run: seq<TbbNet>, steps: seq<ByzStep>, k: nat, i: NodeId, x: nat, v: Value)
    requires IsAttackRun(a, run, steps) && Withstood(a) && VIEW in a.u.active && a.u.HonestView(v)
    requires k <= |steps| && i in a.u.active && x < 3
    ensures Typed(a.u, run[k]) && run[k].locals[i].slots[x] in {"", v}
  {
    ByzSlotJustified(a, run, steps, k, i, x);
    if run[k].locals[i].slots[x] != "" {
      ByzTbbInvRun(a, run, steps, k);
      ByzJustifiedIsProposed(a, run[k], i, run[k].locals[i].slots[x], v);
    }
  }

  // ----- A quorum of faulty nodes breaks it ------------------------------------------------------------------------

  ghost predicate Reachable(a: DSB.Attack, s: TbbNet) {
    exists run, steps :: IsAttackRun(a, run, steps) && run[|steps|] == s
  }

  lemma Reaches(a: DSB.Attack, s: TbbNet, step: ByzStep, s': TbbNet)
    requires Reachable(a, s) && ByzNext(a, s, step, s')
    ensures Reachable(a, s')
  {
    var run, steps :| IsAttackRun(a, run, steps) && run[|steps|] == s;
    var run', steps' := run + [s'], steps + [step];
    assert IsAttackRun(a, run', steps') && run'[|steps'|] == s';
  }

  /** A state at time 0 of a run. */
  ghost predicate Early(a: DSB.Attack, s: TbbNet) {
    Typed(a.u, s) && BB.Typed(a.u, s.bb) && Reachable(a, s) && s.bb.now == 0
  }

  /** Node i has counted votes of the signers for v, and has no certificate. */
  ghost predicate Fed(s: DeltaBB.DbbState, v: Value, signers: set<NodeId>) {
    && s.qcMap == map[] && s.blckSet == {} && s.trigger == 0
    && DeltaBB.Signers(s.voteMap, v) == BBC.SingleSignatures(signers, v)
  }

  ghost predicate OnlyNode(s: TbbNet, s': TbbNet, i: NodeId) {
    && |s'.bb.nodes| == |s.bb.nodes| && |s'.locals| == |s.locals|
    && (forall j :: 0 <= j < |s.bb.nodes| && j != i ==> s'.bb.nodes[j] == s.bb.nodes[j])
    && (forall j :: 0 <= j < |s.locals| && j != i ==> s'.locals[j] == s.locals[j])
  }

  lemma OneMoreSigner(s: DeltaBB.DbbState, v: Value, signers: set<NodeId>, k: NodeId)
    requires Fed(s, v, signers) && k !in signers
    ensures var more := DeltaBB.Signers(DeltaBB.Sign(s.voteMap, v, Single(k, v)), v);
      more == BBC.SingleSignatures(signers + {k}, v) && |more| == |signers| + 1
  {
    BBC.SingleSignaturesSize(signers + {k}, v);
  }

  lemma CertifiesFirst(c: Config, s: DeltaBB.DbbState, v: Value)
    requires c.Valid() && s.blckSet == {} && s.trigger == 0
    ensures var s' := DeltaBB.Certify(c, 0, s, v).state; s'.trigger == 1 && s'.commitValue == v
  {
    AtMonotone(c, 1, 3);
    assert s.blckSet + {v} == {v};
    assert |{v}| == 1;
  }

  /** One vote more; with the last one of a quorum the value is certified before tick 3. */
  lemma FedOnce(c: Config, s: DeltaBB.DbbState, v: Value, signers: set<NodeId>, k: NodeId)
    requires c.Valid() && Fed(s, v, signers) && k !in signers && |signers| < c.Quorum()
    ensures var s' := DeltaBB.OnVote(c, 0, s, DeltaBB.VoteContent(k, v, Single(k, v))).state;
      if |signers| + 1 < c.Quorum() then Fed(s', v, signers + {k}) else s'.trigger == 1 && s'.commitValue == v
  {
    OneMoreSigner(s, v, signers, k);
    if |signers| + 1 == c.Quorum() {
      CertifiesFirst(c, s.(voteMap := DeltaBB.Sign(s.voteMap, v, Single(k, v))), v);
    }
  }

  /** A faulty node's vote reaches node i. */
  lemma Feed(a: DSB.Attack, s: TbbNet, i: NodeId, v: Value, k: NodeId) returns (s': TbbNet)
    requires a.Valid() && Early(a, s) && i in a.u.active && k in a.Faulty()
    ensures Early(a, s') && OnlyNode(s, s', i) && s'.locals == s.locals
    ensures s'.bb.nodes[i] == DeltaBB.OnVote(a.u.c, 0, s.bb.nodes[i], DeltaBB.VoteContent(k, v, Single(k, v))).state
  {
    var vote := DeltaBB.VoteContent(k, v, Single(k, v));
    s' := s.(bb := BB.CountVote(a.u, s.bb, i, vote));
    assert BB.Next(Injecting(a.u), s.bb, BB.InjectVote(i, vote), s'.bb);
    Reaches(a, s, ByzVoting(BB.InjectVote(i, vote)), s');
  }

  /** Votes of a quorum of faulty nodes, one after the other. */
  lemma {:induction false} Forge(a: DSB.Attack, s: TbbNet, i: NodeId, v: Value, signers: set<NodeId>)
    returns (s': TbbNet)
    requires a.Valid() && Early(a, s) && i in a.u.active && Fed(s.bb.nodes[i], v, signers) && signers <= a.Faulty()
    requires |signers| < a.u.c.Quorum() <= |a.Faulty()|
    ensures Early(a, s') && OnlyNode(s, s', i) && s'.locals == s.locals
    ensures s'.bb.nodes[i].trigger == 1 && s'.bb.nodes[i].commitValue == v
    decreases a.u.c.Quorum() - |signers|
  {
    assert a.Faulty() == signers + (a.Faulty() - signers);
    var k :| k in a.Faulty() - signers;
    FedOnce(a.u.c, s.bb.nodes[i], v, signers, k);
    s' := Feed(a, s, i, v, k);
    if |signers| + 1 < a.u.c.Quorum() {
      s' := Forge(a, s', i, v, signers + {k});
    }
  }

  /** And the node commits the value. */
  lemma Commits(a: DSB.Attack, s: TbbNet, i: NodeId, v: Value) returns (s': TbbNet)
    requires a.Valid() && Early(a, s) && i in a.u.active && s.bb.nodes[i] == DeltaBB.CLEARED
    requires 0 < a.u.c.Quorum() <= |a.Faulty()|
    ensures Early(a, s') && OnlyNode(s, s', i) && s'.locals[i].slots[0] == v
  {
    assert Fed(s.bb.nodes[i], v, {});
    var t := Forge(a, s, i, v, {});
    s' := TakesTrigger(a, t, i);
  }

  lemma TakesTrigger(a: DSB.Attack, s: TbbNet, i: NodeId) returns (s': TbbNet)
    requires a.Valid() && Early(a, s) && i in a.u.active && s.bb.nodes[i].trigger == 1
    ensures Early(a, s') && OnlyNode(s, s', i) && s'.locals[i].slots[0] == s.bb.nodes[i].commitValue
  {
    var bb := BB.TimerFires(Silent(a.u), s.bb, BB.TakeTrigger(i));
    s' := s.(bb := bb, locals := s.locals[i := OnCommitPoint1(s.locals[i], s.bb.nodes[i])]);
    Reaches(a, s, Honest(Point1(i)), s');
  }

  function Start(u: Setup): TbbNet {
    var n := u.c.nodeNum;
    TbbNet(
      DS.DSNet(0, seq(n, _ => DolevStrong.DSState({}, "")), u.sent, multiset{}, u.active),
      BB.DbbNet(0, seq(n, _ => DeltaBB.CLEARED), u.sent, multiset{}, multiset{}, multiset{}, multiset{}, multiset{},
                u.active, u.active, {}, {}, map[]),
      seq(n, _ => FRESH), u.active, u.active, u.active, u.active)
  }

  lemma StartIsEarly(a: DSB.Attack)
    requires a.Valid()
    ensures Early(a, Start(a.u))
    ensures forall i :: 0 <= i < a.u.c.nodeNum ==> Start(a.u).bb.nodes[i] == DeltaBB.CLEARED
  {
    var run, steps := [Start(a.u)], [];
    assert IsAttackRun(a, run, steps) && run[|steps|] == Start(a.u);
  }

  /** If the faulty nodes are a quorum, two honest nodes can commit different values at time 0. */
  lemma FaultyQuorumBreaks(a: DSB.Attack, i: NodeId, j: NodeId)
    requires a.Valid() && 0 < a.u.c.Quorum() <= |a.Faulty()| && i in a.u.active && j in a.u.active && i != j
    ensures exists run, steps, k, l :: Disagree(a, run, steps, k, i, 0, l, j, 0)
  {
    StartIsEarly(a);
    var s := Commits(a, Start(a.u), i, "left");
    var s' := Commits(a, s, j, "right");
    assert "left"[0] != "right"[0];
    var run, steps :| IsAttackRun(a, run, steps) && run[|steps|] == s';
    assert Disagree(a, run, steps, |steps|, i, 0, |steps|, j, 0);
  }

  /** With timely messages or an honest view node, and reference points not before tick f + 1, two or more honest
      nodes never disagree if and only if there are more than f of them. */
  lemma AgreementExactly(a: DSB.Attack)
    requires a.Valid() && Prepared(a) && |a.u.active| >= 2
    ensures (forall run, steps, k, i, x, l, j, y :: !Disagree(a, run, steps, k, i, x, l, j, y))
      <==> |a.u.active| > a.u.c.malicious
  {
    if |a.u.active| > a.u.c.malicious {
      forall run, steps, k: nat, i, x: nat, l: nat, j, y: nat
        ensures !Disagree(a, run, steps, k, i, x, l, j, y)
      {
        ByzantineAgreement(a, run, steps, k, i, x, l, j, y);
      }
    } else {
      FaultyExactly(a.u);
      var i :| i in a.u.active;
      assert |a.u.active - {i}| >= 1;
      var j :| j in a.u.active - {i};
      FaultyQuorumBreaks(a, i, j);
    }
  }
}
