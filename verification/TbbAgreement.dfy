/** TBB agreement: whatever the commit point, the node and the moment, all committed values are one. */
module TbbAgreement {

  import opened Common
  import opened Network
  import opened Tbb
  import opened TbbRuns
  import DS = DolevStrongRuns
  import DSA = DolevStrongAgreement
  import BB = DeltaBBRuns
  import BBV = DeltaBBVotes
  import BBC = DeltaBBCertificates
  import BBA = DeltaBBAgreement

  // ----- The sub-modules' invariants, and their link ---------------------------------------------------------------

  ghost predicate PartsInv(u: Setup, s: TbbNet) {
    DS.Inv(u, s.ds) && BBA.DbbInv(Silent(u), s.bb)
  }

  lemma PartsInvNext(u: Setup, s: TbbNet, step: Step, s': TbbNet)
    requires Next(u, s, step, s') && PartsInv(u, s)
    ensures PartsInv(u, s')
  {
    Parts(u, s, step, s');
    DSInvNext(u, s, step, s');
    BBInvNext(u, s, step, s');
  }

  lemma DSInvNext(u: Setup, s: TbbNet, step: Step, s': TbbNet)
    requires Next(u, s, step, s') && DS.Inv(u, s.ds)
    ensures DS.Inv(u, s'.ds)
  {
    Parts(u, s, step, s');
    match DSPart(step)
    case Some(d) => DS.InvNext(u, s.ds, d, s'.ds);
    case None =>
  }

  lemma BBInvNext(u: Setup, s: TbbNet, step: Step, s': TbbNet)
    requires Next(u, s, step, s') && BBA.DbbInv(Silent(u), s.bb)
    ensures BBA.DbbInv(Silent(u), s'.bb)
  {
    Parts(u, s, step, s');
    match BBPart(step)
    case Some(b) => BBA.DbbInvNext(Silent(u), s.bb, b, s'.bb);
    case None =>
  }

  /** Both modules see the same proposals: what 1Δ-BB* took in, Dolev-Strong has extracted. */
  ghost predicate Linked(u: Setup, s: TbbNet) {
    && s.ds.now == s.bb.now
    && (forall h :: h in s.bb.handled ==> h.node < |s.ds.nodes| && h.value in s.ds.nodes[h.node].extrSet)
  }

  ghost predicate ExtrGrow(s: DS.DSNet, s': DS.DSNet) {
    |s'.nodes| == |s.nodes| && forall i :: 0 <= i < |s.nodes| ==> s.nodes[i].extrSet <= s'.nodes[i].extrSet
  }

  lemma ExtrGrows(u: Setup, s: DS.DSNet, d: DS.Step, s': DS.DSNet)
    requires DS.Next(u, s, d, s') && DS.OnTime(u, s)
    ensures ExtrGrow(s, s') && s'.now == s.now + if d.Tick? then 1 else 0
    ensures d.Propose? && d.q.dst in u.active ==> d.q.req.content in s'.nodes[d.q.dst].extrSet
  {
    if d.Propose? && d.q.dst in u.active {
      DS.ProposeTookIn(u, s, d.q);
    } else if d.Forward? && d.p.dst in u.active {
      DS.ForwardTookIn(u, s, d.p);
    } else {
      DS.OtherTookNothing(u, s, d, s');
    }
  }

  lemma HandledArrives(u: Setup, s: BB.DbbNet, b: BB.Step, s': BB.DbbNet)
    requires BB.Typed(u, s) && BB.Arrives(u, s, b, s')
    ensures s'.handled ==
      if b.Propose? && b.q.dst in u.active then s.handled + {BB.Event(b.q.dst, b.q.req.content, s.now)} else s.handled
    ensures s'.now == s.now
  {
  }

  lemma HandledFires(u: Setup, s: BB.DbbNet, b: BB.Step, s': BB.DbbNet)
    requires BB.Typed(u, s) && BB.Fires(u, s, b, s')
    ensures s'.handled == s.handled && s'.now == s.now + if b.Tick? then 1 else 0
  {
  }

  lemma HandledNext(u: Setup, s: BB.DbbNet, b: BB.Step, s': BB.DbbNet)
    requires BB.Next(Silent(u), s, b, s')
    ensures s'.handled ==
      if b.Propose? && b.q.dst in u.active then s.handled + {BB.Event(b.q.dst, b.q.req.content, s.now)} else s.handled
    ensures s'.now == s.now + if b.Tick? then 1 else 0
  {
    if BB.Arrives(u, s, b, s') {
      HandledArrives(u, s, b, s');
    } else if BB.Fires(u, s, b, s') {
      HandledFires(u, s, b, s');
    }
  }

  lemma LinkedKept(u: Setup, s: TbbNet, s': TbbNet, news: set<BB.Event>)
    requires Linked(u, s) && s'.ds.now == s'.bb.now && ExtrGrow(s.ds, s'.ds) && s'.bb.handled == s.bb.handled + news
    requires forall h :: h in news ==> h.node < |s'.ds.nodes| && h.value in s'.ds.nodes[h.node].extrSet
    ensures Linked(u, s')
  {
    forall h | h in s'.bb.handled
      ensures h.node < |s'.ds.nodes| && h.value in s'.ds.nodes[h.node].extrSet
    {
      if h in s.bb.handled {
        assert s.ds.nodes[h.node].extrSet <= s'.ds.nodes[h.node].extrSet;
      }
    }
  }

  function NewlyHandled(u: Setup, now: nat, step: Step): set<BB.Event> {
    if step.Propose? && step.q.dst in u.active then {BB.Event(step.q.dst, step.q.req.content, now)} else {}
  }

  lemma DSGrows(u: Setup, s: TbbNet, step: Step, s': TbbNet)
    requires Next(u, s, step, s') && DS.OnTime(u, s.ds)
    ensures ExtrGrow(s.ds, s'.ds) && s'.ds.now == s.ds.now + if step.Tick? then 1 else 0
    ensures forall h :: h in NewlyHandled(u, s.bb.now, step) ==>
        h.node < |s'.ds.nodes| && h.value in s'.ds.nodes[h.node].extrSet
  {
    Parts(u, s, step, s');
    match DSPart(step)
    case Some(d) => ExtrGrows(u, s.ds, d, s'.ds);
    case None =>
  }

  lemma HandledGrows(u: Setup, s: TbbNet, step: Step, s': TbbNet)
    requires Next(u, s, step, s')
    ensures s'.bb.handled == s.bb.handled + NewlyHandled(u, s.bb.now, step)
    ensures s'.bb.now == s.bb.now + if step.Tick? then 1 else 0
  {
    Parts(u, s, step, s');
    match BBPart(step)
    case Some(b) => HandledNext(u, s.bb, b, s'.bb);
    case None =>
  }

  lemma LinkedNext(u: Setup, s: TbbNet, step: Step, s': TbbNet)
    requires Next(u, s, step, s') && DS.OnTime(u, s.ds) && Linked(u, s)
    ensures Linked(u, s')
  {
    DSGrows(u, s, step, s');
    HandledGrows(u, s, step, s');
    LinkedKept(u, s, s', NewlyHandled(u, s.bb.now, step));
  }

  // ----- Why a value may be committed ------------------------------------------------------------------------------

  /** Some node has a certificate for v. */
  ghost predicate Certified(s: TbbNet, v: Value) {
    exists j :: 0 <= j < |s.bb.nodes| && v in s.bb.nodes[j].blckSet
  }

  /** Node i has extracted v alone, at a time from which on extracted sets are final: tick 2 if the faulty nodes are
      silent. */
  ghost predicate Referenced(u: Setup, s: TbbNet, since: nat, i: NodeId, v: Value)
    requires Typed(u, s)
  {
    i in u.active && since <= s.ds.now && s.ds.nodes[i].extrSet == {v}
  }

  ghost predicate Justified(u: Setup, s: TbbNet, since: nat, i: NodeId, v: Value)
    requires Typed(u, s)
  {
    Certified(s, v) || Referenced(u, s, since, i, v)
  }

  /** A certified value was voted for by an active node other than the view node, which took it in and so extracted
      it. */
  lemma CertifiedIsExtracted(u: Setup, s: TbbNet, v: Value) returns (b: BB.Event)
    requires Typed(u, s) && PartsInv(u, s) && Linked(u, s) && Certified(s, v) && u.c.Quorum() >= 2
    ensures b in s.bb.ballots && b.value == v && b.node in u.active && b.node != VIEW
    ensures v in s.ds.nodes[b.node].extrSet
  {
    var j: nat :| j < |s.bb.nodes| && v in s.bb.nodes[j].blckSet;
    assert BBC.OneShot(s.bb.nodes[j]);
    FewDeviators(u);
    b := BBC.HonestVoteBehind(Silent(u), s.bb, j, v);
    assert BBV.Founded(u, s.bb, b);
  }

  lemma FewDeviators(u: Setup)
    ensures |BBC.Deviators(Silent(u))| <= 1
  {
    SubsetSize(BBC.Deviators(Silent(u)), {VIEW});
  }

  lemma CertifiedOnce(u: Setup, s: TbbNet, v: Value, w: Value)
    requires Typed(u, s) && PartsInv(u, s) && Linked(u, s) && Certified(s, v) && Certified(s, w) && u.c.Quorum() >= 2
    ensures v == w
  {
    var a := CertifiedIsExtracted(u, s, v);
    var b := CertifiedIsExtracted(u, s, w);
    BBV.VotesAgree(u, s.bb, a, b);
  }

  /** The value flooded from the voter to the node with the reference. */
  lemma CertifiedIsReference(u: Setup, s: TbbNet, v: Value, i: NodeId, w: Value)
    requires Typed(u, s) && PartsInv(u, s) && Linked(u, s) && u.c.Quorum() >= 2
    requires Certified(s, v) && Referenced(u, s, u.c.At(2), i, w)
    ensures v == w
  {
    var b := CertifiedIsExtracted(u, s, v);
    DSA.FloodComplete(u, s.ds, b.node, i);
  }

  lemma ReferencedOnce(u: Setup, s: TbbNet, i: NodeId, v: Value, j: NodeId, w: Value)
    requires Typed(u, s) && DS.Inv(u, s.ds)
    requires Referenced(u, s, u.c.At(2), i, v) && Referenced(u, s, u.c.At(2), j, w)
    ensures v == w
  {
    if i != VIEW {
      DSA.FloodComplete(u, s.ds, i, j);
      assert v in s.ds.nodes[i].extrSet;
    } else if j != VIEW {
      DSA.FloodComplete(u, s.ds, j, i);
      assert w in s.ds.nodes[j].extrSet;
    } else {
      assert v in s.ds.nodes[i].extrSet;
    }
  }

  lemma JustifiedOnce(u: Setup, s: TbbNet, i: NodeId, v: Value, j: NodeId, w: Value)
    requires Typed(u, s) && PartsInv(u, s) && Linked(u, s) && u.c.Quorum() >= 2
    requires Justified(u, s, u.c.At(2), i, v) && Justified(u, s, u.c.At(2), j, w)
    ensures v == w
  {
    if Certified(s, v) && Certified(s, w) {
      CertifiedOnce(u, s, v, w);
    } else if Certified(s, v) {
      CertifiedIsReference(u, s, v, j, w);
    } else if Certified(s, w) {
      CertifiedIsReference(u, s, w, i, v);
    } else {
      ReferencedOnce(u, s, i, v, j, w);
    }
  }

  // ----- Justifications stand --------------------------------------------------------------------------------------

  lemma CertifiedKept(u: Setup, s: TbbNet, step: Step, s': TbbNet, v: Value)
    requires Next(u, s, step, s') && BBA.NodesOneShot(s.bb) && Certified(s, v)
    ensures Certified(s', v)
  {
    Parts(u, s, step, s');
    var j: nat :| j < |s.bb.nodes| && v in s.bb.nodes[j].blckSet;
    match BBPart(step)
    case Some(b) => BBC.StepCommit(Silent(u), s.bb, b, s'.bb, j);
    case None =>
  }

  lemma ReferencedKept(u: Setup, s: TbbNet, step: Step, s': TbbNet, i: NodeId, v: Value)
    requires Next(u, s, step, s') && Typed(u, s') && DS.Inv(u, s.ds) && Referenced(u, s, u.c.At(2), i, v)
    ensures Referenced(u, s', u.c.At(2), i, v)
  {
    Parts(u, s, step, s');
    match DSPart(step)
    case Some(d) =>
      DSA.SetsFinal(u, s.ds, d, s'.ds, i);
      ExtrGrows(u, s.ds, d, s'.ds);
    case None =>
  }

  lemma JustifiedKept(u: Setup, s: TbbNet, step: Step, s': TbbNet, i: NodeId, v: Value)
    requires Next(u, s, step, s') && Typed(u, s') && PartsInv(u, s) && Justified(u, s, u.c.At(2), i, v)
    ensures Justified(u, s', u.c.At(2), i, v)
  {
    if Certified(s, v) {
      CertifiedKept(u, s, step, s', v);
    } else {
      ReferencedKept(u, s, step, s', i, v);
    }
  }

  // ----- The combiner's values -------------------------------------------------------------------------------------

  /** All that a combiner holds is justified in state s of the rest. */
  ghost predicate Sound(u: Setup, s: TbbNet, since: nat, i: NodeId, l: TbbState)
    requires Typed(u, s) && |l.slots| == 3
  {
    && (l.reference1 != "" ==> Referenced(u, s, since, i, l.reference1))
    && (l.reference2 != "" ==> Referenced(u, s, since, i, l.reference2))
    && (forall x :: 0 <= x < 3 && l.slots[x] != "" ==> Justified(u, s, since, i, l.slots[x]))
  }

  ghost predicate LocalsSound(u: Setup, s: TbbNet, since: nat)
    requires Typed(u, s)
  {
    forall i :: i in u.active ==> Sound(u, s, since, i, s.locals[i])
  }

  /** A quorum of at least two, and reference points not before tick 2. */
  predicate Protected(c: Config) {
    c.Quorum() >= 2 && c.t1 >= 1
  }

  /** Both reference points are at or after a time. */
  predicate ChecksFrom(c: Config, since: nat) {
    since <= Check1At(c) && since <= Check2At(c)
  }

  lemma ProtectedChecks(c: Config)
    requires c.Valid() && Protected(c)
    ensures ChecksFrom(c, c.At(2))
  {
    MulMonotone(2, c.t1 + 1, c.tickInterval);
    MulMonotone(2, c.nodeNum, c.tickInterval);
  }

  lemma SizesNext(u: Setup, s: TbbNet, step: Step, s': TbbNet)
    requires Next(u, s, step, s') && DS.OnTime(u, s.ds)
    ensures |s'.ds.nodes| == |s'.bb.nodes| == u.c.nodeNum
  {
    DSGrows(u, s, step, s');
    Parts(u, s, step, s');
    match BBPart(step)
    case Some(b) => BBC.SameSize(Silent(u), s.bb, b, s'.bb);
    case None =>
  }

  /** What a step does to the combiner of node i. */
  function LocalAfter(s: TbbNet, step: Step, i: NodeId): TbbState
    requires i < |s.locals| && |s.locals[i].slots| == 3 && |s.ds.nodes| == |s.bb.nodes| == |s.locals|
  {
    var l := s.locals[i];
    match step
    case Check1(j) => if i == j then OnReference1(l, s.ds.nodes[i]) else l
    case Check2(j) => if i == j then OnReference2(l, s.ds.nodes[i]) else l
    case Point1(j) => if i == j then OnCommitPoint1(l, s.bb.nodes[i]) else l
    case Point2(j) => if i == j then OnCommitPoint2(l, s.bb.nodes[i]) else l
    case Point3(j) => if i == j then OnCommitPoint3(l, s.bb.nodes[i]) else l
    case _ => l
  }

  lemma LocalsNext(u: Setup, s: TbbNet, step: Step, s': TbbNet)
    requires Next(u, s, step, s')
    ensures |s'.locals| == |s.locals| && forall i :: 0 <= i < |s.locals| ==> s'.locals[i] == LocalAfter(s, step, i)
    ensures s'.check1 <= s.check1 && s'.check2 <= s.check2 && s'.point2 <= s.point2 && s'.point3 <= s.point3
  {
  }

  lemma TypedNext(u: Setup, s: TbbNet, step: Step, s': TbbNet)
    requires Next(u, s, step, s') && DS.OnTime(u, s.ds)
    ensures Typed(u, s')
  {
    SizesNext(u, s, step, s');
    LocalsNext(u, s, step, s');
    assert forall i :: 0 <= i < |s.locals| ==> |LocalAfter(s, step, i).slots| == 3;
  }

  lemma SettledSound(u: Setup, s: TbbNet, since: nat, i: NodeId, reference: Value, otherwise: Value)
    requires Typed(u, s) && i in u.active
    requires reference != "" ==> Referenced(u, s, since, i, reference)
    requires otherwise != "" ==> Justified(u, s, since, i, otherwise)
    ensures var v := Settled(s.bb.nodes[i], reference, otherwise); v != "" ==> Justified(u, s, since, i, v)
  {
    if |s.bb.nodes[i].blckSet| == 1 {
      assert TheOnly(s.bb.nodes[i].blckSet) in s.bb.nodes[i].blckSet;
    }
  }

  lemma Point1Sound(u: Setup, s: TbbNet, s': TbbNet, since: nat, i: NodeId)
    requires Next(u, s, Point1(i), s') && BBA.NodesOneShot(s.bb) && i in u.active && Sound(u, s, since, i, s.locals[i])
    ensures Sound(u, s, since, i, OnCommitPoint1(s.locals[i], s.bb.nodes[i]))
  {
    assert BBC.OneShot(s.bb.nodes[i]) && s.bb.nodes[i].trigger > 0;
    assert Certified(s, s.bb.nodes[i].commitValue);
  }

  lemma Point2Sound(u: Setup, s: TbbNet, since: nat, i: NodeId)
    requires Typed(u, s) && i in u.active && Sound(u, s, since, i, s.locals[i])
    ensures Sound(u, s, since, i, OnCommitPoint2(s.locals[i], s.bb.nodes[i]))
  {
    SettledSound(u, s, since, i, s.locals[i].reference1, s.locals[i].slots[1]);
  }

  lemma Point3Sound(u: Setup, s: TbbNet, since: nat, i: NodeId)
    requires Typed(u, s) && i in u.active && Sound(u, s, since, i, s.locals[i])
    ensures Sound(u, s, since, i, OnCommitPoint3(s.locals[i], s.bb.nodes[i]))
  {
    SettledSound(u, s, since, i, s.locals[i].reference2, s.locals[i].slots[2]);
  }

  lemma LocalAfterSound(u: Setup, s: TbbNet, step: Step, s': TbbNet, since: nat, i: NodeId)
    requires Next(u, s, step, s') && BBA.NodesOneShot(s.bb) && i in u.active && ChecksFrom(u.c, since)
    requires Sound(u, s, since, i, s.locals[i])
    ensures Sound(u, s, since, i, LocalAfter(s, step, i))
  {
    match step
    case Point1(j) =>
      if i == j {
        Point1Sound(u, s, s', since, i);
      }
    case Point2(j) => Point2Sound(u, s, since, i);
    case Point3(j) => Point3Sound(u, s, since, i);
    case _ =>
  }

  lemma LocalSoundNext(u: Setup, s: TbbNet, step: Step, s': TbbNet, i: NodeId)
    requires Next(u, s, step, s') && Typed(u, s') && PartsInv(u, s) && Linked(u, s)
    requires i in u.active && Sound(u, s, u.c.At(2), i, s.locals[i]) && Protected(u.c)
    ensures Sound(u, s', u.c.At(2), i, s'.locals[i])
  {
    ProtectedChecks(u.c);
    LocalAfterSound(u, s, step, s', u.c.At(2), i);
    LocalsNext(u, s, step, s');
    var l := LocalAfter(s, step, i);
    if l.reference1 != "" {
      ReferencedKept(u, s, step, s', i, l.reference1);
    }
    if l.reference2 != "" {
      ReferencedKept(u, s, step, s', i, l.reference2);
    }
    forall x | 0 <= x < 3 && l.slots[x] != ""
      ensures Justified(u, s', u.c.At(2), i, l.slots[x])
    {
      JustifiedKept(u, s, step, s', i, l.slots[x]);
    }
  }

  // ----- Runs ------------------------------------------------------------------------------------------------------

  ghost predicate TbbInv(u: Setup, s: TbbNet) {
    Typed(u, s) && PartsInv(u, s) && Linked(u, s) && LocalsSound(u, s, u.c.At(2))
  }

  lemma TbbInvInit(u: Setup, s: TbbNet)
    requires Init(u, s)
    ensures TbbInv(u, s)
  {
    DS.InvInit(u, s.ds);
    BBA.DbbInvInit(Silent(u), s.bb);
  }

  lemma TbbInvNext(u: Setup, s: TbbNet, step: Step, s': TbbNet)
    requires Next(u, s, step, s') && TbbInv(u, s) && Protected(u.c)
    ensures TbbInv(u, s')
  {
    TypedNext(u, s, step, s');
    PartsInvNext(u, s, step, s');
    LinkedNext(u, s, step, s');
    forall i | i in u.active
      ensures Sound(u, s', u.c.At(2), i, s'.locals[i])
    {
      LocalSoundNext(u, s, step, s', i);
    }
  }

  lemma {:induction false} TbbInvRun(u: Setup, run: seq<TbbNet>, steps: seq<Step>, k: nat)
    requires IsRun(u, run, steps) && Protected(u.c) && k <= |steps|
    ensures TbbInv(u, run[k])
  {
    if k == 0 {
      TbbInvInit(u, run[0]);
    } else {
      TbbInvRun(u, run, steps, k - 1);
      TbbInvNext(u, run[k - 1], steps[k - 1], run[k - 1 + 1]);
      assert run[k - 1 + 1] == run[k];
    }
  }

  lemma RunTyped(u: Setup, run: seq<TbbNet>, steps: seq<Step>, k: nat)
    requires IsRun(u, run, steps) && Protected(u.c) && k <= |steps|
    ensures Typed(u, run[k])
  {
    TbbInvRun(u, run, steps, k);
  }

  lemma JustifiedStep(u: Setup, run: seq<TbbNet>, steps: seq<Step>, k: nat, i: NodeId, v: Value)
    requires IsRun(u, run, steps) && Protected(u.c) && k < |steps|
    requires Typed(u, run[k]) && Justified(u, run[k], u.c.At(2), i, v)
    ensures Typed(u, run[k + 1]) && Justified(u, run[k + 1], u.c.At(2), i, v)
  {
    RunTyped(u, run, steps, k + 1);
    TbbInvRun(u, run, steps, k);
    JustifiedKept(u, run[k], steps[k], run[k + 1], i, v);
  }

  lemma {:induction false} JustifiedStays(u: Setup, run: seq<TbbNet>, steps: seq<Step>, k: nat, l: nat,
                                          i: NodeId, v: Value)
    requires IsRun(u, run, steps) && Protected(u.c) && k <= l <= |steps|
    requires Typed(u, run[k]) && Justified(u, run[k], u.c.At(2), i, v)
    ensures Typed(u, run[l]) && Justified(u, run[l], u.c.At(2), i, v)
  {
    if k < l {
      JustifiedStays(u, run, steps, k, l - 1, i, v);
      JustifiedStep(u, run, steps, l - 1, i, v);
      assert run[l - 1 + 1] == run[l];
    }
  }

  lemma SlotJustified(u: Setup, run: seq<TbbNet>, steps: seq<Step>, k: nat, i: NodeId, x: nat)
    requires IsRun(u, run, steps) && Protected(u.c) && k <= |steps| && i in u.active && x < 3
    ensures Typed(u, run[k])
    ensures run[k].locals[i].slots[x] != "" ==> Justified(u, run[k], u.c.At(2), i, run[k].locals[i].slots[x])
  {
    TbbInvRun(u, run, steps, k);
    assert Sound(u, run[k], u.c.At(2), i, run[k].locals[i]);
  }

  /** All values ever committed, by any active node, the view node included, at any commit point, are equal. */
  lemma Agreement(u: Setup, run: seq<TbbNet>, steps: seq<Step>, k: nat, i: NodeId, x: nat, l: nat, j: NodeId, y: nat)
    requires IsRun(u, run, steps) && Protected(u.c) && k <= |steps| && l <= |steps|
    requires i in u.active && j in u.active && x < 3 && y < 3
    ensures Typed(u, run[k]) && Typed(u, run[l])
    ensures (var v, w := run[k].locals[i].slots[x], run[l].locals[j].slots[y]; v != "" && w != "" ==> v == w)
  {
    SlotJustified(u, run, steps, k, i, x);
    SlotJustified(u, run, steps, l, j, y);
    var v, w := run[k].locals[i].slots[x], run[l].locals[j].slots[y];
    if v != "" && w != "" {
      var m := if k < l then l else k;
      JustifiedStays(u, run, steps, k, m, i, v);
      JustifiedStays(u, run, steps, l, m, j, w);
      TbbInvRun(u, run, steps, m);
      JustifiedOnce(u, run[m], i, v, j, w);
    }
  }

  lemma {:induction false} AnswerIsASlot(slots: seq<Value>)
    ensures Answer(slots) != "" ==> exists x: nat :: x < |slots| && slots[x] == Answer(slots)
    ensures Answer(slots) == "" <==> forall x :: 0 <= x < |slots| ==> slots[x] == ""
  {
    if slots != [] && slots[0] == "" {
      AnswerIsASlot(slots[1..]);
      if Answer(slots) != "" {
        var x: nat :| x < |slots[1..]| && slots[1..][x] == Answer(slots[1..]);
        assert slots[x + 1] == Answer(slots);
      } else {
        assert forall x :: 1 <= x < |slots| ==> slots[x] == slots[1..][x - 1];
      }
    }
  }

  /** Clients that get an answer get the same answer, whatever active node they ask, and whenever. */
  lemma AnswersAgree(u: Setup, run: seq<TbbNet>, steps: seq<Step>, k: nat, i: NodeId, l: nat, j: NodeId)
    requires IsRun(u, run, steps) && Protected(u.c) && k <= |steps| && l <= |steps| && i in u.active && j in u.active
    ensures Typed(u, run[k]) && Typed(u, run[l])
    ensures (var v, w := Answer(run[k].locals[i].slots), Answer(run[l].locals[j].slots); v != "" && w != "" ==> v == w)
  {
    RunTyped(u, run, steps, k);
    RunTyped(u, run, steps, l);
    var a, b := run[k].locals[i].slots, run[l].locals[j].slots;
    AnswerIsASlot(a);
    AnswerIsASlot(b);
    if Answer(a) != "" && Answer(b) != "" {
      var x: nat :| x < |a| && a[x] == Answer(a);
      var y: nat :| y < |b| && b[y] == Answer(b);
      Agreement(u, run, steps, k, i, x, l, j, y);
    }
  }

  lemma JustifiedIsProposed(u: Setup, s: TbbNet, i: NodeId, w: Value, v: Value)
    requires Typed(u, s) && PartsInv(u, s) && Linked(u, s) && Justified(u, s, u.c.At(2), i, w)
    requires u.c.Quorum() >= 2 && u.HonestView(v)
    ensures w == v
  {
    if Certified(s, w) {
      var b := CertifiedIsExtracted(u, s, w);
      DSA.HonestSets(u, s.ds, v, b.node);
    } else {
      assert w in s.ds.nodes[i].extrSet;
      DSA.HonestSets(u, s.ds, v, i);
    }
  }

  /** If the view node is honest, nothing but its proposal is ever committed. */
  lemma Validity(u: Setup, run: seq<TbbNet>, steps: seq<Step>, k: nat, i: NodeId, x: nat, v: Value)
    requires IsRun(u, run, steps) && Protected(u.c) && k <= |steps| && i in u.active && x < 3 && u.HonestView(v)
    ensures Typed(u, run[k])
    ensures run[k].locals[i].slots[x] in {"", v}
  {
    SlotJustified(u, run, steps, k, i, x);
    if run[k].locals[i].slots[x] != "" {
      TbbInvRun(u, run, steps, k);
      JustifiedIsProposed(u, run[k], i, run[k].locals[i].slots[x], v);
    }
  }
}
