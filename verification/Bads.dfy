/** BADS* inside 1Δ-BB*, with silent faulty nodes: at most one value gets into the nodes' BABlckSets. */
module Bads {

  import opened Common
  import opened DeltaBB
  import opened Network
  import opened DeltaBBRuns
  import opened DeltaBBVotes
  import opened DeltaBBCertificates

  // ----- The invariant ---------------------------------------------------------------------------------------------

  function Inputters(inputs: map<NodeId, Value>, v: Value): set<NodeId> {
    set k | k in inputs && inputs[k] == v
  }

  /** A quorum of nodes had v as input. */
  predicate Backed(u: Setup, s: DbbNet, v: Value) {
    |Inputters(s.inputs, v)| >= u.c.Quorum()
  }

  /** The signature of a node on its own input. */
  predicate InputSignature(s: DbbNet, v: Value, sig: Signature) {
    sig.Single? && sig.content == v && sig.signer in s.inputs && s.inputs[sig.signer] == v
  }

  /** From tick 4 on, one signed input. */
  predicate SoloList(u: Setup, s: DbbNet, l: Packet<InputList>) {
    |l.msg.sigs| == 1 && InputSignature(s, l.msg.input, l.msg.sigs[0]) && l.sentAt == u.c.At(4)
  }

  /** From tick 6 on, a quorum in one signature. */
  predicate QuorumList(u: Setup, s: DbbNet, l: Packet<InputList>) {
    |l.msg.sigs| == 1 && Backed(u, s, l.msg.input) && u.c.At(6) <= l.sentAt
  }

  ghost predicate InputsOnce(u: Setup, s: DbbNet) {
    && (s.baPending != {} ==> s.now <= u.c.At(4))
    && s.baPending !! s.inputs.Keys && s.inputs.Keys <= u.active
  }

  ghost predicate ListsOnTime(u: Setup, s: DbbNet) {
    forall l :: l in s.forward2s ==> l.sentAt <= s.now < l.sentAt + u.c.tickInterval
  }

  ghost predicate ListsSound(u: Setup, s: DbbNet) {
    forall l :: l in s.forward2s ==> SoloList(u, s, l) || QuorumList(u, s, l)
  }

  ghost predicate WaitingSound(u: Setup, s: DbbNet) {
    forall w :: w in s.waiting ==> |w.msg.sigs| == 1 && Backed(u, s, w.msg.input)
  }

  predicate NodeSound(u: Setup, s: DbbNet, n: DbbState) {
    && (forall v <- n.baProposeMap, sig <- n.baProposeMap[v] :: InputSignature(s, v, sig))
    && (forall v <- n.baBlckSet :: Backed(u, s, v))
  }

  ghost predicate NodesSound(u: Setup, s: DbbNet) {
    forall j :: 0 <= j < |s.nodes| ==> NodeSound(u, s, s.nodes[j])
  }

  ghost predicate BadsInv(u: Setup, s: DbbNet) {
    InputsOnce(u, s) && ListsOnTime(u, s) && ListsSound(u, s) && WaitingSound(u, s) && NodesSound(u, s)
  }

  // ----- Inputs are only added -------------------------------------------------------------------------------------

  ghost predicate InputsGrow(s: DbbNet, s': DbbNet) {
    forall k :: k in s.inputs ==> k in s'.inputs && s'.inputs[k] == s.inputs[k]
  }

  lemma BackedKept(u: Setup, s: DbbNet, s': DbbNet, v: Value)
    requires Backed(u, s, v) && InputsGrow(s, s')
    ensures Backed(u, s', v)
  {
    SubsetSize(Inputters(s.inputs, v), Inputters(s'.inputs, v));
  }

  lemma NodeSoundKept(u: Setup, s: DbbNet, s': DbbNet, n: DbbState)
    requires NodeSound(u, s, n) && InputsGrow(s, s')
    ensures NodeSound(u, s', n)
  {
    forall v | v in n.baBlckSet
      ensures Backed(u, s', v)
    {
      BackedKept(u, s, s', v);
    }
  }

  lemma ListKept(u: Setup, s: DbbNet, s': DbbNet, l: Packet<InputList>)
    requires (SoloList(u, s, l) || QuorumList(u, s, l)) && InputsGrow(s, s')
    ensures SoloList(u, s', l) || QuorumList(u, s', l)
  {
    if QuorumList(u, s, l) {
      BackedKept(u, s, s', l.msg.input);
    }
  }

  // ----- Handlers --------------------------------------------------------------------------------------------------

  lemma SignersSound(u: Setup, s: DbbNet, n: DbbState, v: Value)
    requires NodeSound(u, s, n)
    ensures forall sig :: sig in Signers(n.baProposeMap, v) ==> InputSignature(s, v, sig)
    ensures |Signers(n.baProposeMap, v)| <= |Inputters(s.inputs, v)|
  {
    SingleSignaturesSize(Inputters(s.inputs, v), v);
    SubsetSize(Signers(n.baProposeMap, v), SingleSignatures(Inputters(s.inputs, v), v));
  }

  /** Signing a map with an input signature keeps a node sound. */
  lemma SignedSound(u: Setup, s: DbbNet, n: DbbState, v: Value, sig: Signature)
    requires NodeSound(u, s, n) && InputSignature(s, v, sig)
    ensures NodeSound(u, s, n.(baProposeMap := Sign(n.baProposeMap, v, sig)))
  {
    SignersSound(u, s, n, v);
  }

  /** A list with one signed input arrives before tick 5: it is counted, and a full quorum is backed. */
  lemma SoloArrives(u: Setup, s: DbbNet, i: NodeId, n: DbbState, l: Packet<InputList>)
    requires u.Valid() && NodeSound(u, s, n) && SoloList(u, s, l) && l.sentAt <= s.now < l.sentAt + u.c.tickInterval
    ensures var (o, later) := OnForward2(u.c, s.now, i, n, l.msg);
      && NodeSound(u, s, o.state) && o.sent == None
      && (later.Some? ==> |later.value.sigs| == 1 && Backed(u, s, later.value.input))
  {
    AtNext(u.c, 4);
    var t := n.(baProposeMap := Sign(n.baProposeMap, l.msg.input, l.msg.sigs[0]));
    SignedSound(u, s, n, l.msg.input, l.msg.sigs[0]);
    SignersSound(u, s, t, l.msg.input);
  }

  /** An aggregate arrives after tick 6: it is taken in, and its wait loop never ends. */
  lemma QuorumArrives(u: Setup, s: DbbNet, i: NodeId, n: DbbState, l: Packet<InputList>)
    requires u.Valid() && NodeSound(u, s, n) && QuorumList(u, s, l) && l.sentAt <= s.now
    ensures var (o, later) := OnForward2(u.c, s.now, i, n, l.msg);
      NodeSound(u, s, o.state) && o.sent == None && later == None
  {
    AtMonotone(u.c, 5, 6);
    TickBefore(u.c, s.now, 6);
    assert u.c.TickOf(s.now) >= 6;
  }

  // ----- Steps of BADS* --------------------------------------------------------------------------------------------

  /** A step leaves inputs alone; its new lists and waiting aggregates are listed. */
  ghost predicate ListsChange(s: DbbNet, s': DbbNet, news: multiset<Packet<InputList>>, waits: multiset<Waiting>) {
    && s'.inputs == s.inputs && s'.baPending == s.baPending
    && (forall l :: l in s'.forward2s ==> l in s.forward2s || l in news)
    && (forall w :: w in s'.waiting ==> w in s.waiting || w in waits)
  }

  lemma ListsKept(u: Setup, s: DbbNet, s': DbbNet, news: multiset<Packet<InputList>>, waits: multiset<Waiting>)
    requires ListsSound(u, s) && WaitingSound(u, s) && ListsChange(s, s', news, waits)
    requires forall l :: l in news ==> QuorumList(u, s, l)
    requires forall w :: w in waits ==> |w.msg.sigs| == 1 && Backed(u, s, w.msg.input)
    ensures ListsSound(u, s') && WaitingSound(u, s')
  {
  }

  lemma ListArrives(u: Setup, s: DbbNet, l: Packet<InputList>)
    requires BadsInv(u, s) && u.Valid() && l in s.forward2s && l.dst < |s.nodes|
    ensures |l.msg.sigs| > 0
    ensures var (o, later) := OnForward2(u.c, s.now, l.dst, s.nodes[l.dst], l.msg);
      && NodeSound(u, s, o.state) && o.sent == None
      && (later.Some? ==> |later.value.sigs| == 1 && Backed(u, s, later.value.input))
  {
    if SoloList(u, s, l) {
      SoloArrives(u, s, l.dst, s.nodes[l.dst], l);
    } else {
      QuorumArrives(u, s, l.dst, s.nodes[l.dst], l);
    }
  }

  /** The step by which a list arrives, given what the handler makes of it. */
  lemma TakesList(u: Setup, s: DbbNet, l: Packet<InputList>, s': DbbNet,
                  o: Outcome<InputList>, later: Option<InputList>)
    requires Typed(u, s) && l in s.forward2s && l.dst in u.active && Arrives(u, s, Forward2(l), s')
    requires (o, later) == OnForward2(u.c, s.now, l.dst, s.nodes[l.dst], l.msg) && o.sent == None
    ensures var waits := if later.Some? then multiset{Waiting(l.dst, later.value)} else multiset{};
      ListsChange(s, s', multiset{}, waits)
    ensures s'.nodes == s.nodes[l.dst := o.state] && s'.now == s.now
  {
  }

  lemma NodesTake(u: Setup, s: DbbNet, s': DbbNet, i: NodeId, n: DbbState)
    requires BadsInv(u, s) && i < |s.nodes| && NodeSound(u, s, n)
    requires s'.nodes == s.nodes[i := n] && s'.inputs == s.inputs
    ensures forall j: nat :: j < |s'.nodes| ==> NodeSound(u, s', s'.nodes[j])
  {
    forall j: nat | j < |s'.nodes|
      ensures NodeSound(u, s', s'.nodes[j])
    {
      NodeSoundKept(u, s, s', if j == i then n else s.nodes[j]);
    }
  }

  lemma BadsInvTakes(u: Setup, s: DbbNet, l: Packet<InputList>, s': DbbNet)
    requires Typed(u, s) && BadsInv(u, s) && l in s.forward2s && l.dst in u.active && Arrives(u, s, Forward2(l), s')
    ensures BadsInv(u, s')
  {
    ListArrives(u, s, l);
    var (o, later) := OnForward2(u.c, s.now, l.dst, s.nodes[l.dst], l.msg);
    TakesList(u, s, l, s', o, later);
    ListsKept(u, s, s', multiset{}, if later.Some? then multiset{Waiting(l.dst, later.value)} else multiset{});
    NodesTake(u, s, s', l.dst, o.state);
  }

  lemma Starts(u: Setup, s: DbbNet, i: NodeId, s': DbbNet)
    requires Typed(u, s) && InputsOnce(u, s) && i in s.baPending && Fires(u, s, FireBA(i), s') && u.c.At(4) <= s.now
    ensures s'.inputs == s.inputs[i := Input(s.nodes[i])] && s'.baPending == s.baPending - {i}
    ensures s'.now == s.now == u.c.At(4) && s'.waiting == s.waiting
    ensures s'.nodes == s.nodes[i := OnBAStart(i, s.nodes[i]).state]
    ensures forall l :: l in s'.forward2s ==>
        || l in s.forward2s
        || (l.sentAt == s.now && l.msg == InputList(Input(s.nodes[i]), [Single(i, Input(s.nodes[i]))], [i]))
    ensures InputsGrow(s, s')
  {
  }

  lemma BadsInvStarts(u: Setup, s: DbbNet, i: NodeId, s': DbbNet)
    requires Typed(u, s) && BadsInv(u, s) && i in s.baPending && Fires(u, s, FireBA(i), s') && u.c.At(4) <= s.now
    ensures BadsInv(u, s')
  {
    Starts(u, s, i, s');
    var v := Input(s.nodes[i]);
    assert InputSignature(s', v, Single(i, v));
    forall l | l in s'.forward2s
      ensures SoloList(u, s', l) || QuorumList(u, s', l)
    {
      if l in s.forward2s {
        ListKept(u, s, s', l);
      }
    }
    forall w | w in s'.waiting
      ensures |w.msg.sigs| == 1 && Backed(u, s', w.msg.input)
    {
      BackedKept(u, s, s', w.msg.input);
    }
    forall j: nat | j < |s'.nodes|
      ensures NodeSound(u, s', s'.nodes[j])
    {
      NodeSoundKept(u, s, s', s.nodes[j]);
      if j == i {
        SignedSound(u, s', s.nodes[i], v, Single(i, v));
      }
    }
  }

  lemma BadsInvWaits(u: Setup, s: DbbNet, w: Waiting, s': DbbNet)
    requires Typed(u, s) && BadsInv(u, s) && w in s.waiting && Fires(u, s, FireWaiting(w), s') && u.c.At(6) <= s.now
    ensures BadsInv(u, s')
  {
    var news := Broadcast(u.c.nodeNum, w.node, s.now, Some(w.msg));
    assert forall l :: l in news ==> l.msg == w.msg && l.sentAt == s.now;
    ListsKept(u, s, s', news, multiset{});
    forall j: nat | j < |s'.nodes|
      ensures NodeSound(u, s', s'.nodes[j])
    {
      NodeSoundKept(u, s, s', s.nodes[j]);
    }
  }

  // ----- Other steps -----------------------------------------------------------------------------------------------

  /** The steps that are not about BADS*; a list for a silent node is lost. */
  predicate NotBads(u: Setup, step: Step) {
    !step.FireBA? && !step.FireWaiting? && !step.InjectForward2? && (step.Forward2? ==> step.l.dst !in u.active)
  }

  lemma ArrivesNotBads(u: Setup, s: DbbNet, step: Step, s': DbbNet)
    requires Typed(u, s) && Arrives(u, s, step, s') && NotBads(u, step)
    ensures ListsChange(s, s', multiset{}, multiset{}) && s'.now == s.now
  {
  }

  lemma FiresNotBads(u: Setup, s: DbbNet, step: Step, s': DbbNet)
    requires Typed(u, s) && Fires(u, s, step, s') && NotBads(u, step)
    ensures ListsChange(s, s', multiset{}, multiset{}) && s'.now == s.now + if step.Tick? then 1 else 0
  {
  }

  lemma InjectsNotBads(u: Setup, s: DbbNet, step: Step, s': DbbNet)
    requires Typed(u, s) && Injects(u, s, step, s') && NotBads(u, step)
    ensures ListsChange(s, s', multiset{}, multiset{}) && s'.now == s.now
  {
  }

  lemma ListsNotBads(y: System, s: DbbNet, step: Step, s': DbbNet)
    requires Next(y, s, step, s') && NotBads(y.u, step)
    ensures ListsChange(s, s', multiset{}, multiset{}) && s'.now == s.now + if step.Tick? then 1 else 0
  {
    if Arrives(y.u, s, step, s') {
      ArrivesNotBads(y.u, s, step, s');
    } else if Fires(y.u, s, step, s') {
      FiresNotBads(y.u, s, step, s');
    } else {
      InjectsNotBads(y.u, s, step, s');
    }
  }

  predicate SameBads(n: DbbState, n': DbbState) {
    n'.baProposeMap == n.baProposeMap && n'.baBlckSet == n.baBlckSet
  }

  lemma VotingSame(c: Config, elapsed: nat, nid: NodeId, n: DbbState, vote: VoteContent)
    ensures SameBads(n, OnVote(c, elapsed, n, vote).state)
    ensures SameBads(n, OnVoteTimer(nid, n).state)
  {
  }

  lemma AfterVoteSame(u: Setup, s: DbbNet, step: Step, i: NodeId)
    requires Typed(u, s) && i < |s.nodes| && (step.Vote? || step.InjectVote?)
    ensures SameBads(s.nodes[i], NodeAfter(u, s, step, i))
  {
    VotingSame(u.c, s.now, i, s.nodes[i], if step.Vote? then step.p.msg else step.vote);
  }

  lemma AfterNotBads(u: Setup, s: DbbNet, step: Step, i: NodeId)
    requires Typed(u, s) && i < |s.nodes| && NotBads(u, step) && (step.Forward2? ==> step.l in s.forward2s)
    requires !step.Vote? && !step.InjectVote?
    ensures SameBads(s.nodes[i], NodeAfter(u, s, step, i))
  {
    if step.FireVote? {
      VotingSame(u.c, s.now, i, s.nodes[i], VoteContent(0, "", Single(0, "")));
    }
  }

  lemma TimesNotBads(y: System, s: DbbNet, step: Step, s': DbbNet)
    requires Next(y, s, step, s') && NotBads(y.u, step) && InputsOnce(y.u, s) && ListsOnTime(y.u, s)
    ensures InputsOnce(y.u, s') && ListsOnTime(y.u, s')
  {
    ListsNotBads(y, s, step, s');
    if step.Tick? {
      assert MayTick(y.u, s);
    }
  }

  lemma BadsInvOther(y: System, s: DbbNet, step: Step, s': DbbNet)
    requires Next(y, s, step, s') && NotBads(y.u, step) && BadsInv(y.u, s)
    ensures BadsInv(y.u, s')
  {
    TimesNotBads(y, s, step, s');
    ListsNotBads(y, s, step, s');
    ListsKept(y.u, s, s', multiset{}, multiset{});
    SameSize(y, s, step, s');
    forall j: nat | j < |s'.nodes|
      ensures NodeSound(y.u, s', s'.nodes[j])
    {
      NodeNext(y, s, step, s', j);
      if step.Vote? || step.InjectVote? {
        AfterVoteSame(y.u, s, step, j);
      } else {
        AfterNotBads(y.u, s, step, j);
      }
      NodeSoundKept(y.u, s, s', s.nodes[j]);
    }
  }

  lemma BadsInvNext(y: System, s: DbbNet, step: Step, s': DbbNet)
    requires Next(y, s, step, s') && !y.injecting && BadsInv(y.u, s)
    ensures BadsInv(y.u, s')
  {
    if NotBads(y.u, step) {
      BadsInvOther(y, s, step, s');
    } else if step.FireBA? {
      BadsInvStarts(y.u, s, step.i, s');
    } else if step.FireWaiting? {
      BadsInvWaits(y.u, s, step.w, s');
    } else {
      BadsInvTakes(y.u, s, step.l, s');
    }
  }

  lemma {:induction false} BadsInvRun(y: System, run: seq<DbbNet>, steps: seq<Step>, k: nat)
    requires IsRun(y, run, steps) && !y.injecting && k <= |steps|
    ensures BadsInv(y.u, run[k])
  {
    if k > 0 {
      BadsInvRun(y, run, steps, k - 1);
      BadsInvNext(y, run[k - 1], steps[k - 1], run[k - 1 + 1]);
      assert run[k - 1 + 1] == run[k];
    }
  }

  // ----- Uniqueness ------------------------------------------------------------------------------------------------

  /** Two values with a quorum of inputs each would need more nodes than there are. */
  lemma BackedOnce(u: Setup, s: DbbNet, v: Value, w: Value)
    requires u.Valid() && InputsOnce(u, s) && Backed(u, s, v) && Backed(u, s, w) && 2 * u.c.Quorum() > u.c.nodeNum
    ensures v == w
  {
    var a, b := Inputters(s.inputs, v), Inputters(s.inputs, w);
    if v != w {
      assert a !! b;
      assert |a + b| == |a| + |b|;
      SubsetSize(a + b, Ids(u.c.nodeNum));
    }
  }

  lemma InputsNext(y: System, s: DbbNet, step: Step, s': DbbNet)
    requires Next(y, s, step, s') && InputsOnce(y.u, s)
    ensures InputsGrow(s, s')
  {
    if NotBads(y.u, step) {
      ListsNotBads(y, s, step, s');
    } else if step.FireBA? {
      Starts(y.u, s, step.i, s');
    }
  }

  lemma {:induction false} InputsKept(y: System, run: seq<DbbNet>, steps: seq<Step>, k: nat, l: nat)
    requires IsRun(y, run, steps) && !y.injecting && k <= l <= |steps|
    ensures InputsGrow(run[k], run[l])
  {
    if k < l {
      InputsKept(y, run, steps, k, l - 1);
      BadsInvRun(y, run, steps, l - 1);
      InputsNext(y, run[l - 1], steps[l - 1], run[l - 1 + 1]);
    }
  }

  lemma BackedInRun(y: System, run: seq<DbbNet>, steps: seq<Step>, k: nat, m: nat, i: NodeId, v: Value)
    requires IsRun(y, run, steps) && !y.injecting && k <= m <= |steps|
    requires i < |run[k].nodes| && v in run[k].nodes[i].baBlckSet
    ensures Backed(y.u, run[m], v)
  {
    BadsInvRun(y, run, steps, k);
    assert NodeSound(y.u, run[k], run[k].nodes[i]);
    InputsKept(y, run, steps, k, m);
    BackedKept(y.u, run[k], run[m], v);
  }

  /** If two quorums intersect, at most one value ever gets into the BABlckSets of all nodes together. */
  lemma BadsUniqueness(y: System, run: seq<DbbNet>, steps: seq<Step>, k: nat, l: nat, i: NodeId, j: NodeId,
                       v: Value, w: Value)
    requires IsRun(y, run, steps) && !y.injecting && k <= |steps| && l <= |steps| && 2 * y.u.c.Quorum() > y.u.c.nodeNum
    requires i < |run[k].nodes| && v in run[k].nodes[i].baBlckSet
    requires j < |run[l].nodes| && w in run[l].nodes[j].baBlckSet
    ensures v == w
  {
    var m := if k < l then l else k;
    BackedInRun(y, run, steps, k, m, i, v);
    BackedInRun(y, run, steps, l, m, j, w);
    BadsInvRun(y, run, steps, m);
    BackedOnce(y.u, run[m], v, w);
  }
}
