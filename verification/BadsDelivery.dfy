/** BADS* delivers: what becomes of the lists that arrive, and what a waiting aggregate leads to. */
module BadsDelivery {

  import opened Common
  import opened DeltaBB
  import opened Network
  import opened DeltaBBRuns
  import opened DeltaBBCertificates
  import opened DeltaBBAgreement
  import opened DolevStrongAgreement
  import Bads

  /** The list a step delivers to node i. */
  function ListTo(u: Setup, step: Step, i: NodeId): Option<InputList> {
    match step
    case Forward2(l) => if l.dst == i && i in u.active then Some(l.msg) else None
    case InjectForward2(dst, list) => if dst == i then Some(list) else None
    case _ => None
  }

  /** The signatures node i has collected on input v. */
  function InputsFor(s: DbbNet, i: NodeId, v: Value): set<Signature>
    requires i < |s.nodes|
  {
    Signers(s.nodes[i].baProposeMap, v)
  }

  function Undelivered(s: DbbNet, step: Step): multiset<Packet<InputList>> {
    if step.Forward2? then s.forward2s - multiset{step.l} else s.forward2s
  }

  // ----- A list arrives --------------------------------------------------------------------------------------------

  lemma EarlyList(c: Config, elapsed: nat, nid: NodeId, n: DbbState, m: InputList)
    requires c.Valid() && Readable(c, elapsed, m) && elapsed < c.At(5)
    ensures var (o, later) := OnForward2(c, elapsed, nid, n, m);
      var signed := Signers(n.baProposeMap, m.input) + {m.sigs[0]};
      && o.sent == None && o.state == n.(baProposeMap := Sign(n.baProposeMap, m.input, m.sigs[0]))
      && later == (if |signed| == c.Quorum() then Some(InputList(m.input, [Aggregate(signed)], [-1])) else None)
  {
  }

  lemma LateList(c: Config, elapsed: nat, nid: NodeId, n: DbbState, m: InputList)
    requires c.Valid() && c.At(5) <= elapsed
    ensures var (o, later) := OnForward2(c, elapsed, nid, n, m);
      && later == None && o.state == n.(baBlckSet := n.baBlckSet + {m.input})
      && o.sent ==
         (if m.input !in n.baBlckSet && elapsed < c.At(|m.sigs| + 5)
          then Some(InputList(m.input, m.sigs + [Single(nid, m.input)], m.nodes + [nid])) else None)
  {
    TickBefore(c, elapsed, |m.sigs| + 5);
    assert m.input in n.baBlckSet ==> n.baBlckSet + {m.input} == n.baBlckSet;
  }

  lemma ListTaken(y: System, s: DbbNet, step: Step, s': DbbNet, i: NodeId)
    requires Next(y, s, step, s') && ListTo(y.u, step, i).Some?
    ensures i < |s.nodes| && Readable(y.u.c, s.now, ListTo(y.u, step, i).value)
    ensures s' == TakeList(y.u, s.(forward2s := Undelivered(s, step)), i, ListTo(y.u, step, i).value)
  {
  }

  /** Before tick 5 the first signature of a list is collected, and an aggregate is left waiting if and only if there
      is exactly a quorum of them then. */
  lemma CollectedExactly(y: System, run: seq<DbbNet>, steps: seq<Step>, k: nat, i: NodeId, m: InputList)
    requires IsRun(y, run, steps) && k < |steps| && ListTo(y.u, steps[k], i) == Some(m) && run[k].now < y.u.c.At(5)
    ensures i < |run[k].nodes| == |run[k + 1].nodes| && |m.sigs| > 0
    ensures InputsFor(run[k + 1], i, m.input) == InputsFor(run[k], i, m.input) + {m.sigs[0]}
    ensures run[k + 1].nodes[i].baBlckSet == run[k].nodes[i].baBlckSet
    ensures run[k + 1].forward2s == Undelivered(run[k], steps[k])
    ensures var signed := InputsFor(run[k + 1], i, m.input);
      run[k + 1].waiting == run[k].waiting +
        if |signed| == y.u.c.Quorum() then multiset{Waiting(i, InputList(m.input, [Aggregate(signed)], [-1]))}
        else multiset{}
  {
    ListTaken(y, run[k], steps[k], run[k + 1], i);
    EarlyList(y.u.c, run[k].now, i, run[k].nodes[i], m);
  }

  /** From tick 5 on its value is taken in, and a new value is passed on if and only if the list has enough signatures
      for the time. */
  lemma TakenInAndPassedOn(y: System, run: seq<DbbNet>, steps: seq<Step>, k: nat, i: NodeId, m: InputList)
    requires IsRun(y, run, steps) && k < |steps| && ListTo(y.u, steps[k], i) == Some(m) && y.u.c.At(5) <= run[k].now
    ensures i < |run[k].nodes| == |run[k + 1].nodes|
    ensures run[k + 1].nodes[i].baBlckSet == run[k].nodes[i].baBlckSet + {m.input}
    ensures run[k + 1].nodes[i].baProposeMap == run[k].nodes[i].baProposeMap && run[k + 1].waiting == run[k].waiting
    ensures run[k + 1].forward2s == Undelivered(run[k], steps[k]) +
      if m.input !in run[k].nodes[i].baBlckSet && run[k].now < y.u.c.At(|m.sigs| + 5)
      then Broadcast(y.u.c.nodeNum, i, run[k].now,
                     Some(InputList(m.input, m.sigs + [Single(i, m.input)], m.nodes + [i])))
      else multiset{}
  {
    ListTaken(y, run[k], steps[k], run[k + 1], i);
    LateList(y.u.c, run[k].now, i, run[k].nodes[i], m);
  }

  // ----- What a node takes in, exactly -----------------------------------------------------------------------------

  lemma OtherSame(u: Setup, s: DbbNet, step: Step, i: NodeId)
    requires Typed(u, s) && i < |s.nodes| && (step.Forward2? ==> step.l in s.forward2s)
    requires step.InjectForward2? ==> Readable(u.c, s.now, step.list)
    requires ListTo(u, step, i).None?
    ensures NodeAfter(u, s, step, i).baBlckSet == s.nodes[i].baBlckSet
  {
    if step.Vote? || step.InjectVote? {
      Bads.AfterVoteSame(u, s, step, i);
    } else if !step.Forward2? && !step.InjectForward2? && !step.FireBA? && !step.FireWaiting? {
      Bads.AfterNotBads(u, s, step, i);
    }
  }

  ghost predicate Delivers(u: Setup, run: seq<DbbNet>, steps: seq<Step>, m: nat, i: NodeId, v: Value) {
    && m < |steps| < |run| && ListTo(u, steps[m], i).Some? && ListTo(u, steps[m], i).value.input == v
    && u.c.At(5) <= run[m].now
  }

  lemma TakenInNext(y: System, run: seq<DbbNet>, steps: seq<Step>, k: nat, i: NodeId, v: Value)
    requires IsRun(y, run, steps) && k < |steps| && i < |run[k].nodes|
    ensures i < |run[k + 1].nodes|
    ensures v in run[k + 1].nodes[i].baBlckSet <==> v in run[k].nodes[i].baBlckSet || Delivers(y.u, run, steps, k, i, v)
  {
    NodeNext(y, run[k], steps[k], run[k + 1], i);
    match ListTo(y.u, steps[k], i)
    case Some(m) =>
      if run[k].now < y.u.c.At(5) {
        CollectedExactly(y, run, steps, k, i, m);
      } else {
        TakenInAndPassedOn(y, run, steps, k, i, m);
      }
    case None => OtherSame(y.u, run[k], steps[k], i);
  }

  ghost predicate DeliveredBefore(u: Setup, run: seq<DbbNet>, steps: seq<Step>, k: nat, i: NodeId, v: Value) {
    exists m: nat :: m < k && Delivers(u, run, steps, m, i, v)
  }

  lemma DeliveredNext(u: Setup, run: seq<DbbNet>, steps: seq<Step>, k: nat, i: NodeId, v: Value)
    ensures DeliveredBefore(u, run, steps, k + 1, i, v) <==>
      DeliveredBefore(u, run, steps, k, i, v) || Delivers(u, run, steps, k, i, v)
  {
    if m: nat :| m < k + 1 && Delivers(u, run, steps, m, i, v) {
      assert m == k || m < k;
    }
  }

  /** In every run, whatever is sent: a value is in a node's BABlckSet if and only if a list with it has reached the
      node at or after tick 5. */
  lemma {:induction false} TakenInExactly(y: System, run: seq<DbbNet>, steps: seq<Step>, k: nat, i: NodeId, v: Value)
    requires IsRun(y, run, steps) && k <= |steps| && i < y.u.c.nodeNum
    ensures |run[k].nodes| == y.u.c.nodeNum
    ensures v in run[k].nodes[i].baBlckSet <==> DeliveredBefore(y.u, run, steps, k, i, v)
  {
    RunSize(y, run, steps, k);
    if k > 0 {
      TakenInExactly(y, run, steps, k - 1, i, v);
      TakenInNext(y, run, steps, k - 1, i, v);
      DeliveredNext(y.u, run, steps, k - 1, i, v);
      assert run[k - 1 + 1] == run[k];
    }
  }

  // ----- Inputs ----------------------------------------------------------------------------------------------------

  /** At tick 4 a node's input is its only certified value, or "0"; it counts its signature on it, and broadcasts it.
      */
  lemma StartsExactly(y: System, run: seq<DbbNet>, steps: seq<Step>, k: nat, i: NodeId) returns (v: Value)
    requires IsRun(y, run, steps) && k < |steps| && steps[k] == FireBA(i)
    ensures i < |run[k].nodes| == |run[k + 1].nodes| && OnlyOrZero(run[k].nodes[i].blckSet, v)
    ensures run[k + 1].inputs == run[k].inputs[i := v]
    ensures forall w :: InputsFor(run[k + 1], i, w) == InputsFor(run[k], i, w) + if w == v then {Single(i, v)} else {}
    ensures run[k + 1].forward2s ==
      run[k].forward2s + Broadcast(y.u.c.nodeNum, i, run[k].now, Some(InputList(v, [Single(i, v)], [i])))
  {
    v := Input(run[k].nodes[i]);
    assert Fires(y.u, run[k], steps[k], run[k + 1]);
  }

  // ----- The last timer --------------------------------------------------------------------------------------------

  /** A node that has committed keeps its value; another one commits the only value of its BABlckSet, or "0". */
  lemma FinalExactly(y: System, run: seq<DbbNet>, steps: seq<Step>, k: nat, i: NodeId)
    requires IsRun(y, run, steps) && k < |steps| && steps[k] == FireFinal(i)
    ensures i < |run[k].nodes| == |run[k + 1].nodes| && run[k + 1].nodes[i].isCommit == run[k].nodes[i].isCommit
    ensures if run[k].nodes[i].isCommit then run[k + 1].nodes[i].commitValue == run[k].nodes[i].commitValue
            else OnlyOrZero(run[k].nodes[i].baBlckSet, run[k + 1].nodes[i].commitValue)
  {
    assert Fires(y.u, run[k], steps[k], run[k + 1]);
  }

  // ----- A waiting aggregate reaches everybody ---------------------------------------------------------------------

  /** A list on v from tick 6 is on its way to j. */
  ghost predicate Carried(u: Setup, s: DbbNet, j: NodeId, v: Value) {
    exists l :: l in s.forward2s && l.dst == j && l.msg.input == v && l.sentAt == u.c.At(6)
  }

  /** The aggregate of node i on v waits for tick 6, or j has it, or will have it before tick 7. */
  ghost predicate Coming(u: Setup, s: DbbNet, i: NodeId, j: NodeId, v: Value)
    requires j < |s.nodes|
  {
    || (exists w :: w in s.waiting && w.node == i && w.msg.input == v)
    || v in s.nodes[j].baBlckSet
    || Carried(u, s, j, v)
  }

  ghost predicate InTime(u: Setup, s: DbbNet) {
    && (s.waiting != multiset{} ==> s.now <= u.c.At(6))
    && (forall l :: l in s.forward2s ==> s.now < l.sentAt + u.c.tickInterval)
  }

  /** What a step that is neither the delivery of a list nor the end of a wait does. */
  ghost predicate Elsewhere(u: Setup, s: DbbNet, s': DbbNet) {
    && s'.waiting == s.waiting && s.now <= s'.now
    && (forall l :: l in s.forward2s && l.dst in u.active ==> l in s'.forward2s)
    && (forall l :: l in s'.forward2s ==> l in s.forward2s || l.sentAt == s.now)
  }

  predicate ForLists(u: Setup, step: Step) {
    step.FireWaiting? || (step.Forward2? && step.l.dst in u.active)
  }

  lemma ElsewhereArrives(u: Setup, s: DbbNet, step: Step, s': DbbNet)
    requires Typed(u, s) && Arrives(u, s, step, s') && !ForLists(u, step)
    ensures Elsewhere(u, s, s') && s'.now == s.now
  {
  }

  lemma ElsewhereFires(u: Setup, s: DbbNet, step: Step, s': DbbNet)
    requires Typed(u, s) && Fires(u, s, step, s') && !ForLists(u, step)
    ensures Elsewhere(u, s, s') && (step.Tick? || s'.now == s.now)
    ensures step.Tick? ==> s'.now == s.now + 1 && s'.forward2s == s.forward2s
  {
  }

  lemma InTimeElsewhere(u: Setup, s: DbbNet, step: Step, s': DbbNet)
    requires Next(System(u, false), s, step, s') && !ForLists(u, step) && InTime(u, s)
    ensures InTime(u, s') && Elsewhere(u, s, s')
  {
    if Arrives(u, s, step, s') {
      ElsewhereArrives(u, s, step, s');
    } else {
      ElsewhereFires(u, s, step, s');
      assert step.Tick? ==> MayTick(u, s);
    }
  }

  lemma WaitEnds(u: Setup, s: DbbNet, w: Waiting, s': DbbNet)
    requires Next(System(u, false), s, FireWaiting(w), s') && InTime(u, s)
    ensures s.now == u.c.At(6) == s'.now && s'.waiting == s.waiting - multiset{w} && w in s.waiting
    ensures s'.forward2s == s.forward2s + Broadcast(u.c.nodeNum, w.node, s.now, Some(w.msg))
    ensures s'.nodes == s.nodes && InTime(u, s')
  {
    assert Fires(u, s, FireWaiting(w), s');
  }

  lemma InTimeList(u: Setup, run: seq<DbbNet>, steps: seq<Step>, k: nat)
    requires IsRun(System(u, false), run, steps) && k < |steps| && InTime(u, run[k])
    requires steps[k].Forward2? && steps[k].l.dst in u.active
    ensures InTime(u, run[k + 1]) && run[k].waiting <= run[k + 1].waiting && run[k].now == run[k + 1].now
    ensures Undelivered(run[k], steps[k]) <= run[k + 1].forward2s
  {
    var y, l := System(u, false), steps[k].l;
    ListTaken(y, run[k], steps[k], run[k + 1], l.dst);
    AtMonotone(u.c, 5, 6);
    if run[k].now < u.c.At(5) {
      CollectedExactly(y, run, steps, k, l.dst, l.msg);
    } else {
      TakenInAndPassedOn(y, run, steps, k, l.dst, l.msg);
    }
  }

  lemma InTimeStep(u: Setup, run: seq<DbbNet>, steps: seq<Step>, k: nat)
    requires IsRun(System(u, false), run, steps) && k < |steps| && InTime(u, run[k])
    ensures InTime(u, run[k + 1]) && run[k].now <= run[k + 1].now
  {
    if steps[k].FireWaiting? {
      WaitEnds(u, run[k], steps[k].w, run[k + 1]);
    } else if ForLists(u, steps[k]) {
      InTimeList(u, run, steps, k);
    } else {
      InTimeElsewhere(u, run[k], steps[k], run[k + 1]);
    }
  }

  lemma {:induction false} InTimeRun(u: Setup, run: seq<DbbNet>, steps: seq<Step>, k: nat)
    requires IsRun(System(u, false), run, steps) && k <= |steps|
    ensures InTime(u, run[k])
  {
    if k > 0 {
      InTimeRun(u, run, steps, k - 1);
      InTimeStep(u, run, steps, k - 1);
      assert run[k - 1 + 1] == run[k];
    }
  }

  lemma ComingElsewhere(u: Setup, s: DbbNet, s': DbbNet, i: NodeId, j: NodeId, v: Value)
    requires Elsewhere(u, s, s') && j in u.active && j < |s.nodes| == |s'.nodes| && Coming(u, s, i, j, v)
    requires s.nodes[j].baBlckSet <= s'.nodes[j].baBlckSet
    ensures Coming(u, s', i, j, v)
  {
    if Carried(u, s, j, v) {
      var l :| l in s.forward2s && l.dst == j && l.msg.input == v && l.sentAt == u.c.At(6);
      assert l in s'.forward2s;
    }
  }

  lemma ComingWaits(u: Setup, s: DbbNet, w: Waiting, s': DbbNet, i: NodeId, j: NodeId, v: Value)
    requires Next(System(u, false), s, FireWaiting(w), s') && InTime(u, s)
    requires j in u.active && j < |s.nodes| && j != i && Coming(u, s, i, j, v)
    ensures |s'.nodes| == |s.nodes| && Coming(u, s', i, j, v)
  {
    WaitEnds(u, s, w, s');
    if w.node == i && w.msg.input == v {
      assert Packet(j, w.msg, s.now) in s'.forward2s;
    } else if r :| r in s.waiting && r.node == i && r.msg.input == v {
      assert r in s'.waiting;
    } else if Carried(u, s, j, v) {
      var l :| l in s.forward2s && l.dst == j && l.msg.input == v && l.sentAt == u.c.At(6);
      assert l in s'.forward2s;
    }
  }

  lemma ComingList(u: Setup, run: seq<DbbNet>, steps: seq<Step>, k: nat, i: NodeId, j: NodeId, v: Value)
    requires IsRun(System(u, false), run, steps) && k < |steps| && InTime(u, run[k])
    requires steps[k].Forward2? && steps[k].l.dst in u.active
    requires |run[k].nodes| == |run[k + 1].nodes| == u.c.nodeNum && j < u.c.nodeNum && Coming(u, run[k], i, j, v)
    requires forall l :: l in run[k].forward2s ==> l.sentAt <= run[k].now
    ensures Coming(u, run[k + 1], i, j, v)
  {
    var s, s', l := run[k], run[k + 1], steps[k].l;
    InTimeList(u, run, steps, k);
    TakenInNext(System(u, false), run, steps, k, j, v);
    if r :| r in s.waiting && r.node == i && r.msg.input == v {
      assert r in s'.waiting;
    } else if Carried(u, s, j, v) {
      var r :| r in s.forward2s && r.dst == j && r.msg.input == v && r.sentAt == u.c.At(6);
      if r == l {
        AtMonotone(u.c, 5, 6);
        assert Delivers(u, run, steps, k, j, v);
      } else {
        assert r in Undelivered(s, steps[k]);
      }
    }
  }

  lemma ComingNext(u: Setup, run: seq<DbbNet>, steps: seq<Step>, k: nat, i: NodeId, j: NodeId, v: Value)
    requires IsRun(System(u, false), run, steps) && k < |steps| && j in u.active && j != i
    requires |run[k].nodes| == u.c.nodeNum && j < u.c.nodeNum && Coming(u, run[k], i, j, v)
    ensures |run[k + 1].nodes| == u.c.nodeNum && Coming(u, run[k + 1], i, j, v)
  {
    var y, step := System(u, false), steps[k];
    RunSize(y, run, steps, k + 1);
    InTimeRun(u, run, steps, k);
    if step.FireWaiting? {
      ComingWaits(u, run[k], step.w, run[k + 1], i, j, v);
    } else if ForLists(u, step) {
      Bads.BadsInvRun(y, run, steps, k);
      ComingList(u, run, steps, k, i, j, v);
    } else {
      InTimeElsewhere(u, run[k], step, run[k + 1]);
      TakenInGrows(y, run, steps, k, j);
      ComingElsewhere(u, run[k], run[k + 1], i, j, v);
    }
  }

  lemma TakenInGrows(y: System, run: seq<DbbNet>, steps: seq<Step>, k: nat, j: NodeId)
    requires IsRun(y, run, steps) && k < |steps| && j < |run[k].nodes|
    ensures j < |run[k + 1].nodes| && run[k].nodes[j].baBlckSet <= run[k + 1].nodes[j].baBlckSet
  {
    RunSize(y, run, steps, k);
    RunSize(y, run, steps, k + 1);
    forall v | v in run[k].nodes[j].baBlckSet
      ensures v in run[k + 1].nodes[j].baBlckSet
    {
      TakenInNext(y, run, steps, k, j, v);
    }
  }

  lemma {:induction false} ComingRun(u: Setup, run: seq<DbbNet>, steps: seq<Step>, k: nat, l: nat, w: Waiting,
                                     j: NodeId)
    requires IsRun(System(u, false), run, steps) && k <= l <= |steps| && w in run[k].waiting
    requires j in u.active && j < u.c.nodeNum && j != w.node
    ensures |run[l].nodes| == u.c.nodeNum && Coming(u, run[l], w.node, j, w.msg.input)
  {
    RunSize(System(u, false), run, steps, l);
    if k < l {
      ComingRun(u, run, steps, k, l - 1, w, j);
      ComingNext(u, run, steps, l - 1, w.node, j, w.msg.input);
      assert run[l - 1 + 1] == run[l];
    }
  }

  /** If an aggregate waits at any node at any time, every other active node has its value from tick 7 on. */
  lemma AggregateReaches(u: Setup, run: seq<DbbNet>, steps: seq<Step>, k: nat, l: nat, w: Waiting, j: NodeId)
    requires IsRun(System(u, false), run, steps) && k <= |steps| && l <= |steps| && w in run[k].waiting
    requires j in u.active && j != w.node && u.c.At(7) <= run[l].now
    ensures j < u.c.nodeNum == |run[l].nodes| && w.msg.input in run[l].nodes[j].baBlckSet
  {
    RunSize(System(u, false), run, steps, l);
    InTimeRun(u, run, steps, k);
    InTimeRun(u, run, steps, l);
    AtNext(u.c, 6);
    if l < k {
      TimeGrows(u, run, steps, l, k);
    } else {
      ComingRun(u, run, steps, k, l, w, j);
    }
  }

  lemma {:induction false} TimeGrows(u: Setup, run: seq<DbbNet>, steps: seq<Step>, k: nat, l: nat)
    requires IsRun(System(u, false), run, steps) && k <= l <= |steps|
    ensures run[k].now <= run[l].now
  {
    if k < l {
      TimeGrows(u, run, steps, k, l - 1);
      InTimeRun(u, run, steps, l - 1);
      InTimeStep(u, run, steps, l - 1);
      assert run[l - 1 + 1] == run[l];
    }
  }

  /** So the last timer of a node that has not committed commits it to the value of an aggregate that waited at
      another, if a fault is tolerated and two quorums intersect. */
  lemma AggregateCommits(u: Setup, run: seq<DbbNet>, steps: seq<Step>, k: nat, l: nat, w: Waiting, j: NodeId)
    requires IsRun(System(u, false), run, steps) && k <= |steps| && l < |steps| && w in run[k].waiting
    requires steps[l] == FireFinal(j) && j != w.node && u.c.malicious >= 1 && 2 * u.c.Quorum() > u.c.nodeNum
    requires |run[l].nodes| == u.c.nodeNum && j < u.c.nodeNum && !run[l].nodes[j].isCommit
    ensures |run[l + 1].nodes| == u.c.nodeNum && run[l + 1].nodes[j].commitValue == w.msg.input
  {
    var y, v := System(u, false), w.msg.input;
    FinalExactly(y, run, steps, l, j);
    FinalIsLate(u, run[l], j, run[l + 1]);
    AggregateReaches(u, run, steps, k, l, w, j);
    var taken := run[l].nodes[j].baBlckSet;
    forall x | x in taken
      ensures x == v
    {
      Bads.BadsUniqueness(y, run, steps, l, l, j, j, x, v);
    }
    assert taken == {v};
  }

  lemma FinalIsLate(u: Setup, s: DbbNet, j: NodeId, s': DbbNet)
    requires Next(System(u, false), s, FireFinal(j), s') && u.c.malicious >= 1
    ensures j in u.active && u.c.At(7) <= s.now
  {
    AtMonotone(u.c, 7, u.c.malicious + 6);
  }
}
