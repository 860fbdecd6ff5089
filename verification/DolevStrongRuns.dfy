/** Runs of the Dolev-Strong protocol in the fault model of the source: faulty nodes other than the view node stay
    silent (node/runningMod/consensusMod/ds/handler_ds_m.go); the view node may send any proposals to anyone at the
    start, and otherwise runs the same handlers as everybody else. */
module DolevStrongRuns {

  import opened Common
  import opened DolevStrong
  import opened Network

  // ----- The system ------------------------------------------------------------------------------------------------

  /** pending holds the nodes whose commit timer has not fired. */
  datatype DSNet = DSNet(now: nat, nodes: seq<DSState>, proposals: multiset<Proposal>,
                         forwards: multiset<Packet<SigList>>, pending: set<NodeId>)

  datatype Step = Propose(q: Proposal) | Forward(p: Packet<SigList>) | Fire(i: NodeId) | Tick

  function Receive(u: Setup, s: DSNet, i: NodeId, o: DSOutcome): DSNet
    requires i < |s.nodes|
  {
    s.(nodes := s.nodes[i := o.state], forwards := s.forwards + Broadcast(u.c.nodeNum, i, s.now, o.sent))
  }

  ghost predicate Typed(u: Setup, s: DSNet) {
    u.Valid() && |s.nodes| == u.c.nodeNum && s.pending <= u.active
  }

  ghost predicate Init(u: Setup, s: DSNet) {
    && Typed(u, s)
    && s.now == 0
    && (forall i :: 0 <= i < |s.nodes| ==> s.nodes[i].extrSet == {})
    && s.proposals == u.sent && s.forwards == multiset{} && s.pending == u.active
  }

  /** Messages are delivered in less than one tick interval, and timers fire on time. */
  predicate Enabled(u: Setup, s: DSNet, step: Step) {
    match step
    case Propose(q) => q in s.proposals
    case Forward(p) => p in s.forwards
    case Fire(i) => i in s.pending && CommitTime(u.c) <= s.now
    case Tick =>
      && (s.proposals != multiset{} ==> s.now + 1 < u.c.tickInterval)
      && (forall p :: p in s.forwards ==> s.now + 1 < p.sentAt + u.c.tickInterval)
      && (s.pending == {} || s.now < CommitTime(u.c))
  }

  function Apply(u: Setup, s: DSNet, step: Step): DSNet
    requires u.Valid() && |s.nodes| == u.c.nodeNum && s.pending <= u.active
    requires Enabled(u, s, step)
  {
    match step
    case Propose(q) =>
      var t := s.(proposals := s.proposals - multiset{q});
      if q.dst in u.active then Receive(u, t, q.dst, OnPropose(u.c, q.dst, s.now, s.nodes[q.dst], q.req)) else t
    case Forward(p) =>
      var t := s.(forwards := s.forwards - multiset{p});
      if p.dst in u.active then Receive(u, t, p.dst, OnForward(u.c, p.dst, s.now, s.nodes[p.dst], p.msg)) else t
    case Fire(i) =>
      s.(nodes := s.nodes[i := OnCommitTimer(s.nodes[i])], pending := s.pending - {i})
    case Tick =>
      s.(now := s.now + 1)
  }

  ghost predicate Next(u: Setup, s: DSNet, step: Step, s': DSNet) {
    Typed(u, s) && Enabled(u, s, step) && s' == Apply(u, s, step)
  }

  ghost predicate IsRun(u: Setup, run: seq<DSNet>, steps: seq<Step>) {
    && |run| == |steps| + 1 && Init(u, run[0])
    && forall k {:trigger steps[k]} :: 0 <= k < |steps| ==> Next(u, run[k], steps[k], run[k + 1])
  }

  // ----- The invariant ---------------------------------------------------------------------------------------------

  ghost predicate OnTime(u: Setup, s: DSNet) {
    && (forall q :: q in s.proposals ==> q in u.sent && s.now < u.c.tickInterval)
    && (forall p :: p in s.forwards ==> p.sentAt <= s.now < p.sentAt + u.c.tickInterval && p.dst < u.c.nodeNum)
  }

  /** Everyone listed after the proposer is active, has signed the value and holds it; only the view node can be
      listed twice; and the message left early enough to arrive before as many ticks as it has signatures. */
  ghost predicate Chained(u: Setup, s: DSNet, p: Packet<SigList>)
    requires Typed(u, s)
  {
    var m := p.msg;
    && |m.sigs| == |m.nodes| >= 2
    && m.nodes[0] == VIEW && m.sigs[0] == m.req.sig && m.nodes[1] != VIEW
    && p.sentAt < u.c.At(|m.sigs| - 1)
    && (forall k :: 1 <= k < |m.nodes| ==>
        && m.nodes[k] in u.active && m.sigs[k] == Single(m.nodes[k], p.msg.Content())
        && p.msg.Content() in s.nodes[m.nodes[k]].extrSet)
    && (forall k, l :: 0 <= k < l < |m.nodes| && m.nodes[k] == m.nodes[l] ==> m.nodes[k] == VIEW)
  }

  ghost predicate AllChained(u: Setup, s: DSNet)
    requires Typed(u, s)
  {
    forall p :: p in s.forwards ==> Chained(u, s, p)
  }

  /** A copy of v that left within the first tick is on its way to j. */
  ghost predicate Carried(u: Setup, s: DSNet, j: NodeId, v: Value) {
    exists p :: p in s.forwards && p.dst == j && p.msg.Content() == v && p.sentAt < u.c.tickInterval
  }

  /** A value some active node other than the view node holds is held by, or on its way to, every active node. */
  ghost predicate Flooded(u: Setup, s: DSNet)
    requires Typed(u, s)
  {
    forall i, v, j :: i in u.active && i != VIEW && v in s.nodes[i].extrSet && j in u.active ==>
      v in s.nodes[j].extrSet || Carried(u, s, j, v)
  }

  /** Every value a node holds was proposed, and every proposal to it is still on its way or was taken in. */
  ghost predicate Sourced(u: Setup, s: DSNet)
    requires Typed(u, s)
  {
    && (forall i, v :: i in u.active && v in s.nodes[i].extrSet ==> v in u.Values())
    && (forall q :: q in u.sent && q.dst in u.active ==> q in s.proposals || q.req.content in s.nodes[q.dst].extrSet)
  }

  ghost predicate Inv(u: Setup, s: DSNet) {
    Typed(u, s) && OnTime(u, s) && AllChained(u, s) && Flooded(u, s) && Sourced(u, s)
  }

  lemma InvInit(u: Setup, s: DSNet)
    requires Init(u, s)
    ensures Inv(u, s)
  {
  }

  /** Node i takes in value w and broadcasts out, if anything; of what was in flight only copies of w for i are gone.
      */
  ghost predicate TookIn(u: Setup, s: DSNet, s': DSNet, i: NodeId, w: Value, out: Option<SigList>) {
    && Typed(u, s) && Typed(u, s') && i < |s.nodes| && s'.now == s.now
    && s'.nodes[i].extrSet == s.nodes[i].extrSet + {w}
    && (forall j :: 0 <= j < |s.nodes| && j != i ==> s'.nodes[j] == s.nodes[j])
    && (forall p :: p in s.forwards ==> p in s'.forwards || (p.dst == i && p.msg.Content() == w))
    && (forall p :: p in s'.forwards ==> p in s.forwards || NewCopy(u, s, i, out, p))
    && (forall p :: NewCopy(u, s, i, out, p) ==> p in s'.forwards)
    && (forall q :: q in s'.proposals ==> q in s.proposals)
    && (forall q :: q in s.proposals ==> q in s'.proposals || (q.dst == i && q.req.content == w))
  }

  ghost predicate NewCopy(u: Setup, s: DSNet, i: NodeId, out: Option<SigList>, p: Packet<SigList>) {
    out.Some? && p.dst < u.c.nodeNum && p.dst != i && p.msg == out.value && p.sentAt == s.now
  }

  lemma Received(u: Setup, s: DSNet, t: DSNet, i: NodeId, w: Value, o: DSOutcome)
    requires Typed(u, s) && Typed(u, t) && i < |s.nodes| && t.nodes == s.nodes && t.now == s.now
    requires o.state.extrSet == s.nodes[i].extrSet + {w}
    requires t.forwards <= s.forwards
    requires forall p :: p in s.forwards ==> p in t.forwards || (p.dst == i && p.msg.Content() == w)
    requires t.proposals <= s.proposals
    requires forall q :: q in s.proposals ==> q in t.proposals || (q.dst == i && q.req.content == w)
    ensures TookIn(u, s, Receive(u, t, i, o), i, w, o.sent)
  {
    var s' := Receive(u, t, i, o);
    assert forall p :: p in Broadcast(u.c.nodeNum, i, s.now, o.sent) <==> NewCopy(u, s, i, o.sent, p);
    assert forall p :: p in s'.forwards <==> p in t.forwards || NewCopy(u, s, i, o.sent, p);
  }

  lemma ReceiveNodes(u: Setup, s: DSNet, i: NodeId, o: DSOutcome)
    requires Typed(u, s) && i < |s.nodes|
    ensures var s' := Receive(u, s, i, o);
      && Typed(u, s') && s'.now == s.now && s'.pending == s.pending && s'.nodes[i] == o.state
      && forall j :: 0 <= j < |s.nodes| && j != i ==> s'.nodes[j] == s.nodes[j]
  {
  }

  lemma ProposeTookIn(u: Setup, s: DSNet, q: Proposal)
    requires Typed(u, s) && Enabled(u, s, Propose(q)) && q.dst in u.active
    ensures TookIn(u, s, Apply(u, s, Propose(q)), q.dst, q.req.content,
                   OnPropose(u.c, q.dst, s.now, s.nodes[q.dst], q.req).sent)
  {
    Received(u, s, s.(proposals := s.proposals - multiset{q}), q.dst, q.req.content,
             OnPropose(u.c, q.dst, s.now, s.nodes[q.dst], q.req));
  }

  lemma ForwardTookIn(u: Setup, s: DSNet, p: Packet<SigList>)
    requires Typed(u, s) && Enabled(u, s, Forward(p)) && p.dst in u.active
    ensures TookIn(u, s, Apply(u, s, Forward(p)), p.dst, p.msg.Content(),
                   OnForward(u.c, p.dst, s.now, s.nodes[p.dst], p.msg).sent)
  {
    var o := OnForward(u.c, p.dst, s.now, s.nodes[p.dst], p.msg);
    assert o.state.extrSet == s.nodes[p.dst].extrSet + {p.msg.Content()};
    Received(u, s, s.(forwards := s.forwards - multiset{p}), p.dst, p.msg.Content(), o);
  }

  // ----- Each part of the invariant is kept when a value is taken in -----------------------------------------------

  lemma OnTimeKept(u: Setup, s: DSNet, s': DSNet, i: NodeId, w: Value, out: Option<SigList>)
    requires TookIn(u, s, s', i, w, out) && OnTime(u, s)
    ensures OnTime(u, s')
  {
  }

  lemma SourcedKept(u: Setup, s: DSNet, s': DSNet, i: NodeId, w: Value, out: Option<SigList>)
    requires TookIn(u, s, s', i, w, out) && Sourced(u, s) && w in u.Values()
    ensures Sourced(u, s')
  {
  }

  /** The flood goes on: either the value comes from a node that has flooded it, or node i floods it now, within the
      first tick. */
  lemma FloodedKept(u: Setup, s: DSNet, s': DSNet, i: NodeId, w: Value, out: Option<SigList>)
    requires TookIn(u, s, s', i, w, out) && Flooded(u, s)
    requires
      || (exists h :: h in u.active && h != VIEW && w in s.nodes[h].extrSet)
      || i == VIEW
      || (out.Some? && out.value.req.content == w && s.now < u.c.tickInterval)
    ensures Flooded(u, s')
  {
    forall h, v, j |
      h in u.active && h != VIEW && v in s'.nodes[h].extrSet && j in u.active && v !in s'.nodes[j].extrSet
      ensures Carried(u, s', j, v)
    {
      if h' :| h' in u.active && h' != VIEW && v in s.nodes[h'].extrSet {
        assert Carried(u, s, j, v);
        var p :| p in s.forwards && p.dst == j && p.msg.Content() == v && p.sentAt < u.c.tickInterval;
        assert p in s'.forwards;
      } else {
        assert h == i && v == w;
        assert NewCopy(u, s, i, out, Packet(j, out.value, s.now));
      }
    }
  }

  lemma ChainedKept(u: Setup, s: DSNet, s': DSNet, i: NodeId, w: Value, out: Option<SigList>, p: Packet<SigList>)
    requires TookIn(u, s, s', i, w, out) && Chained(u, s, p)
    ensures Chained(u, s', p)
  {
  }

  lemma ChainedFirst(u: Setup, s: DSNet, s': DSNet, i: NodeId, req: Request, p: Packet<SigList>)
    requires Typed(u, s) && i < |s.nodes|
    requires TookIn(u, s, s', i, req.content, OnPropose(u.c, i, s.now, s.nodes[i], req).sent)
    requires OnTime(u, s) && i in u.active && s.now < u.c.tickInterval
    requires NewCopy(u, s, i, OnPropose(u.c, i, s.now, s.nodes[i], req).sent, p)
    ensures Chained(u, s', p)
  {
  }

  lemma ChainedNext(u: Setup, s: DSNet, s': DSNet, p: Packet<SigList>, r: Packet<SigList>)
    requires OnTime(u, s) && p in s.forwards && Typed(u, s) && Chained(u, s, p)
    requires p.dst in u.active && p.msg.Content() !in s.nodes[p.dst].extrSet
    requires TookIn(u, s, s', p.dst, p.msg.Content(), OnForward(u.c, p.dst, s.now, s.nodes[p.dst], p.msg).sent)
    requires r.msg == SigList(p.msg.req, p.msg.sigs + [Single(p.dst, p.msg.Content())], p.msg.nodes + [p.dst])
    requires r.sentAt == s.now
    ensures Chained(u, s', r)
  {
    AtNext(u.c, |p.msg.sigs| - 1);
  }

  lemma AllChainedPropose(u: Setup, s: DSNet, s': DSNet, i: NodeId, req: Request)
    requires Typed(u, s) && i < |s.nodes|
    requires TookIn(u, s, s', i, req.content, OnPropose(u.c, i, s.now, s.nodes[i], req).sent)
    requires OnTime(u, s) && AllChained(u, s) && i in u.active && s.now < u.c.tickInterval
    ensures AllChained(u, s')
  {
    var out := OnPropose(u.c, i, s.now, s.nodes[i], req).sent;
    forall p | p in s'.forwards
      ensures Chained(u, s', p)
    {
      if p in s.forwards {
        ChainedKept(u, s, s', i, req.content, out, p);
      } else {
        ChainedFirst(u, s, s', i, req, p);
      }
    }
  }

  lemma AllChainedForward(u: Setup, s: DSNet, s': DSNet, p: Packet<SigList>)
    requires Typed(u, s) && p in s.forwards && p.dst in u.active
    requires TookIn(u, s, s', p.dst, p.msg.Content(), OnForward(u.c, p.dst, s.now, s.nodes[p.dst], p.msg).sent)
    requires OnTime(u, s) && AllChained(u, s)
    ensures AllChained(u, s')
  {
    var out := OnForward(u.c, p.dst, s.now, s.nodes[p.dst], p.msg).sent;
    forall r | r in s'.forwards
      ensures Chained(u, s', r)
    {
      if r in s.forwards {
        ChainedKept(u, s, s', p.dst, p.msg.Content(), out, r);
      } else {
        ChainedNext(u, s, s', p, r);
      }
    }
  }

  lemma InvPropose(u: Setup, s: DSNet, q: Proposal, s': DSNet)
    requires Inv(u, s) && Next(u, s, Propose(q), s') && q.dst in u.active
    ensures Inv(u, s')
  {
    var out := OnPropose(u.c, q.dst, s.now, s.nodes[q.dst], q.req).sent;
    ProposeTookIn(u, s, q);
    TickBefore(u.c, s.now, 1);
    OnTimeKept(u, s, s', q.dst, q.req.content, out);
    SourcedKept(u, s, s', q.dst, q.req.content, out);
    FloodedKept(u, s, s', q.dst, q.req.content, out);
    AllChainedPropose(u, s, s', q.dst, q.req);
  }

  lemma InvForward(u: Setup, s: DSNet, p: Packet<SigList>, s': DSNet)
    requires Inv(u, s) && Next(u, s, Forward(p), s') && p.dst in u.active
    ensures Inv(u, s')
  {
    var out := OnForward(u.c, p.dst, s.now, s.nodes[p.dst], p.msg).sent;
    ForwardTookIn(u, s, p);
    ForwardIsHeld(u, s, p);
    OnTimeKept(u, s, s', p.dst, p.msg.Content(), out);
    SourcedKept(u, s, s', p.dst, p.msg.Content(), out);
    FloodedKept(u, s, s', p.dst, p.msg.Content(), out);
    AllChainedForward(u, s, s', p);
  }

  /** The value of a message in flight is held by its first signer after the proposer. */
  lemma ForwardIsHeld(u: Setup, s: DSNet, p: Packet<SigList>)
    requires Inv(u, s) && p in s.forwards
    ensures exists h :: h in u.active && h != VIEW && p.msg.Content() in s.nodes[h].extrSet
    ensures p.msg.Content() in u.Values()
  {
    assert Chained(u, s, p);
    assert p.msg.nodes[1] in u.active;
  }

  /** Nothing is taken in, and no message for an active node is lost. */
  ghost predicate TookNothing(u: Setup, s: DSNet, s': DSNet) {
    && Typed(u, s) && Typed(u, s')
    && (forall i :: 0 <= i < |s.nodes| ==> s'.nodes[i].extrSet == s.nodes[i].extrSet)
    && (forall p :: p in s'.forwards ==> p in s.forwards)
    && (forall p :: p in s.forwards && p.dst in u.active ==> p in s'.forwards)
    && (forall q :: q in s'.proposals ==> q in s.proposals)
    && (forall q :: q in s.proposals && q.dst in u.active ==> q in s'.proposals)
  }

  lemma LostTookNothing(u: Setup, s: DSNet, step: Step, s': DSNet)
    requires Next(u, s, step, s') && OnTime(u, s)
    requires (step.Propose? && step.q.dst !in u.active) || (step.Forward? && step.p.dst !in u.active)
    ensures TookNothing(u, s, s') && OnTime(u, s')
  {
  }

  lemma FireTookNothing(u: Setup, s: DSNet, i: NodeId, s': DSNet)
    requires Next(u, s, Fire(i), s') && OnTime(u, s)
    ensures TookNothing(u, s, s') && OnTime(u, s')
  {
  }

  lemma TickTookNothing(u: Setup, s: DSNet, s': DSNet)
    requires Next(u, s, Tick, s') && OnTime(u, s)
    ensures TookNothing(u, s, s') && OnTime(u, s')
  {
  }

  lemma OtherTookNothing(u: Setup, s: DSNet, step: Step, s': DSNet)
    requires Next(u, s, step, s') && OnTime(u, s)
    requires step.Fire? || step.Tick? || (step.Propose? && step.q.dst !in u.active)
      || (step.Forward? && step.p.dst !in u.active)
    ensures TookNothing(u, s, s') && OnTime(u, s')
  {
    if step.Fire? {
      FireTookNothing(u, s, step.i, s');
    } else if step.Tick? {
      TickTookNothing(u, s, s');
    } else {
      LostTookNothing(u, s, step, s');
    }
  }

  lemma InvOther(u: Setup, s: DSNet, s': DSNet)
    requires Inv(u, s) && TookNothing(u, s, s') && OnTime(u, s')
    ensures Inv(u, s')
  {
    OtherFlooded(u, s, s');
    OtherChained(u, s, s');
    OtherSourced(u, s, s');
  }

  lemma OtherFlooded(u: Setup, s: DSNet, s': DSNet)
    requires TookNothing(u, s, s') && Flooded(u, s)
    ensures Flooded(u, s')
  {
    forall i, v, j |
      i in u.active && i != VIEW && v in s'.nodes[i].extrSet && j in u.active && v !in s'.nodes[j].extrSet
      ensures Carried(u, s', j, v)
    {
      assert v in s.nodes[i].extrSet && v !in s.nodes[j].extrSet;
      assert Carried(u, s, j, v);
      var p :| p in s.forwards && p.dst == j && p.msg.Content() == v && p.sentAt < u.c.tickInterval;
      assert p in s'.forwards;
    }
  }

  lemma OtherChained(u: Setup, s: DSNet, s': DSNet)
    requires TookNothing(u, s, s') && AllChained(u, s)
    ensures AllChained(u, s')
  {
    forall p | p in s'.forwards
      ensures Chained(u, s', p)
    {
      assert Chained(u, s, p);
    }
  }

  lemma OtherSourced(u: Setup, s: DSNet, s': DSNet)
    requires TookNothing(u, s, s') && Sourced(u, s)
    ensures Sourced(u, s')
  {
  }

  lemma InvNext(u: Setup, s: DSNet, step: Step, s': DSNet)
    requires Inv(u, s) && Next(u, s, step, s')
    ensures Inv(u, s')
  {
    if step.Propose? && step.q.dst in u.active {
      InvPropose(u, s, step.q, s');
    } else if step.Forward? && step.p.dst in u.active {
      InvForward(u, s, step.p, s');
    } else {
      OtherTookNothing(u, s, step, s');
      InvOther(u, s, s');
    }
  }

  lemma {:induction false} InvRun(u: Setup, run: seq<DSNet>, steps: seq<Step>, k: nat)
    requires IsRun(u, run, steps) && k <= |steps|
    ensures Inv(u, run[k])
  {
    if k == 0 {
      InvInit(u, run[0]);
    } else {
      InvRun(u, run, steps, k - 1);
      assert Next(u, run[k - 1], steps[k - 1], run[k - 1 + 1]);
      InvNext(u, run[k - 1], steps[k - 1], run[k]);
    }
  }

  lemma RunTyped(u: Setup, run: seq<DSNet>, steps: seq<Step>, k: nat)
    requires IsRun(u, run, steps) && k <= |steps|
    ensures Typed(u, run[k])
  {
    InvRun(u, run, steps, k);
  }
}
