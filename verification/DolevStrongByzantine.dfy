/** Dolev-Strong against arbitrary faults.  The nodes of u.active are honest and run the handlers; all others send
    what they like, to whom they like, at any moment, but cannot forge an honest node's signature. */
module DolevStrongByzantine {

  import opened Common
  import opened DolevStrong
  import opened Network
  import opened DolevStrongRuns

  /** timely says that no message with k signatures reaches an honest node at or after tick k.  The handler only warns
      about such messages (handler_ds.go:172-175: the return is commented out), so it has to come from outside. */
  datatype Attack = Attack(u: Setup, timely: bool) {

    function Faulty(): set<NodeId> {
      Ids(u.c.nodeNum) - u.active
    }

    /** At most malicious nodes are faulty; an honest view node proposes one value to everybody; what a faulty one
        proposes is up to the adversary. */
    ghost predicate Valid() {
      && u.Valid() && |Faulty()| <= u.c.malicious
      && (if VIEW in u.active then exists v :: u.HonestView(v) else u.sent == multiset{})
    }

    predicate Guarded() {
      timely || VIEW in u.active
    }
  }

  datatype ByzStep = Honest(step: Step) | ByzPropose(dst: NodeId, req: Request) | ByzForward(dst: NodeId, msg: SigList)

  /** What the adversary can put together at a moment: a list of different signers, the proposer first, in which the
      signatures of honest nodes are on values these nodes have taken in, or proposed. */
  ghost predicate Authentic(u: Setup, s: DSNet, m: SigList)
    requires Typed(u, s)
  {
    && |m.sigs| == |m.nodes| >= 1 && m.nodes[0] == VIEW
    && (forall k :: 0 <= k < |m.nodes| ==> m.nodes[k] < u.c.nodeNum && m.sigs[k] == Single(m.nodes[k], m.req.content))
    && (forall k, l :: 0 <= k < l < |m.nodes| ==> m.nodes[k] != m.nodes[l])
    && (forall k :: 0 <= k < |m.nodes| && m.nodes[k] in u.active && m.nodes[k] != VIEW ==>
        m.req.content in s.nodes[m.nodes[k]].extrSet)
    && (VIEW in u.active ==> m.req.content in u.Values())
  }

  ghost predicate ByzNext(a: Attack, s: DSNet, step: ByzStep, s': DSNet) {
    && Typed(a.u, s)
    && match step
       case Honest(h) => Next(a.u, s, h, s')
       case ByzPropose(dst, req) =>
         && dst in a.u.active && VIEW !in a.u.active && req.sig == Single(VIEW, req.content)
         && (a.timely ==> Forwards(a.u.c, s.now, 1))
         && s' == Receive(a.u, s, dst, OnPropose(a.u.c, dst, s.now, s.nodes[dst], req))
       case ByzForward(dst, m) =>
         && dst in a.u.active && Authentic(a.u, s, m)
         && (a.timely ==> Forwards(a.u.c, s.now, |m.sigs|))
         && s' == Receive(a.u, s, dst, OnForward(a.u.c, dst, s.now, s.nodes[dst], m))
  }

  ghost predicate IsAttackRun(a: Attack, run: seq<DSNet>, steps: seq<ByzStep>) {
    && a.Valid() && |run| == |steps| + 1 && Init(a.u, run[0])
    && forall k {:trigger steps[k]} :: 0 <= k < |steps| ==> ByzNext(a, run[k], steps[k], run[k + 1])
  }

  // ----- The invariant ---------------------------------------------------------------------------------------------

  ghost predicate HeldByHonest(u: Setup, s: DSNet, v: Value)
    requires Typed(u, s)
  {
    exists h :: h in u.active && v in s.nodes[h].extrSet
  }

  /** A copy of v that left before tick f is on its way to j. */
  ghost predicate SentInTime(u: Setup, s: DSNet, j: NodeId, v: Value) {
    exists p :: p in s.forwards && p.dst == j && p.msg.Content() == v && p.sentAt < u.c.At(u.c.malicious)
  }

  /** With a faulty view node: what one honest node holds, every honest node holds or will get before tick f + 1. */
  ghost predicate Spread(u: Setup, s: DSNet)
    requires Typed(u, s)
  {
    forall v, j :: HeldByHonest(u, s, v) && j in u.active ==> v in s.nodes[j].extrSet || SentInTime(u, s, j, v)
  }

  ghost predicate Vouched(u: Setup, s: DSNet)
    requires Typed(u, s)
  {
    forall p :: p in s.forwards ==> HeldByHonest(u, s, p.msg.Content())
  }

  ghost predicate ByzInv(a: Attack, s: DSNet) {
    && Typed(a.u, s) && OnTime(a.u, s) && Vouched(a.u, s)
    && (if VIEW in a.u.active then Sourced(a.u, s) else Spread(a.u, s))
  }

  lemma ByzInvInit(a: Attack, s: DSNet)
    requires a.Valid() && Init(a.u, s)
    ensures ByzInv(a, s)
  {
  }

  lemma VouchedKept(u: Setup, s: DSNet, s': DSNet, i: NodeId, w: Value, out: Option<SigList>)
    requires TookIn(u, s, s', i, w, out) && Vouched(u, s) && i in u.active
    requires out.Some? ==> out.value.req.content == w
    ensures Vouched(u, s')
  {
    forall p | p in s'.forwards
      ensures HeldByHonest(u, s', p.msg.Content())
    {
      if p in s.forwards {
        assert HeldByHonest(u, s, p.msg.Content());
        var h :| h in u.active && p.msg.Content() in s.nodes[h].extrSet;
        assert p.msg.Content() in s'.nodes[h].extrSet;
      } else {
        assert NewCopy(u, s, i, out, p);
        assert p.msg.Content() in s'.nodes[i].extrSet;
      }
    }
  }

  /** Either another honest node has spread w already, or node i spreads it now, before tick f. */
  lemma SpreadKept(u: Setup, s: DSNet, s': DSNet, i: NodeId, w: Value, out: Option<SigList>)
    requires TookIn(u, s, s', i, w, out) && Spread(u, s) && i in u.active
    requires HeldByHonest(u, s, w) || (out.Some? && out.value.req.content == w && s.now < u.c.At(u.c.malicious))
    ensures Spread(u, s')
  {
    forall v, j | HeldByHonest(u, s', v) && j in u.active && v !in s'.nodes[j].extrSet
      ensures SentInTime(u, s', j, v)
    {
      if HeldByHonest(u, s, v) {
        assert v !in s.nodes[j].extrSet;
        assert SentInTime(u, s, j, v);
        var p :| p in s.forwards && p.dst == j && p.msg.Content() == v && p.sentAt < u.c.At(u.c.malicious);
        assert p in s'.forwards;
      } else {
        var h :| h in u.active && v in s'.nodes[h].extrSet;
        assert h == i && v == w;
        assert NewCopy(u, s, i, out, Packet(j, out.value, s.now));
      }
    }
  }

  // ----- A value no honest node holds comes with faulty signers only, so with at most f signatures -----------------

  function Elements(nodes: seq<NodeId>): (s: set<NodeId>)
    ensures forall x :: x in s <==> x in nodes
  {
    set x | x in nodes
  }

  lemma {:induction false} DistinctCount(nodes: seq<NodeId>)
    requires forall k, l :: 0 <= k < l < |nodes| ==> nodes[k] != nodes[l]
    ensures |Elements(nodes)| == |nodes|
  {
    if nodes != [] {
      var front, last := nodes[..|nodes| - 1], nodes[|nodes| - 1];
      DistinctCount(front);
      assert nodes == front + [last];
      assert Elements(nodes) == Elements(front) + {last};
      assert last !in front;
    }
  }

  lemma SignerHolds(u: Setup, s: DSNet, m: SigList, k: nat)
    requires Typed(u, s) && VIEW !in u.active && Authentic(u, s, m) && k < |m.nodes| && m.nodes[k] in u.active
    ensures HeldByHonest(u, s, m.req.content)
  {
    assert m.req.content in s.nodes[m.nodes[k]].extrSet;
  }

  lemma FewSignatures(a: Attack, s: DSNet, m: SigList)
    requires a.Valid() && Typed(a.u, s) && VIEW !in a.u.active && Authentic(a.u, s, m)
    requires !HeldByHonest(a.u, s, m.req.content)
    ensures |m.sigs| <= a.u.c.malicious
  {
    DistinctCount(m.nodes);
    forall x | x in Elements(m.nodes)
      ensures x in a.Faulty()
    {
      var k: nat :| k < |m.nodes| && m.nodes[k] == x;
      if x in a.u.active {
        SignerHolds(a.u, s, m, k);
      }
    }
    SubsetSize(Elements(m.nodes), a.Faulty());
  }

  /** Whoever accepts a timely message with a value new to all honest nodes passes it on before tick f. */
  lemma FirstAcceptor(a: Attack, s: DSNet, dst: NodeId, m: SigList)
    requires a.Valid() && a.timely && Typed(a.u, s) && VIEW !in a.u.active && Authentic(a.u, s, m)
    requires Forwards(a.u.c, s.now, |m.sigs|) && dst in a.u.active && !HeldByHonest(a.u, s, m.req.content)
    ensures OnForward(a.u.c, dst, s.now, s.nodes[dst], m).sent.Some?
    ensures s.now < a.u.c.At(a.u.c.malicious)
  {
    FewSignatures(a, s, m);
    TickBefore(a.u.c, s.now, |m.sigs|);
    AtMonotone(a.u.c, |m.sigs|, a.u.c.malicious);
    assert m.req.content !in s.nodes[dst].extrSet;
  }

  lemma FaultyView(a: Attack, s: DSNet)
    requires a.Valid() && Typed(a.u, s) && VIEW !in a.u.active
    ensures a.u.c.malicious >= 1 && s.now < a.u.c.At(1) ==> s.now < a.u.c.At(a.u.c.malicious)
    ensures a.u.c.malicious >= 1
  {
    assert VIEW in a.Faulty();
    SubsetSize({VIEW}, a.Faulty());
    AtMonotone(a.u.c, 1, a.u.c.malicious);
  }

  // ----- Every step keeps the invariant ----------------------------------------------------------------------------

  lemma ByzProposeKept(a: Attack, s: DSNet, dst: NodeId, req: Request, s': DSNet)
    requires a.Valid() && a.Guarded() && ByzInv(a, s) && ByzNext(a, s, ByzPropose(dst, req), s')
    ensures ByzInv(a, s')
  {
    var o := OnPropose(a.u.c, dst, s.now, s.nodes[dst], req);
    Received(a.u, s, s, dst, req.content, o);
    FaultyView(a, s);
    TickBefore(a.u.c, s.now, 1);
    OnTimeKept(a.u, s, s', dst, req.content, o.sent);
    VouchedKept(a.u, s, s', dst, req.content, o.sent);
    SpreadKept(a.u, s, s', dst, req.content, o.sent);
  }

  lemma ByzForwardTookIn(a: Attack, s: DSNet, dst: NodeId, m: SigList, s': DSNet)
    requires ByzNext(a, s, ByzForward(dst, m), s')
    ensures TookIn(a.u, s, s', dst, m.Content(), OnForward(a.u.c, dst, s.now, s.nodes[dst], m).sent)
  {
    var o := OnForward(a.u.c, dst, s.now, s.nodes[dst], m);
    assert o.state.extrSet == s.nodes[dst].extrSet + {m.req.content};
    Received(a.u, s, s, dst, m.req.content, o);
  }

  lemma ByzForwardVouched(u: Setup, s: DSNet, dst: NodeId, m: SigList, s': DSNet)
    requires Typed(u, s) && OnTime(u, s) && Vouched(u, s) && dst in u.active
    requires TookIn(u, s, s', dst, m.Content(), OnForward(u.c, dst, s.now, s.nodes[dst], m).sent)
    ensures OnTime(u, s') && Vouched(u, s')
  {
    OnTimeKept(u, s, s', dst, m.Content(), OnForward(u.c, dst, s.now, s.nodes[dst], m).sent);
    VouchedKept(u, s, s', dst, m.Content(), OnForward(u.c, dst, s.now, s.nodes[dst], m).sent);
  }

  lemma ByzForwardKept(a: Attack, s: DSNet, dst: NodeId, m: SigList, s': DSNet)
    requires a.Valid() && a.Guarded() && ByzInv(a, s) && ByzNext(a, s, ByzForward(dst, m), s')
    ensures ByzInv(a, s')
  {
    var out := OnForward(a.u.c, dst, s.now, s.nodes[dst], m).sent;
    ByzForwardTookIn(a, s, dst, m, s');
    ByzForwardVouched(a.u, s, dst, m, s');
    if VIEW in a.u.active {
      SourcedKept(a.u, s, s', dst, m.Content(), out);
    } else {
      if !HeldByHonest(a.u, s, m.Content()) {
        FirstAcceptor(a, s, dst, m);
      }
      SpreadKept(a.u, s, s', dst, m.Content(), out);
    }
  }

  lemma HonestProposeKept(a: Attack, s: DSNet, q: Proposal, s': DSNet)
    requires a.Valid() && ByzInv(a, s) && Next(a.u, s, Propose(q), s') && q.dst in a.u.active
    ensures ByzInv(a, s')
  {
    var o := OnPropose(a.u.c, q.dst, s.now, s.nodes[q.dst], q.req);
    ProposeTookIn(a.u, s, q);
    OnTimeKept(a.u, s, s', q.dst, q.req.content, o.sent);
    VouchedKept(a.u, s, s', q.dst, q.req.content, o.sent);
    SourcedKept(a.u, s, s', q.dst, q.req.content, o.sent);
  }

  lemma ArrivalIsHeld(a: Attack, s: DSNet, p: Packet<SigList>)
    requires ByzInv(a, s) && p in s.forwards
    ensures HeldByHonest(a.u, s, p.msg.Content())
    ensures VIEW in a.u.active ==> p.msg.Content() in a.u.Values()
  {
    assert HeldByHonest(a.u, s, p.msg.Content());
  }

  lemma HonestForwardVouched(u: Setup, s: DSNet, p: Packet<SigList>, s': DSNet)
    requires Next(u, s, Forward(p), s') && p.dst in u.active && OnTime(u, s) && Vouched(u, s)
    ensures Typed(u, s') && OnTime(u, s') && Vouched(u, s')
  {
    var o := OnForward(u.c, p.dst, s.now, s.nodes[p.dst], p.msg);
    ForwardTookIn(u, s, p);
    OnTimeKept(u, s, s', p.dst, p.msg.Content(), o.sent);
    VouchedKept(u, s, s', p.dst, p.msg.Content(), o.sent);
  }

  lemma HonestForwardKept(a: Attack, s: DSNet, p: Packet<SigList>, s': DSNet)
    requires a.Valid() && ByzInv(a, s) && Next(a.u, s, Forward(p), s') && p.dst in a.u.active
    ensures ByzInv(a, s')
  {
    ArrivalIsHeld(a, s, p);
    HonestForwardVouched(a.u, s, p, s');
    ForwardTookIn(a.u, s, p);
    var o := OnForward(a.u.c, p.dst, s.now, s.nodes[p.dst], p.msg);
    if VIEW in a.u.active {
      SourcedKept(a.u, s, s', p.dst, p.msg.Content(), o.sent);
    } else {
      SpreadKept(a.u, s, s', p.dst, p.msg.Content(), o.sent);
    }
  }

  lemma SameHolders(u: Setup, s: DSNet, s': DSNet, v: Value)
    requires TookNothing(u, s, s')
    ensures HeldByHonest(u, s', v) <==> HeldByHonest(u, s, v)
  {
  }

  lemma OtherVouched(u: Setup, s: DSNet, s': DSNet)
    requires TookNothing(u, s, s') && Vouched(u, s)
    ensures Vouched(u, s')
  {
    forall p | p in s'.forwards
      ensures HeldByHonest(u, s', p.msg.Content())
    {
      SameHolders(u, s, s', p.msg.Content());
    }
  }

  lemma OtherSpread(u: Setup, s: DSNet, s': DSNet)
    requires TookNothing(u, s, s') && Spread(u, s)
    ensures Spread(u, s')
  {
    forall v, j | HeldByHonest(u, s', v) && j in u.active && v !in s'.nodes[j].extrSet
      ensures SentInTime(u, s', j, v)
    {
      SameHolders(u, s, s', v);
      assert v !in s.nodes[j].extrSet;
      assert SentInTime(u, s, j, v);
      var p :| p in s.forwards && p.dst == j && p.msg.Content() == v && p.sentAt < u.c.At(u.c.malicious);
      assert p in s'.forwards;
    }
  }

  lemma HonestOtherKept(a: Attack, s: DSNet, s': DSNet)
    requires a.Valid() && ByzInv(a, s) && TookNothing(a.u, s, s') && OnTime(a.u, s')
    ensures ByzInv(a, s')
  {
    OtherVouched(a.u, s, s');
    if VIEW in a.u.active {
      OtherSourced(a.u, s, s');
    } else {
      OtherSpread(a.u, s, s');
    }
  }

  lemma ByzInvNext(a: Attack, s: DSNet, step: ByzStep, s': DSNet)
    requires a.Valid() && a.Guarded() && ByzInv(a, s) && ByzNext(a, s, step, s')
    ensures ByzInv(a, s')
  {
    match step
    case ByzPropose(dst, req) => ByzProposeKept(a, s, dst, req, s');
    case ByzForward(dst, m) => ByzForwardKept(a, s, dst, m, s');
    case Honest(h) =>
      if h.Propose? && h.q.dst in a.u.active {
        HonestProposeKept(a, s, h.q, s');
      } else if h.Forward? && h.p.dst in a.u.active {
        HonestForwardKept(a, s, h.p, s');
      } else {
        OtherTookNothing(a.u, s, h, s');
        HonestOtherKept(a, s, s');
      }
  }

  lemma ByzInvStep(a: Attack, run: seq<DSNet>, steps: seq<ByzStep>, k: nat)
    requires IsAttackRun(a, run, steps) && a.Guarded() && 0 < k <= |steps| && ByzInv(a, run[k - 1])
    ensures ByzInv(a, run[k])
  {
    var s, s' := run[k - 1], run[k - 1 + 1];
    assert s' == run[k];
    ByzInvNext(a, s, steps[k - 1], s');
  }

  lemma {:induction false} ByzInvRun(a: Attack, run: seq<DSNet>, steps: seq<ByzStep>, k: nat)
    requires IsAttackRun(a, run, steps) && a.Guarded() && k <= |steps|
    ensures ByzInv(a, run[k])
  {
    if k == 0 {
      ByzInvInit(a, run[0]);
    } else {
      ByzInvRun(a, run, steps, k - 1);
      ByzInvStep(a, run, steps, k);
    }
  }

  // ----- When a value is passed on ---------------------------------------------------------------------------------

  /** The list m with the signature of node i appended. */
  function Extended(m: SigList, i: NodeId): SigList {
    SigList(m.req, m.sigs + [Single(i, m.Content())], m.nodes + [i])
  }

  /** In any run, under any faults: a list with k signatures on a value that is new to the honest node it reaches is
      passed on, with its signature appended, if and only if it arrives before tick k; the value is taken in anyway.
      */
  lemma PassedOnExactly(a: Attack, run: seq<DSNet>, steps: seq<ByzStep>, k: nat, dst: NodeId, m: SigList)
    requires IsAttackRun(a, run, steps) && k < |steps| && steps[k] == ByzForward(dst, m)
    ensures dst < |run[k].nodes| == |run[k + 1].nodes|
    ensures run[k + 1].nodes[dst].extrSet == run[k].nodes[dst].extrSet + {m.Content()}
    ensures run[k + 1].forwards == run[k].forwards +
      if m.Content() !in run[k].nodes[dst].extrSet && run[k].now < a.u.c.At(|m.sigs|)
      then Broadcast(a.u.c.nodeNum, dst, run[k].now, Some(Extended(m, dst))) else multiset{}
  {
    assert ByzNext(a, run[k], steps[k], run[k + 1]);
    TickBefore(a.u.c, run[k].now, |m.sigs|);
  }

  /** Every list on its way left before the tick that counts the signatures it arrived with. */
  ghost predicate LeftInTime(u: Setup, s: DSNet) {
    forall p :: p in s.forwards ==> |p.msg.sigs| >= 2 && p.sentAt < u.c.At(|p.msg.sigs| - 1)
  }

  lemma ProposalLeaves(u: Setup, s: DSNet, t: DSNet, i: NodeId, req: Request)
    requires u.Valid() && i < |t.nodes| && LeftInTime(u, s) && t.forwards == s.forwards && t.now == s.now
    ensures LeftInTime(u, Receive(u, t, i, OnPropose(u.c, i, s.now, t.nodes[i], req)))
  {
    TickBefore(u.c, s.now, 1);
  }

  lemma ListLeaves(u: Setup, s: DSNet, t: DSNet, i: NodeId, m: SigList)
    requires u.Valid() && i < |t.nodes| && LeftInTime(u, s) && t.forwards <= s.forwards && t.now == s.now
    requires |m.sigs| >= 1
    ensures LeftInTime(u, Receive(u, t, i, OnForward(u.c, i, s.now, t.nodes[i], m)))
  {
    TickBefore(u.c, s.now, |m.sigs|);
  }

  lemma LeftInTimeHonest(u: Setup, s: DSNet, h: Step, s': DSNet)
    requires Next(u, s, h, s') && LeftInTime(u, s)
    ensures LeftInTime(u, s')
  {
    if h.Propose? && h.q.dst in u.active {
      ProposalLeaves(u, s, s.(proposals := s.proposals - multiset{h.q}), h.q.dst, h.q.req);
    } else if h.Forward? && h.p.dst in u.active {
      ListLeaves(u, s, s.(forwards := s.forwards - multiset{h.p}), h.p.dst, h.p.msg);
    }
  }

  lemma LeftInTimeNext(a: Attack, s: DSNet, step: ByzStep, s': DSNet)
    requires ByzNext(a, s, step, s') && LeftInTime(a.u, s)
    ensures LeftInTime(a.u, s')
  {
    match step
    case Honest(h) => LeftInTimeHonest(a.u, s, h, s');
    case ByzPropose(dst, req) => ProposalLeaves(a.u, s, s, dst, req);
    case ByzForward(dst, m) => ListLeaves(a.u, s, s, dst, m);
  }

  /** No honest node ever sends a list late, whatever reaches it, and when. */
  lemma {:induction false} NothingLeavesLate(a: Attack, run: seq<DSNet>, steps: seq<ByzStep>, k: nat)
    requires IsAttackRun(a, run, steps) && k <= |steps|
    ensures LeftInTime(a.u, run[k])
  {
    if k > 0 {
      NothingLeavesLate(a, run, steps, k - 1);
      LeftInTimeNext(a, run[k - 1], steps[k - 1], run[k - 1 + 1]);
      assert run[k - 1 + 1] == run[k];
    }
  }
}
