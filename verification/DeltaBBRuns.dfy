/** Runs of 1Δ-BB* with BADS*.  The nodes of u.active run the handlers.  The others stay silent, as in
    handler_tbb_m.go, or, if injecting, send anything that needs no signature of an active node. */
module DeltaBBRuns {

  import opened Common
  import opened DeltaBB
  import opened Network

  /** Fires one tick interval after the node took in a proposal. */
  datatype VoteTimer = VoteTimer(node: NodeId, takenAt: nat)

  /** An aggregate that waits for tick 6. */
  datatype Waiting = Waiting(node: NodeId, msg: InputList)

  /** History: node took in a proposal of value at some time; node voted for value, one tick interval after time at.
      */
  datatype Event = Event(node: NodeId, value: Value, at: nat)

  /** baPending and finalPending hold the nodes whose timers have not fired; handled, ballots and inputs are history:
      proposals taken in, votes cast, and inputs to BADS*. */
  datatype DbbNet = DbbNet(now: nat, nodes: seq<DbbState>, proposals: multiset<Proposal>,
                           forward1s: multiset<Packet<Request>>, votes: multiset<Packet<VoteContent>>,
                           forward2s: multiset<Packet<InputList>>, voteTimers: multiset<VoteTimer>,
                           waiting: multiset<Waiting>, baPending: set<NodeId>, finalPending: set<NodeId>,
                           handled: set<Event>, ballots: set<Event>, inputs: map<NodeId, Value>)

  datatype System = System(u: Setup, injecting: bool)

  datatype Step =
    | Propose(q: Proposal) | Forward1(f: Packet<Request>)
    | Vote(p: Packet<VoteContent>) | Forward2(l: Packet<InputList>)
    | FireVote(t: VoteTimer) | FireBA(i: NodeId) | FireWaiting(w: Waiting) | FireFinal(i: NodeId)
    | TakeTrigger(i: NodeId) | Tick
    | InjectProposal(dst: NodeId, req: Request) | InjectForward1(dst: NodeId, req: Request)
    | InjectVote(dst: NodeId, vote: VoteContent) | InjectForward2(dst: NodeId, list: InputList)

  ghost predicate Typed(u: Setup, s: DbbNet) {
    && u.Valid() && |s.nodes| == u.c.nodeNum && s.baPending <= u.active && s.finalPending <= u.active
    && (forall t :: t in s.voteTimers ==> t.node in u.active)
    && (forall w :: w in s.waiting ==> w.node in u.active && |w.msg.sigs| > 0)
    && (forall p :: p in s.forward2s ==> |p.msg.sigs| > 0)
  }

  ghost predicate Init(u: Setup, s: DbbNet) {
    && u.Valid()
    && s == DbbNet(0, seq(u.c.nodeNum, _ => CLEARED), u.sent, multiset{}, multiset{}, multiset{}, multiset{},
                   multiset{}, u.active, u.active, {}, {}, map[])
  }

  /** The signature on a vote: an active node signs what it votes for, and a silent one signs nothing. */
  ghost predicate Genuine(y: System, s: DbbNet, v: Value, sig: Signature) {
    && sig.Single? && sig.content == v && sig.signer < y.u.c.nodeNum
    && (if sig.signer in y.u.active then exists a :: Event(sig.signer, v, a) in s.ballots else y.injecting)
  }

  ghost predicate Enabled(y: System, s: DbbNet, step: Step)
    requires Typed(y.u, s)
  {
    var u := y.u;
    match step
    case Propose(q) => q in s.proposals
    case Forward1(f) => f in s.forward1s
    case Vote(p) => p in s.votes
    case Forward2(l) => l in s.forward2s
    case FireVote(t) => t in s.voteTimers && t.takenAt + u.c.tickInterval <= s.now
    case FireBA(i) => i in s.baPending && u.c.At(4) <= s.now
    case FireWaiting(w) => w in s.waiting && u.c.At(6) <= s.now
    case FireFinal(i) => i in s.finalPending && u.c.At(u.c.malicious + 6) <= s.now
    case TakeTrigger(i) => i in u.active && s.nodes[i].trigger > 0
    case Tick => MayTick(u, s)
    case InjectProposal(dst, _) => y.injecting && dst in u.active && VIEW !in u.active
    case InjectForward1(dst, _) => y.injecting && dst in u.active
    case InjectVote(dst, vote) => y.injecting && dst in u.active && Genuine(y, s, vote.content, vote.sig)
    case InjectForward2(dst, list) => y.injecting && dst in u.active && Readable(u.c, s.now, list)
  }

  /** Messages are delivered in less than one tick interval; timers fire, and the trigger is taken, on time. */
  ghost predicate MayTick(u: Setup, s: DbbNet)
    requires Typed(u, s)
  {
    && (s.proposals != multiset{} ==> s.now + 1 < u.c.tickInterval)
    && (forall f :: f in s.forward1s ==> s.now + 1 < f.sentAt + u.c.tickInterval)
    && (forall p :: p in s.votes ==> s.now + 1 < p.sentAt + u.c.tickInterval)
    && (forall l :: l in s.forward2s ==> s.now + 1 < l.sentAt + u.c.tickInterval)
    && (forall t :: t in s.voteTimers ==> s.now < t.takenAt + u.c.tickInterval)
    && (s.baPending != {} ==> s.now < u.c.At(4))
    && (s.waiting != multiset{} ==> s.now < u.c.At(6))
    && (s.finalPending != {} ==> s.now < u.c.At(u.c.malicious + 6))
    && (forall i :: i in u.active ==> s.nodes[i].trigger == 0)
  }

  function TakeIn(u: Setup, s: DbbNet, i: NodeId, req: Request): DbbNet
    requires i < |s.nodes|
  {
    var o := OnPropose(i, s.nodes[i], req);
    s.(nodes := s.nodes[i := o.state],
       forward1s := s.forward1s + Broadcast(u.c.nodeNum, i, s.now, o.sent),
       voteTimers := s.voteTimers + multiset{VoteTimer(i, s.now)},
       handled := s.handled + {Event(i, req.content, s.now)})
  }

  function Hear(s: DbbNet, i: NodeId, req: Request): DbbNet
    requires i < |s.nodes|
  {
    s.(nodes := s.nodes[i := OnForward1(s.nodes[i], req)])
  }

  function CastVote(u: Setup, s: DbbNet, t: VoteTimer): DbbNet
    requires t.node < |s.nodes|
  {
    var o := OnVoteTimer(t.node, s.nodes[t.node]);
    s.(nodes := s.nodes[t.node := o.state],
       votes := s.votes + Broadcast(u.c.nodeNum, t.node, s.now, o.sent),
       ballots := if o.sent.Some? then s.ballots + {Event(t.node, o.sent.value.content, t.takenAt)}
                  else s.ballots)
  }

  /** The broadcast of a certificate is left out: its handler does nothing yet. */
  function CountVote(u: Setup, s: DbbNet, i: NodeId, vote: VoteContent): DbbNet
    requires i < |s.nodes|
  {
    s.(nodes := s.nodes[i := OnVote(u.c, s.now, s.nodes[i], vote).state])
  }

  function StartBA(u: Setup, s: DbbNet, i: NodeId): DbbNet
    requires i < |s.nodes|
  {
    var o := OnBAStart(i, s.nodes[i]);
    s.(nodes := s.nodes[i := o.state],
       forward2s := s.forward2s + Broadcast(u.c.nodeNum, i, s.now, o.sent),
       baPending := s.baPending - {i},
       inputs := s.inputs[i := Input(s.nodes[i])])
  }

  function TakeList(u: Setup, s: DbbNet, i: NodeId, m: InputList): DbbNet
    requires i < |s.nodes| && u.c.Valid() && Readable(u.c, s.now, m)
  {
    var (o, later) := OnForward2(u.c, s.now, i, s.nodes[i], m);
    s.(nodes := s.nodes[i := o.state],
       forward2s := s.forward2s + Broadcast(u.c.nodeNum, i, s.now, o.sent),
       waiting := if later.Some? then s.waiting + multiset{Waiting(i, later.value)} else s.waiting)
  }

  /** A message arrives; nodes that are not active ignore it. */
  ghost predicate Arrives(u: Setup, s: DbbNet, step: Step, s': DbbNet)
    requires Typed(u, s)
  {
    match step
    case Propose(q) =>
      var t := s.(proposals := s.proposals - multiset{q});
      s' == if q.dst in u.active then TakeIn(u, t, q.dst, q.req) else t
    case Forward1(f) =>
      var t := s.(forward1s := s.forward1s - multiset{f});
      s' == if f.dst in u.active then Hear(t, f.dst, f.msg) else t
    case Vote(p) =>
      var t := s.(votes := s.votes - multiset{p});
      s' == if p.dst in u.active then CountVote(u, t, p.dst, p.msg) else t
    case Forward2(l) =>
      l in s.forward2s && (
      var t := s.(forward2s := s.forward2s - multiset{l});
      s' == if l.dst in u.active then TakeList(u, t, l.dst, l.msg) else t)
    case _ => false
  }

  ghost predicate Fires(u: Setup, s: DbbNet, step: Step, s': DbbNet)
    requires Typed(u, s)
  {
    match step
    case FireVote(t) => t in s.voteTimers && s' == CastVote(u, s.(voteTimers := s.voteTimers - multiset{t}), t)
    case FireBA(i) => i in s.baPending && s' == StartBA(u, s, i)
    case FireWaiting(w) =>
      s' == s.(waiting := s.waiting - multiset{w},
               forward2s := s.forward2s + Broadcast(u.c.nodeNum, w.node, s.now, Some(w.msg)))
    case FireFinal(i) =>
      && i in s.finalPending
      && s' == s.(nodes := s.nodes[i := OnFinalTimer(s.nodes[i])], finalPending := s.finalPending - {i})
    case TakeTrigger(i) =>
      && i in u.active && s.nodes[i].trigger > 0
      && s' == s.(nodes := s.nodes[i := s.nodes[i].(trigger := s.nodes[i].trigger - 1)])
    case Tick => s' == s.(now := s.now + 1)
    case _ => false
  }

  ghost predicate Injects(u: Setup, s: DbbNet, step: Step, s': DbbNet)
    requires Typed(u, s)
  {
    match step
    case InjectProposal(dst, req) => dst in u.active && s' == TakeIn(u, s, dst, req)
    case InjectForward1(dst, req) => dst in u.active && s' == Hear(s, dst, req)
    case InjectVote(dst, vote) => dst in u.active && s' == CountVote(u, s, dst, vote)
    case InjectForward2(dst, list) => dst in u.active && Readable(u.c, s.now, list) && s' == TakeList(u, s, dst, list)
    case _ => false
  }

  ghost predicate Next(y: System, s: DbbNet, step: Step, s': DbbNet) {
    && Typed(y.u, s) && Enabled(y, s, step)
    && (Arrives(y.u, s, step, s') || Fires(y.u, s, step, s') || Injects(y.u, s, step, s'))
  }

  ghost predicate IsRun(y: System, run: seq<DbbNet>, steps: seq<Step>) {
    && |run| == |steps| + 1 && Init(y.u, run[0])
    && forall k {:trigger steps[k]} :: 0 <= k < |steps| ==> Next(y, run[k], steps[k], run[k + 1])
  }

  // ----- One node --------------------------------------------------------------------------------------------------

  /** What a step makes of node i. */
  ghost function NodeAfter(u: Setup, s: DbbNet, step: Step, i: NodeId): DbbState
    requires Typed(u, s) && i < |s.nodes| && (step.Forward2? ==> step.l in s.forward2s)
    requires step.InjectForward2? ==> Readable(u.c, s.now, step.list)
  {
    var n := s.nodes[i];
    match step
    case Propose(q) => if q.dst == i && i in u.active then OnPropose(i, n, q.req).state else n
    case Forward1(f) => if f.dst == i && i in u.active then OnForward1(n, f.msg) else n
    case Vote(p) => if p.dst == i && i in u.active then OnVote(u.c, s.now, n, p.msg).state else n
    case Forward2(l) => if l.dst == i && i in u.active then OnForward2(u.c, s.now, i, n, l.msg).0.state else n
    case FireVote(t) => if t.node == i then OnVoteTimer(i, n).state else n
    case FireBA(j) => if j == i then OnBAStart(i, n).state else n
    case FireWaiting(_) => n
    case FireFinal(j) => if j == i then OnFinalTimer(n) else n
    case TakeTrigger(j) => if j == i && n.trigger > 0 then n.(trigger := n.trigger - 1) else n
    case Tick => n
    case InjectProposal(dst, req) => if dst == i then OnPropose(i, n, req).state else n
    case InjectForward1(dst, req) => if dst == i then OnForward1(n, req) else n
    case InjectVote(dst, vote) => if dst == i then OnVote(u.c, s.now, n, vote).state else n
    case InjectForward2(dst, list) => if dst == i then OnForward2(u.c, s.now, i, n, list).0.state else n
  }

  lemma NodeLearns(u: Setup, s: DbbNet, step: Step, s': DbbNet, i: NodeId)
    requires Typed(u, s) && i < |s.nodes| && Arrives(u, s, step, s') && (step.Propose? || step.Forward1?)
    ensures |s'.nodes| == |s.nodes| && s'.nodes[i] == NodeAfter(u, s, step, i)
  {
  }

  lemma NodeCounts(u: Setup, s: DbbNet, step: Step, s': DbbNet, i: NodeId)
    requires Typed(u, s) && i < |s.nodes| && Arrives(u, s, step, s') && step.Vote?
    ensures |s'.nodes| == |s.nodes| && s'.nodes[i] == NodeAfter(u, s, step, i)
  {
  }

  lemma NodeLists(u: Setup, s: DbbNet, step: Step, s': DbbNet, i: NodeId)
    requires Typed(u, s) && i < |s.nodes| && Arrives(u, s, step, s') && step.Forward2?
    ensures |s'.nodes| == |s.nodes| && s'.nodes[i] == NodeAfter(u, s, step, i)
  {
  }

  lemma NodeFires(u: Setup, s: DbbNet, step: Step, s': DbbNet, i: NodeId)
    requires Typed(u, s) && i < |s.nodes| && Fires(u, s, step, s')
    ensures |s'.nodes| == |s.nodes| && s'.nodes[i] == NodeAfter(u, s, step, i)
  {
  }

  lemma NodeInjects(u: Setup, s: DbbNet, step: Step, s': DbbNet, i: NodeId)
    requires Typed(u, s) && i < |s.nodes| && Injects(u, s, step, s')
    ensures |s'.nodes| == |s.nodes| && s'.nodes[i] == NodeAfter(u, s, step, i)
  {
  }

  lemma NodeNext(y: System, s: DbbNet, step: Step, s': DbbNet, i: NodeId)
    requires Next(y, s, step, s') && i < |s.nodes|
    ensures |s'.nodes| == |s.nodes| && s'.nodes[i] == NodeAfter(y.u, s, step, i)
  {
    if Arrives(y.u, s, step, s') {
      if step.Vote? {
        NodeCounts(y.u, s, step, s', i);
      } else if step.Forward2? {
        NodeLists(y.u, s, step, s', i);
      } else {
        NodeLearns(y.u, s, step, s', i);
      }
    } else if Fires(y.u, s, step, s') {
      NodeFires(y.u, s, step, s', i);
    } else {
      NodeInjects(y.u, s, step, s', i);
    }
  }

  // ----- Enabled steps can be taken --------------------------------------------------------------------------------

  lemma MessageArrives(y: System, s: DbbNet, step: Step) returns (s': DbbNet)
    requires Typed(y.u, s) && Enabled(y, s, step) && (step.Propose? || step.Forward1? || step.Vote? || step.Forward2?)
    ensures Next(y, s, step, s')
  {
    match step
    case Propose(q) =>
      var t := s.(proposals := s.proposals - multiset{q});
      s' := if q.dst in y.u.active then TakeIn(y.u, t, q.dst, q.req) else t;
    case Forward1(f) =>
      var t := s.(forward1s := s.forward1s - multiset{f});
      s' := if f.dst in y.u.active then Hear(t, f.dst, f.msg) else t;
    case Vote(p) =>
      var t := s.(votes := s.votes - multiset{p});
      s' := if p.dst in y.u.active then CountVote(y.u, t, p.dst, p.msg) else t;
    case Forward2(l) =>
      var t := s.(forward2s := s.forward2s - multiset{l});
      s' := if l.dst in y.u.active then TakeList(y.u, t, l.dst, l.msg) else t;
  }

  lemma TimerFires(y: System, s: DbbNet, step: Step) returns (s': DbbNet)
    requires Typed(y.u, s) && Enabled(y, s, step)
    requires step.FireVote? || step.FireBA? || step.FireWaiting? || step.FireFinal? || step.TakeTrigger? || step.Tick?
    ensures Next(y, s, step, s')
  {
    match step
    case FireVote(t) => s' := CastVote(y.u, s.(voteTimers := s.voteTimers - multiset{t}), t);
    case FireBA(i) => s' := StartBA(y.u, s, i);
    case FireWaiting(w) =>
      s' := s.(waiting := s.waiting - multiset{w},
               forward2s := s.forward2s + Broadcast(y.u.c.nodeNum, w.node, s.now, Some(w.msg)));
    case FireFinal(i) =>
      s' := s.(nodes := s.nodes[i := OnFinalTimer(s.nodes[i])], finalPending := s.finalPending - {i});
    case TakeTrigger(i) => s' := s.(nodes := s.nodes[i := s.nodes[i].(trigger := s.nodes[i].trigger - 1)]);
    case Tick => s' := s.(now := s.now + 1);
  }

  /** Something can always happen: a message, a timer, the trigger, or the clock. */
  lemma SomethingEnabled(u: Setup, s: DbbNet) returns (step: Step)
    requires Typed(u, s)
    ensures Enabled(System(u, false), s, step)
  {
    if s.proposals != multiset{} {
      var q :| q in s.proposals;
      step := Propose(q);
    } else if s.forward1s != multiset{} {
      var f :| f in s.forward1s;
      step := Forward1(f);
    } else if s.votes != multiset{} {
      var p :| p in s.votes;
      step := Vote(p);
    } else if s.forward2s != multiset{} {
      var l :| l in s.forward2s;
      step := Forward2(l);
    } else {
      step := DueOrTick(u, s);
    }
  }

  lemma DueOrTick(u: Setup, s: DbbNet) returns (step: Step)
    requires Typed(u, s) && s.proposals == multiset{}
    requires s.forward1s == multiset{} && s.votes == multiset{} && s.forward2s == multiset{}
    ensures Enabled(System(u, false), s, step)
  {
    if t :| t in s.voteTimers && t.takenAt + u.c.tickInterval <= s.now {
      step := FireVote(t);
    } else if i :| i in s.baPending && u.c.At(4) <= s.now {
      step := FireBA(i);
    } else if w :| w in s.waiting && u.c.At(6) <= s.now {
      step := FireWaiting(w);
    } else if i :| i in s.finalPending && u.c.At(u.c.malicious + 6) <= s.now {
      step := FireFinal(i);
    } else if i :| i in u.active && s.nodes[i].trigger > 0 {
      step := TakeTrigger(i);
    } else {
      step := Tick;
    }
  }
}
