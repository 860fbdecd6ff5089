/** Active nodes other than the view node never vote for different values. */
module DeltaBBVotes {

  import opened Common
  import opened DeltaBB
  import opened Network
  import opened DeltaBBRuns

  // ----- The invariant ---------------------------------------------------------------------------------------------

  ghost predicate Sized(u: Setup, s: DbbNet) {
    u.Valid() && |s.nodes| == u.c.nodeNum
  }

  /** Forwarded proposals arrive in less than one tick interval. */
  ghost predicate ForwardsOnTime(u: Setup, s: DbbNet) {
    forall f :: f in s.forward1s ==> s.now < f.sentAt + u.c.tickInterval
  }

  /** A vote timer runs for a proposal its node took in. */
  ghost predicate TimersFounded(u: Setup, s: DbbNet) {
    forall t :: t in s.voteTimers ==> t.node in u.active && exists w :: Event(t.node, w, t.takenAt) in s.handled
  }

  ghost predicate HandledSeen(u: Setup, s: DbbNet)
    requires Sized(u, s)
  {
    forall h :: h in s.handled ==> h.node in u.active && h.at <= s.now && h.value in s.nodes[h.node].proposeSet
  }

  /** The copy node h.node forwarded when it took in h.value is on its way to j. */
  ghost predicate Relayed(s: DbbNet, h: Event, j: NodeId) {
    exists f :: f in s.forward1s && f.dst == j && f.msg.content == h.value && f.sentAt == h.at
  }

  ghost predicate HandledRelayed(u: Setup, s: DbbNet)
    requires Sized(u, s)
  {
    forall h, j :: h in s.handled && h.node != VIEW && j in u.active ==>
      h.value in s.nodes[j].proposeSet || Relayed(s, h, j)
  }

  /** The voter took in the value one tick interval before it voted, and by then no other active node except perhaps
      the view node had taken in another value. */
  ghost predicate Founded(u: Setup, s: DbbNet, b: Event) {
    && b.node in u.active && b.at + u.c.tickInterval <= s.now && b in s.handled
    && (forall h :: h in s.handled && h.node != VIEW && h.at <= b.at ==> h.value == b.value)
  }

  ghost predicate BallotsFounded(u: Setup, s: DbbNet) {
    forall b :: b in s.ballots ==> Founded(u, s, b)
  }

  ghost predicate VoteInv(u: Setup, s: DbbNet) {
    && Sized(u, s) && ForwardsOnTime(u, s) && TimersFounded(u, s) && HandledSeen(u, s) && HandledRelayed(u, s)
    && BallotsFounded(u, s)
  }

  // ----- What steps do to the part of the state the invariant is about ---------------------------------------------

  ghost predicate ProposeSetsGrow(s: DbbNet, s': DbbNet, i: NodeId, news: set<Value>) {
    && i < |s.nodes| == |s'.nodes|
    && s'.nodes[i].proposeSet == s.nodes[i].proposeSet + news
    && (forall j :: 0 <= j < |s.nodes| && j != i ==> s'.nodes[j].proposeSet == s.nodes[j].proposeSet)
  }

  ghost predicate SameEvents(s: DbbNet, s': DbbNet) {
    && s'.handled == s.handled && s'.ballots == s.ballots
    && (forall t :: t in s'.voteTimers ==> t in s.voteTimers)
  }

  /** Node i sees value w (or none): only copies of w for i are used up. */
  ghost predicate Sees(u: Setup, s: DbbNet, s': DbbNet, i: NodeId, news: set<Value>) {
    && Sized(u, s) && Sized(u, s') && ProposeSetsGrow(s, s', i, news) && SameEvents(s, s')
    && s.now <= s'.now && ForwardsOnTime(u, s')
    && (forall f :: f in s'.forward1s ==> f in s.forward1s)
    && (forall f :: f in s.forward1s && f.dst in u.active ==>
        f in s'.forward1s || (f.dst == i && f.msg.content in news))
  }

  ghost predicate Takes(u: Setup, s: DbbNet, s': DbbNet, i: NodeId, req: Request) {
    && Sized(u, s) && Sized(u, s') && i in u.active && ProposeSetsGrow(s, s', i, {req.content}) && s'.now == s.now
    && s'.handled == s.handled + {Event(i, req.content, s.now)} && s'.ballots == s.ballots
    && (forall t :: t in s'.voteTimers ==> t in s.voteTimers || t == VoteTimer(i, s.now))
    && (forall f :: f in s.forward1s ==> f in s'.forward1s)
    && (forall f :: f in s'.forward1s ==> f in s.forward1s || f.sentAt == s.now)
    && (i != VIEW ==> forall d: NodeId :: d < u.c.nodeNum && d != i ==> Packet(d, req, s.now) in s'.forward1s)
  }

  /** Node t.node votes if it has seen exactly one value. */
  ghost predicate Votes(u: Setup, s: DbbNet, s': DbbNet, t: VoteTimer) {
    && Sized(u, s) && Sized(u, s') && t.node < |s.nodes| && ProposeSetsGrow(s, s', t.node, {}) && s'.now == s.now
    && t in s.voteTimers && t.takenAt + u.c.tickInterval <= s.now
    && s'.handled == s.handled && s'.forward1s == s.forward1s
    && (forall r :: r in s'.voteTimers ==> r in s.voteTimers)
    && (if |s.nodes[t.node].proposeSet| == 1
        then exists v :: s.nodes[t.node].proposeSet == {v} && s'.ballots == s.ballots + {Event(t.node, v, t.takenAt)}
        else s'.ballots == s.ballots)
  }

  lemma TakesIn(u: Setup, s: DbbNet, i: NodeId, req: Request, s': DbbNet, t: DbbNet)
    requires Sized(u, s) && i in u.active && t == s.(proposals := t.proposals) && s' == TakeIn(u, t, i, req)
    ensures Takes(u, s, s', i, req)
  {
    var o := OnPropose(i, s.nodes[i], req);
    if i != VIEW {
      forall d: NodeId | d < u.c.nodeNum && d != i
        ensures Packet(d, req, s.now) in s'.forward1s
      {
        assert Packet(d, req, s.now) in Broadcast(u.c.nodeNum, i, s.now, o.sent);
      }
    }
  }

  lemma VoteOutcome(nid: NodeId, s: DbbState)
    ensures OnVoteTimer(nid, s).state.proposeSet == s.proposeSet
    ensures OnVoteTimer(nid, s).sent.Some? <==> |s.proposeSet| == 1
    ensures OnVoteTimer(nid, s).sent.Some? ==> s.proposeSet == {OnVoteTimer(nid, s).sent.value.content}
  {
  }

  lemma CastFrame(u: Setup, s: DbbNet, t: VoteTimer)
    requires t.node < |s.nodes|
    ensures var s' := CastVote(u, s, t); var o := OnVoteTimer(t.node, s.nodes[t.node]);
      && ProposeSetsGrow(s, s', t.node, {}) && s'.now == s.now && s'.handled == s.handled
      && s'.forward1s == s.forward1s && s'.voteTimers == s.voteTimers
      && s'.ballots == if o.sent.Some? then s.ballots + {Event(t.node, o.sent.value.content, t.takenAt)} else s.ballots
  {
    VoteOutcome(t.node, s.nodes[t.node]);
  }

  lemma CastsVote(u: Setup, s: DbbNet, t: VoteTimer, s': DbbNet)
    requires Typed(u, s) && t in s.voteTimers && t.takenAt + u.c.tickInterval <= s.now
    requires s' == CastVote(u, s.(voteTimers := s.voteTimers - multiset{t}), t)
    ensures Votes(u, s, s', t)
  {
    VoteOutcome(t.node, s.nodes[t.node]);
    CastFrame(u, s.(voteTimers := s.voteTimers - multiset{t}), t);
  }

  lemma Hears(u: Setup, s: DbbNet, f: Packet<Request>, s': DbbNet)
    requires Typed(u, s) && ForwardsOnTime(u, s) && f in s.forward1s
    requires var t := s.(forward1s := s.forward1s - multiset{f});
      s' == if f.dst in u.active then Hear(t, f.dst, f.msg) else t
    requires u.c.nodeNum > 0
    ensures if f.dst in u.active then Sees(u, s, s', f.dst, {f.msg.content}) else Sees(u, s, s', 0, {})
  {
  }

  lemma HearsInjected(u: Setup, s: DbbNet, i: NodeId, req: Request, s': DbbNet)
    requires Typed(u, s) && ForwardsOnTime(u, s) && i in u.active && s' == Hear(s, i, req)
    ensures Sees(u, s, s', i, {req.content})
  {
  }

  /** The steps that do not touch proposals. */
  predicate Elsewhere(u: Setup, step: Step) {
    match step
    case Propose(q) => q.dst !in u.active
    case Vote(_) => true
    case Forward2(_) => true
    case FireBA(_) => true
    case FireWaiting(_) => true
    case FireFinal(_) => true
    case TakeTrigger(_) => true
    case Tick => true
    case InjectVote(_, _) => true
    case InjectForward2(_, _) => true
    case _ => false
  }

  ghost predicate SameProposing(s: DbbNet, s': DbbNet) {
    && |s'.nodes| == |s.nodes| && s'.forward1s == s.forward1s && s'.voteTimers == s.voteTimers
    && s'.handled == s.handled && s'.ballots == s.ballots && s.now <= s'.now
    && (forall j :: 0 <= j < |s.nodes| ==> s'.nodes[j].proposeSet == s.nodes[j].proposeSet)
  }

  lemma CountVoteKeeps(u: Setup, s: DbbNet, i: NodeId, vote: VoteContent)
    requires i < |s.nodes|
    ensures SameProposing(s, CountVote(u, s, i, vote)) && CountVote(u, s, i, vote).now == s.now
  {
    assert OnVote(u.c, s.now, s.nodes[i], vote).state.proposeSet == s.nodes[i].proposeSet;
  }

  lemma TakeListKeeps(u: Setup, s: DbbNet, i: NodeId, m: InputList)
    requires i < |s.nodes| && u.c.Valid() && Readable(u.c, s.now, m)
    ensures SameProposing(s, TakeList(u, s, i, m)) && TakeList(u, s, i, m).now == s.now
  {
    assert OnForward2(u.c, s.now, i, s.nodes[i], m).0.state.proposeSet == s.nodes[i].proposeSet;
  }

  lemma ArrivesElsewhere(u: Setup, s: DbbNet, step: Step, s': DbbNet)
    requires Typed(u, s) && Elsewhere(u, step) && Arrives(u, s, step, s')
    ensures SameProposing(s, s') && s'.now == s.now
  {
    if step.Vote? && step.p.dst in u.active {
      CountVoteKeeps(u, s.(votes := s.votes - multiset{step.p}), step.p.dst, step.p.msg);
    } else if step.Forward2? && step.l.dst in u.active {
      TakeListKeeps(u, s.(forward2s := s.forward2s - multiset{step.l}), step.l.dst, step.l.msg);
    }
  }

  lemma FiresElsewhere(u: Setup, s: DbbNet, step: Step, s': DbbNet)
    requires Typed(u, s) && Elsewhere(u, step) && Fires(u, s, step, s')
    ensures SameProposing(s, s') && (step != Tick ==> s'.now == s.now)
  {
  }

  lemma InjectsElsewhere(u: Setup, s: DbbNet, step: Step, s': DbbNet)
    requires Typed(u, s) && Elsewhere(u, step) && Injects(u, s, step, s')
    ensures SameProposing(s, s') && s'.now == s.now
  {
    if step.InjectVote? {
      CountVoteKeeps(u, s, step.dst, step.vote);
    } else {
      TakeListKeeps(u, s, step.dst, step.list);
    }
  }

  lemma SeesNothing(y: System, s: DbbNet, step: Step, s': DbbNet)
    requires Next(y, s, step, s') && Elsewhere(y.u, step) && ForwardsOnTime(y.u, s) && y.u.c.nodeNum > 0
    ensures Sees(y.u, s, s', 0, {})
  {
    if Arrives(y.u, s, step, s') {
      ArrivesElsewhere(y.u, s, step, s');
    } else if Fires(y.u, s, step, s') {
      FiresElsewhere(y.u, s, step, s');
    } else {
      InjectsElsewhere(y.u, s, step, s');
    }
  }

  // ----- Every step keeps the invariant ----------------------------------------------------------------------------

  lemma SeesKept(u: Setup, s: DbbNet, s': DbbNet, i: NodeId, news: set<Value>)
    requires Sees(u, s, s', i, news) && VoteInv(u, s)
    ensures VoteInv(u, s')
  {
    forall t | t in s'.voteTimers
      ensures t.node in u.active && exists w :: Event(t.node, w, t.takenAt) in s'.handled
    {
      var w :| Event(t.node, w, t.takenAt) in s.handled;
      assert Event(t.node, w, t.takenAt) in s'.handled;
    }
    RelayedAfterSeeing(u, s, s', i, news);
    forall b | b in s'.ballots
      ensures Founded(u, s', b)
    {
      assert Founded(u, s, b);
    }
  }

  lemma RelayedAfterSeeing(u: Setup, s: DbbNet, s': DbbNet, i: NodeId, news: set<Value>)
    requires Sees(u, s, s', i, news) && HandledRelayed(u, s)
    ensures HandledRelayed(u, s')
  {
    forall h, j | h in s'.handled && h.node != VIEW && j in u.active && h.value !in s'.nodes[j].proposeSet
      ensures Relayed(s', h, j)
    {
      assert h.value !in s.nodes[j].proposeSet;
      assert Relayed(s, h, j);
      var f :| f in s.forward1s && f.dst == j && f.msg.content == h.value && f.sentAt == h.at;
      assert f in s'.forward1s;
    }
  }

  lemma TakesKept(u: Setup, s: DbbNet, s': DbbNet, i: NodeId, req: Request)
    requires Takes(u, s, s', i, req) && VoteInv(u, s)
    ensures VoteInv(u, s')
  {
    TimersAfterTaking(u, s, s', i, req);
    RelayedAfterTaking(u, s, s', i, req);
    FoundedAfterTaking(u, s, s', i, req);
  }

  lemma TimersAfterTaking(u: Setup, s: DbbNet, s': DbbNet, i: NodeId, req: Request)
    requires Takes(u, s, s', i, req) && TimersFounded(u, s)
    ensures TimersFounded(u, s')
  {
    forall t | t in s'.voteTimers
      ensures t.node in u.active && exists w :: Event(t.node, w, t.takenAt) in s'.handled
    {
      if t in s.voteTimers {
        var w :| Event(t.node, w, t.takenAt) in s.handled;
        assert Event(t.node, w, t.takenAt) in s'.handled;
      } else {
        assert Event(i, req.content, s.now) in s'.handled;
      }
    }
  }

  lemma RelayedAfterTaking(u: Setup, s: DbbNet, s': DbbNet, i: NodeId, req: Request)
    requires Takes(u, s, s', i, req) && HandledRelayed(u, s)
    ensures HandledRelayed(u, s')
  {
    forall h, j | h in s'.handled && h.node != VIEW && j in u.active && h.value !in s'.nodes[j].proposeSet
      ensures Relayed(s', h, j)
    {
      if h in s.handled {
        assert h.value !in s.nodes[j].proposeSet;
        assert Relayed(s, h, j);
        var f :| f in s.forward1s && f.dst == j && f.msg.content == h.value && f.sentAt == h.at;
        assert f in s'.forward1s;
      } else {
        assert Packet(j, req, s.now) in s'.forward1s;
      }
    }
  }

  lemma FoundedAfterTaking(u: Setup, s: DbbNet, s': DbbNet, i: NodeId, req: Request)
    requires Takes(u, s, s', i, req) && BallotsFounded(u, s)
    ensures BallotsFounded(u, s')
  {
    forall b | b in s'.ballots
      ensures Founded(u, s', b)
    {
      assert Founded(u, s, b);
    }
  }

  /** When the vote timer fires every earlier proposal has reached the voter. */
  lemma VotesKept(u: Setup, s: DbbNet, s': DbbNet, t: VoteTimer)
    requires Votes(u, s, s', t) && VoteInv(u, s)
    ensures VoteInv(u, s')
  {
    forall b | b in s'.ballots
      ensures Founded(u, s', b)
    {
      if b in s.ballots {
        assert Founded(u, s, b);
      } else {
        NewBallot(u, s, s', t, b);
      }
    }
    RelayedAfterVote(u, s, s', t);
  }

  lemma NewBallot(u: Setup, s: DbbNet, s': DbbNet, t: VoteTimer, b: Event)
    requires Votes(u, s, s', t) && VoteInv(u, s) && b in s'.ballots && b !in s.ballots
    ensures Founded(u, s', b)
  {
    var v :| s.nodes[t.node].proposeSet == {v} && s'.ballots == s.ballots + {Event(t.node, v, t.takenAt)};
    var w :| Event(t.node, w, t.takenAt) in s.handled;
    assert w in s.nodes[t.node].proposeSet;
    forall h | h in s.handled && h.node != VIEW && h.at <= t.takenAt
      ensures h.value == v
    {
      assert !Relayed(s, h, t.node);
      assert h.value in s.nodes[t.node].proposeSet;
    }
  }

  lemma RelayedAfterVote(u: Setup, s: DbbNet, s': DbbNet, t: VoteTimer)
    requires Votes(u, s, s', t) && HandledRelayed(u, s)
    ensures HandledRelayed(u, s')
  {
    forall h, j | h in s'.handled && h.node != VIEW && j in u.active && h.value !in s'.nodes[j].proposeSet
      ensures Relayed(s', h, j)
    {
      assert h.value !in s.nodes[j].proposeSet;
      assert Relayed(s, h, j);
    }
  }

  lemma VoteInvInit(u: Setup, s: DbbNet)
    requires Init(u, s)
    ensures VoteInv(u, s) && Typed(u, s)
  {
  }

  lemma VoteInvElsewhere(y: System, s: DbbNet, step: Step, s': DbbNet)
    requires Next(y, s, step, s') && Elsewhere(y.u, step) && VoteInv(y.u, s)
    ensures VoteInv(y.u, s')
  {
    SeesNothing(y, s, step, s');
    SeesKept(y.u, s, s', 0, {});
  }

  lemma VoteInvArrives(u: Setup, s: DbbNet, step: Step, s': DbbNet)
    requires Typed(u, s) && Arrives(u, s, step, s') && VoteInv(u, s)
    requires if step.Forward1? then step.f in s.forward1s else step.Propose? && step.q.dst in u.active
    ensures VoteInv(u, s')
  {
    if step.Propose? {
      TakesIn(u, s, step.q.dst, step.q.req, s', s.(proposals := s.proposals - multiset{step.q}));
      TakesKept(u, s, s', step.q.dst, step.q.req);
    } else {
      Hears(u, s, step.f, s');
      if step.f.dst in u.active {
        SeesKept(u, s, s', step.f.dst, {step.f.msg.content});
      } else {
        SeesKept(u, s, s', 0, {});
      }
    }
  }

  lemma VoteInvInjects(u: Setup, s: DbbNet, step: Step, s': DbbNet)
    requires Typed(u, s) && Injects(u, s, step, s') && VoteInv(u, s)
    requires step.InjectProposal? || step.InjectForward1?
    ensures VoteInv(u, s')
  {
    if step.InjectProposal? {
      TakesIn(u, s, step.dst, step.req, s', s);
      TakesKept(u, s, s', step.dst, step.req);
    } else {
      HearsInjected(u, s, step.dst, step.req, s');
      SeesKept(u, s, s', step.dst, {step.req.content});
    }
  }

  lemma VoteInvFires(u: Setup, s: DbbNet, t: VoteTimer, s': DbbNet)
    requires Typed(u, s) && Fires(u, s, FireVote(t), s') && t.takenAt + u.c.tickInterval <= s.now && VoteInv(u, s)
    ensures VoteInv(u, s')
  {
    CastsVote(u, s, t, s');
    VotesKept(u, s, s', t);
  }

  lemma VoteInvNext(y: System, s: DbbNet, step: Step, s': DbbNet)
    requires Next(y, s, step, s') && VoteInv(y.u, s)
    ensures VoteInv(y.u, s')
  {
    if Elsewhere(y.u, step) {
      VoteInvElsewhere(y, s, step, s');
    } else if step.FireVote? {
      VoteInvFires(y.u, s, step.t, s');
    } else if step.Propose? || step.Forward1? {
      VoteInvArrives(y.u, s, step, s');
    } else {
      VoteInvInjects(y.u, s, step, s');
    }
  }

  /** All votes of active nodes other than the view node are for the same value. */
  lemma VotesAgree(u: Setup, s: DbbNet, a: Event, b: Event)
    requires VoteInv(u, s) && a in s.ballots && b in s.ballots && a.node != VIEW && b.node != VIEW
    ensures a.value == b.value
  {
    assert Founded(u, s, a) && Founded(u, s, b);
  }
}
