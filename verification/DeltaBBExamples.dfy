/** 1Δ-BB* with two nodes, both honest: one run in which a node commits at point 1 after tick 2, and one in which its
    own vote fills the quorum, so that it has all votes and no certificate. */
module DeltaBBExamples {

  import opened Common
  import opened DeltaBB
  import opened Network
  import opened DeltaBBRuns
  import opened DeltaBBPoint1
  import opened DeltaBBGoodCase
  import opened DeltaBBReach

  // ----- The states ------------------------------------------------------------------------------------------------

  const V: Value := "v"

  const REQ := Request(V, Single(VIEW, V))

  /** A quorum is both nodes, and a tick two units of time. */
  const PAIR := Setup(Config(2, 0, 0, 2), {0, 1}, multiset{Proposal(0, REQ), Proposal(1, REQ)})

  lemma OneOther<M(!new)>(i: NodeId, now: nat, m: M)
    requires i < 2
    ensures Broadcast(2, i, now, Some(m)) == multiset{Packet(1 - i, m, now)}
  {
    assert Others(2, i) == {1 - i};
    assert Copies(Others(2, i), now, m) == {Packet(1 - i, m, now)};
  }

  function Ballot(i: NodeId): VoteContent {
    VoteContent(i, V, Single(i, V))
  }

  /** A node that has seen the value and counted the votes of these nodes. */
  function Seen(voters: set<Signature>): DbbState {
    if voters == {} then CLEARED.(proposeSet := {V}) else CLEARED.(proposeSet := {V}, voteMap := map[V := voters])
  }

  /** Both nodes at work: those who have voted, and the votes on their way. */
  function Net(now: nat, n0: DbbState, n1: DbbState, votes: multiset<Packet<VoteContent>>, timers: multiset<VoteTimer>,
               ballots: set<Event>): DbbNet {
    DbbNet(now, [n0, n1], multiset{}, multiset{}, votes, multiset{}, timers, multiset{}, {0, 1}, {0, 1},
           {Event(0, V, 1), Event(1, V, 1)}, ballots, map[])
  }

  lemma NetTyped(now: nat, n0: DbbState, n1: DbbState, votes: multiset<Packet<VoteContent>>,
                 timers: multiset<VoteTimer>, ballots: set<Event>)
    requires forall t :: t in timers ==> t.node < 2
    ensures Typed(PAIR, Net(now, n0, n1, votes, timers, ballots))
  {
  }

  /** The clock may go on to time 3 while the vote timers run, and to time 4 when they have fired. */
  lemma NetTicks(now: nat, n0: DbbState, n1: DbbState, votes: multiset<Packet<VoteContent>>,
                 timers: multiset<VoteTimer>, ballots: set<Event>)
    requires now < 4 && n0.trigger == 0 && n1.trigger == 0 && Typed(PAIR, Net(now, n0, n1, votes, timers, ballots))
    requires forall p :: p in votes ==> now + 1 < p.sentAt + 2
    requires forall t :: t in timers ==> now < t.takenAt + 2
    ensures MayTick(PAIR, Net(now, n0, n1, votes, timers, ballots))
  {
  }

  const T0 := VoteTimer(0, 1)

  const T1 := VoteTimer(1, 1)

  const S0 := Single(0, V)

  const S1 := Single(1, V)

  const E0 := Event(0, V, 1)

  const E1 := Event(1, V, 1)

  /** Both nodes have nothing yet but what is proposed to them. */
  function Fresh(now: nat): DbbNet {
    DbbNet(now, [CLEARED, CLEARED], PAIR.sent, multiset{}, multiset{}, multiset{}, multiset{}, multiset{},
           {0, 1}, {0, 1}, {}, {}, map[])
  }

  lemma FreshStarts()
    ensures Init(PAIR, Fresh(0))
  {
    assert seq(2, _ => CLEARED) == [CLEARED, CLEARED];
  }

  lemma FreshTyped(now: nat)
    ensures Typed(PAIR, Fresh(now))
  {
  }

  lemma FreshTicks()
    requires Typed(PAIR, Fresh(0))
    ensures MayTick(PAIR, Fresh(0))
  {
  }

  lemma FreshReached()
    ensures Reachable(PAIR, Fresh(1)) && Typed(PAIR, Fresh(1))
  {
    FreshStarts();
    FreshTyped(0);
    FreshTyped(1);
    FreshTicks();
    Starts(PAIR, Fresh(0));
    Waits(PAIR, Fresh(0));
    assert Fresh(0).(now := 0 + 1) == Fresh(1);
  }

  /** The view node has taken in its own proposal. */
  function Half(): DbbNet {
    Fresh(1).(nodes := [Seen({}), CLEARED], proposals := multiset{Proposal(1, REQ)}, voteTimers := multiset{T0},
              handled := {E0})
  }

  lemma HalfReached()
    ensures Reachable(PAIR, Half()) && Typed(PAIR, Half())
  {
    FreshReached();
    var s := Fresh(1).(proposals := PAIR.sent - multiset{Proposal(0, REQ)});
    assert s.proposals == multiset{Proposal(1, REQ)};
    assert OnPropose(0, CLEARED, REQ) == Outcome(Seen({}), None);
    assert s.nodes[0 := Seen({})] == [Seen({}), CLEARED];
    assert TakeIn(PAIR, s, 0, REQ) == Half();
    TakesProposal(PAIR, Fresh(1), Proposal(0, REQ), Half());
  }

  function Quiet(now: nat): DbbNet {
    Net(now, Seen({}), Seen({}), multiset{}, multiset{T0, T1}, {})
  }

  /** Both have, and node 1 has forwarded it. */
  lemma BothReached()
    ensures Reachable(PAIR, Quiet(1))
  {
    HalfReached();
    OneOther(1, 1, REQ);
    var f := Packet(0, REQ, 1);
    var t := Quiet(1).(forward1s := multiset{f});
    var s := Half().(proposals := multiset{Proposal(1, REQ)} - multiset{Proposal(1, REQ)});
    assert TakeIn(PAIR, s, 1, REQ) == t;
    TakesProposal(PAIR, Half(), Proposal(1, REQ), t);
    HeardAgain(t, f);
  }

  lemma HeardAgain(t: DbbNet, f: Packet<Request>)
    requires f == Packet(0, REQ, 1) && t == Quiet(1).(forward1s := multiset{f}) && Reachable(PAIR, t)
    ensures Reachable(PAIR, Quiet(1))
  {
    NetTyped(1, Seen({}), Seen({}), multiset{}, multiset{T0, T1}, {});
    assert {V} + {V} == {V};
    assert Hear(t.(forward1s := multiset{}), 0, REQ).nodes == Quiet(1).nodes;
    Hears(PAIR, t, f, Quiet(1));
  }

  lemma QuietTicks(now: nat)
    requires Reachable(PAIR, Quiet(now)) && 1 <= now < 3
    ensures Reachable(PAIR, Quiet(now + 1))
  {
    NetTyped(now, Seen({}), Seen({}), multiset{}, multiset{T0, T1}, {});
    NetTicks(now, Seen({}), Seen({}), multiset{}, multiset{T0, T1}, {});
    Waits(PAIR, Quiet(now));
  }

  /** At time 3 the view node has voted. */
  function OneVoted(): DbbNet {
    Net(3, Seen({S0}), Seen({}), multiset{Packet(1, Ballot(0), 3)}, multiset{T1}, {E0})
  }

  lemma OneVotes()
    ensures CastVote(PAIR, Quiet(3).(voteTimers := multiset{T1}), T0) == OneVoted()
  {
    OneOther(0, 3, Ballot(0));
    FirstVote();
    var s := Quiet(3).(voteTimers := multiset{T1});
    CastVoteIs(PAIR, s, T0, Seen({S0}), Ballot(0));
    assert s.nodes[0 := Seen({S0})] == OneVoted().nodes;
  }

  lemma QuietReached()
    ensures Reachable(PAIR, Quiet(3)) && Typed(PAIR, Quiet(3))
  {
    BothReached();
    QuietTicks(1);
    QuietTicks(2);
    NetTyped(3, Seen({}), Seen({}), multiset{}, multiset{T0, T1}, {});
  }

  lemma OneVotedReached()
    ensures Reachable(PAIR, OneVoted())
  {
    QuietReached();
    OneVotes();
    assert multiset{T0, T1} - multiset{T0} == multiset{T1};
    CastsVote(PAIR, Quiet(3), T0, OneVoted());
  }

  /** A node that votes has counted its own signature besides those it had. */
  lemma FirstVote()
    ensures OnVoteTimer(0, Seen({})) == Outcome(Seen({S0}), Some(Ballot(0)))
  {
    assert |{V}| == 1;
  }

  lemma SecondVote(voters: set<Signature>)
    requires S1 !in voters
    ensures OnVoteTimer(1, Seen(voters)) == Outcome(Seen(voters + {S1}), Some(Ballot(1)))
  {
    assert |{V}| == 1;
    assert voters + {S1} != {};
  }

  // ----- Node 1 commits after tick 2 -------------------------------------------------------------------------------

  predicate Committed(s: DbbNet, i: NodeId) {
    i < |s.nodes| && s.nodes[i].isCommit && s.nodes[i].commitValue == V && s.nodes[i].trigger == 1
  }

  function BothVoted(now: nat): DbbNet {
    Net(now, Seen({S0}), Seen({S1}), multiset{Packet(1, Ballot(0), 3), Packet(0, Ballot(1), 3)}, multiset{}, {E0, E1})
  }

  lemma BothVote()
    ensures Typed(PAIR, OneVoted()) && CastVote(PAIR, OneVoted().(voteTimers := multiset{}), T1) == BothVoted(3)
  {
    NetTyped(3, Seen({S0}), Seen({}), multiset{Packet(1, Ballot(0), 3)}, multiset{T1}, {E0});
    OneOther(1, 3, Ballot(1));
    SecondVote({});
    var s := OneVoted().(voteTimers := multiset{});
    CastVoteIs(PAIR, s, T1, Seen({S1}), Ballot(1));
    assert s.nodes[1 := Seen({S1})] == BothVoted(3).nodes;
  }

  lemma BothVotedTicks()
    ensures Typed(PAIR, BothVoted(3)) && MayTick(PAIR, BothVoted(3)) && Typed(PAIR, BothVoted(4))
    ensures BothVoted(3).(now := 4) == BothVoted(4)
  {
    var votes := multiset{Packet(1, Ballot(0), 3), Packet(0, Ballot(1), 3)};
    NetTyped(3, Seen({S0}), Seen({S1}), votes, multiset{}, {E0, E1});
    NetTyped(4, Seen({S0}), Seen({S1}), votes, multiset{}, {E0, E1});
    NetTicks(3, Seen({S0}), Seen({S1}), votes, multiset{}, {E0, E1});
  }

  lemma BothVotedReached()
    ensures Reachable(PAIR, BothVoted(4)) && Typed(PAIR, BothVoted(4))
  {
    OneVotedReached();
    BothVote();
    assert multiset{T1} - multiset{T1} == multiset{};
    CastsVote(PAIR, OneVoted(), T1, BothVoted(3));
    BothVotedTicks();
    Waits(PAIR, BothVoted(3));
  }

  lemma SecondCounts()
    ensures var n := OnVote(PAIR.c, 4, Seen({S1}), Ballot(0)).state; n.isCommit && n.commitValue == V && n.trigger == 1
  {
    assert {S1} + {S0} == {S0, S1};
    assert |{S0, S1}| == 2;
    LastVoteCommits(PAIR.c, 4, Seen({S1}), Ballot(0));
  }

  /** Each has voted before it counts the other's vote. */
  lemma CommitsAfterTick2()
    ensures exists s :: Reachable(PAIR, s) && PAIR.c.At(2) <= s.now && Committed(s, 1)
  {
    BothVotedReached();
    SecondCounts();
    var p := Packet(1, Ballot(0), 3);
    var s := BothVoted(4);
    var s' := CountVote(PAIR, s.(votes := s.votes - multiset{p}), 1, Ballot(0));
    CountsVote(PAIR, s, p, s');
    assert Committed(s', 1);
  }

  // ----- Node 1 fills its quorum itself ----------------------------------------------------------------------------

  function OneCounted(): DbbNet {
    Net(3, Seen({S0}), Seen({S0}), multiset{}, multiset{T1}, {E0})
  }

  lemma OneCountedReached()
    ensures Reachable(PAIR, OneCounted()) && Typed(PAIR, OneCounted())
  {
    OneVotedReached();
    NetTyped(3, Seen({S0}), Seen({}), multiset{Packet(1, Ballot(0), 3)}, multiset{T1}, {E0});
    NetTyped(3, Seen({S0}), Seen({S0}), multiset{}, multiset{T1}, {E0});
    assert |{S0}| == 1 && {} + {S0} == {S0};
    assert OnVote(PAIR.c, 3, Seen({}), Ballot(0)).state == Seen({S0});
    assert CountVote(PAIR, OneVoted().(votes := multiset{}), 1, Ballot(0)) == OneCounted();
    CountsVote(PAIR, OneVoted(), Packet(1, Ballot(0), 3), OneCounted());
  }

  lemma SecondFills(s': DbbNet)
    requires s' == CastVote(PAIR, OneCounted().(voteTimers := multiset{}), T1)
    ensures |s'.nodes| == 2 && FillsItself(PAIR, OneCounted(), FireVote(T1), s', 1, V)
  {
    SecondVote({S0});
    assert |{S0}| == 1 && {S0} + {S1} == {S0, S1} && |{S0, S1}| == 2;
  }

  /** The view node's vote comes first, and node 1's own vote is the second of two: it has both, and no certificate,
      and never makes one. */
  lemma OwnVoteFills()
    ensures CanFillItself(PAIR, 1, V)
  {
    OneCountedReached();
    var s := OneCounted();
    var s' := CastVote(PAIR, s.(voteTimers := multiset{}), T1);
    SecondFills(s');
    CastsVote(PAIR, s, T1, s');
  }

  /** Both are covered by the theorem: one honest proposal each, and a quorum of active nodes. */
  lemma PairIsGood()
    ensures PAIR.Valid() && PAIR.HonestView(V) && OneEach(PAIR) && PAIR.c.Quorum() == |PAIR.active| == 2
  {
    assert Proposal(0, REQ) in PAIR.sent && Proposal(1, REQ) in PAIR.sent;
  }
}
