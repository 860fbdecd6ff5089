/** PBFT: deliveries come to an end, so every run can be brought to rest. */
module PbftQuiescence {

  import opened Common
  import opened Network
  import opened Pbft
  import opened PbftRuns
  import opened PbftCertificates
  import opened PbftCompleteness

  // ----- A delivery uses up some of a potential --------------------------------------------------------------------

  function NotesBy(nodes: set<NodeId>, kind: Kind, m: PbftMessage): set<Note> {
    set i | i in nodes :: Note(i, kind, m)
  }

  /** The prepares and commits these nodes can send for the requests taken. */
  function Answers(nodes: set<NodeId>, taken: seq<PbftRequest>): set<Note> {
    if taken == [] then {}
    else
      var r := |taken| - 1;
      var m := PbftMessage(taken[r], r);
      Answers(nodes, taken[..r]) + NotesBy(nodes, Prepare, m) + NotesBy(nodes, Commit, m)
  }

  lemma {:induction false} AnswersHold(nodes: set<NodeId>, taken: seq<PbftRequest>, note: Note)
    requires note.src in nodes && note.kind != PrePrepare && note.msg.round < |taken|
    requires note.msg.req == taken[note.msg.round]
    ensures note in Answers(nodes, taken)
  {
    var r := |taken| - 1;
    if note.msg.round == r {
      assert note.msg == PbftMessage(taken[r], r);
    } else {
      AnswersHold(nodes, taken[..r], note);
    }
  }

  function Missing(answers: set<Note>, sent: set<Note>): nat {
    |answers - sent|
  }

  lemma OneLess(answers: set<Note>, sent: set<Note>, note: Note)
    requires note in answers && note !in sent
    ensures Missing(answers, sent + {note}) == Missing(answers, sent) - 1
  {
    assert answers - sent == (answers - (sent + {note})) + {note};
  }

  /** Every answer not sent yet can still put n letters in flight. */
  function Potential(g: Group, s: PbftNet): nat {
    |s.flight| + g.n * Missing(Answers(g.active, s.dequeued), s.sent)
  }

  lemma {:induction false} LettersToSize(dsts: set<NodeId>, note: Note)
    ensures |LettersTo(dsts, note)| == |dsts|
  {
    if dsts != {} {
      var d :| d in dsts;
      LettersToSize(dsts - {d}, note);
      assert LettersTo(dsts, note) == LettersTo(dsts - {d}, note) + {Letter(note, d)};
    }
  }

  lemma LettersSize(n: nat, note: Note)
    ensures |Letters(n, note)| <= n
  {
    LettersToSize(Recipients(n, note), note);
    SubsetSize(Recipients(n, note), Ids(n));
  }

  /** What a delivery posts: at most one note, and one never sent before. */
  ghost predicate Posts(g: Group, s: PbftNet, l: Letter, s': PbftNet, out: Option<Note>) {
    && s'.dequeued == s.dequeued && s'.proposed == s.proposed
    && (match out
        case None => s'.flight == s.flight - multiset{l} && s'.sent == s.sent
        case Some(note) =>
          && s'.flight == s.flight - multiset{l} + Letters(g.n, note) && s'.sent == s.sent + {note}
          && note !in s.sent && note.src in g.active && note.kind != PrePrepare && note.msg == l.note.msg)
  }

  lemma PrePreparePosts(g: Group, s: PbftNet, l: Letter, s': PbftNet) returns (out: Option<Note>)
    requires Opens(g, s, l, s', PrePrepare) && VoteInv(g, s)
    ensures Posts(g, s, l, s', out)
  {
    PrepareIsNew(g, s, l);
    out := if l.note.msg.round < s.nodes[l.dst].currentRound then None else Some(Note(l.dst, Prepare, l.note.msg));
  }

  lemma PreparePosts(g: Group, s: PbftNet, l: Letter, s': PbftNet) returns (out: Option<Note>)
    requires Opens(g, s, l, s', Prepare) && VoteInv(g, s)
    ensures Posts(g, s, l, s', out)
  {
    var own := Note(l.dst, Commit, l.note.msg);
    PrepareFacts(g.n, l.dst, s.nodes[l.dst], l.note.msg, l.note.msg.req.digest);
    assert own in s.sent ==> Caused(g, s, own);
    out := if OnPrepare(g.n, l.dst, s.nodes[l.dst], l.note.msg).1.Some? then Some(own) else None;
  }

  lemma DeliverPosts(g: Group, s: PbftNet, l: Letter, s': PbftNet) returns (out: Option<Note>)
    requires Next(g, s, Deliver(l), s') && VoteInv(g, s)
    ensures Posts(g, s, l, s', out)
  {
    if l.dst !in g.active {
      out := None;
    } else {
      match l.note.kind
      case PrePrepare => out := PrePreparePosts(g, s, l, s');
      case Prepare => out := PreparePosts(g, s, l, s');
      case Commit => out := None;
    }
  }

  lemma FlightSize<T>(flight: multiset<T>, l: T, more: multiset<T>)
    requires l in flight
    ensures |flight - multiset{l} + more| == |flight| - 1 + |more|
  {
  }

  lemma Weigh(n: nat, k: nat, before: nat, after: nat)
    requires n > 0 && k > 0 && after <= before - 1 + n
    ensures after + n * (k - 1) < before + n * k
  {
    assert n * k == n * (k - 1) + n;
  }

  lemma PostShrinks(g: Group, s: PbftNet, l: Letter, s': PbftNet, note: Note)
    requires RoundInv(g, s) && l in s.flight && Posts(g, s, l, s', Some(note))
    ensures Potential(g, s') < Potential(g, s)
  {
    var answers := Answers(g.active, s.dequeued);
    assert l.note in s.sent;
    AnswersHold(g.active, s.dequeued, note);
    OneLess(answers, s.sent, note);
    LettersSize(g.n, note);
    FlightSize(s.flight, l, Letters(g.n, note));
    Weigh(g.n, Missing(answers, s.sent), |s.flight|, |s'.flight|);
  }

  lemma DeliverShrinks(g: Group, s: PbftNet, l: Letter, s': PbftNet)
    requires Next(g, s, Deliver(l), s') && RoundInv(g, s) && VoteInv(g, s)
    ensures Potential(g, s') < Potential(g, s) && s'.dequeued == s.dequeued && s'.proposed == s.proposed
  {
    var out := DeliverPosts(g, s, l, s');
    match out
    case None => assert |s'.flight| == |s.flight| - 1;
    case Some(note) => PostShrinks(g, s, l, s', note);
  }

  // ----- Bringing a run to rest ------------------------------------------------------------------------------------

  /** No held letter has been delivered: the leader has counted no prepare. */
  ghost predicate NoneHeldDelivered(s: PbftNet) {
    forall l :: l in s.delivered ==> !Held(l)
  }

  /** The leader has committed all it took, and has not broadcast a commit of d. */
  ghost predicate LeaderPast(s: PbftNet, d: Digest)
    requires |s.nodes| > 0
  {
    s.nodes[VIEW].currentRound == |s.dequeued| && !FactsOf(s.nodes[VIEW], d).flag
  }

  /** What deliveries keep, held letters being left in flight if hold says so. */
  ghost predicate Follows(g: Group, hold: bool, s: PbftNet, s': PbftNet)
    requires Typed(g, s) && Typed(g, s')
  {
    && s'.dequeued == s.dequeued && s'.proposed == s.proposed && s.sent <= s'.sent
    && (s.phase == Phase.Announced ==> s'.phase == Phase.Announced)
    && (hold && NoneHeldDelivered(s) ==> NoneHeldDelivered(s'))
    && (forall d :: LeaderPast(s, d) ==> LeaderPast(s', d))
  }

  lemma OutdatedDropped(g: Group, s: PbftNet, l: Letter)
    requires Typed(g, s) && l.dst < g.n && l.note.msg.round < s.nodes[l.dst].currentRound
    ensures |Handle(g, s, l).nodes| == g.n && Handle(g, s, l).nodes[l.dst] == s.nodes[l.dst]
  {
  }

  lemma ElsewhereSame(g: Group, s: PbftNet, l: Letter)
    requires Typed(g, s) && l.dst < g.n && l.dst != VIEW
    ensures |Handle(g, s, l).nodes| == g.n && Handle(g, s, l).nodes[VIEW] == s.nodes[VIEW]
  {
  }

  /** A leader past all its rounds drops whatever arrives. */
  lemma PastDrops(g: Group, s: PbftNet, l: Letter, s': PbftNet)
    requires Next(g, s, Deliver(l), s') && RoundInv(g, s) && s.nodes[VIEW].currentRound == |s.dequeued|
    ensures |s'.nodes| == g.n && s'.nodes[VIEW] == s.nodes[VIEW]
  {
    assert l.note in s.sent;
    if l.dst == VIEW {
      OutdatedDropped(g, Opened(s, l), l);
    } else if l.dst in g.active {
      ElsewhereSame(g, Opened(s, l), l);
    }
  }

  lemma DeliverFollows(g: Group, hold: bool, s: PbftNet, l: Letter, s': PbftNet)
    requires Next(g, s, Deliver(l), s') && RoundInv(g, s) && VoteInv(g, s) && Typed(g, s') && (hold ==> !Held(l))
    ensures Follows(g, hold, s, s')
  {
    var out := DeliverPosts(g, s, l, s');
    DeliversOne(g, s, l, s');
    if s.nodes[VIEW].currentRound == |s.dequeued| {
      PastDrops(g, s, l, s');
    }
  }

  lemma DeliversOne(g: Group, s: PbftNet, l: Letter, s': PbftNet)
    requires Next(g, s, Deliver(l), s')
    ensures s'.delivered == s.delivered + {l}
    ensures s.phase == Phase.Announced ==> s'.phase == Phase.Announced
  {
  }

  lemma Extend(g: Group, run: seq<PbftNet>, steps: seq<Step>, step: Step, s': PbftNet)
    returns (run': seq<PbftNet>, steps': seq<Step>)
    requires IsRun(g, run, steps) && Next(g, run[|steps|], step, s')
    ensures run' == run + [s'] && steps' == steps + [step] && IsRun(g, run', steps')
  {
    run', steps' := run + [s'], steps + [step];
  }

  /** What delivering l leads to. */
  function Delivered(g: Group, s: PbftNet, l: Letter): PbftNet
    requires g.Valid() && |s.nodes| == g.n
  {
    if l.dst in g.active then Handle(g, Opened(s, l), l) else Opened(s, l)
  }

  lemma DeliverOne(g: Group, run: seq<PbftNet>, steps: seq<Step>, hold: bool, l: Letter)
    returns (run': seq<PbftNet>, steps': seq<Step>)
    requires IsRun(g, run, steps) && Distinct(run[|steps|]) && Typed(g, run[|steps|])
    requires l in run[|steps|].flight && (hold ==> !Held(l))
    ensures IsRun(g, run', steps') && Typed(g, run'[|steps'|]) && Distinct(run'[|steps'|])
    ensures Follows(g, hold, run[|steps|], run'[|steps'|])
    ensures Potential(g, run'[|steps'|]) < Potential(g, run[|steps|])
  {
    var s := run[|steps|];
    var t := Delivered(g, s, l);
    RoundInvRun(g, run, steps, |steps|);
    VoteInvRun(g, run, steps, |steps|);
    DeliverShrinks(g, s, l, t);
    run', steps' := Extend(g, run, steps, Deliver(l), t);
    RunTyped(g, run', steps', |steps'|);
    DeliverFollows(g, hold, s, l, t);
  }

  /** Every run in which no digest is proposed twice can be continued by deliveries alone until nothing is in flight,
      or nothing but held letters. */
  lemma {:induction false} Drain(g: Group, run: seq<PbftNet>, steps: seq<Step>, hold: bool)
    returns (run': seq<PbftNet>, steps': seq<Step>)
    requires IsRun(g, run, steps) && Distinct(run[|steps|]) && Typed(g, run[|steps|])
    ensures IsRun(g, run', steps') && Typed(g, run'[|steps'|])
    ensures Follows(g, hold, run[|steps|], run'[|steps'|])
    ensures forall l :: l in run'[|steps'|].flight ==> hold && Held(l)
    decreases Potential(g, run[|steps|])
  {
    if l :| l in run[|steps|].flight && !(hold && Held(l)) {
      var r, q := DeliverOne(g, run, steps, hold, l);
      run', steps' := Drain(g, r, q, hold);
    } else {
      run', steps' := run, steps;
    }
  }

  /** In particular every such run can be brought to rest. */
  lemma RunsComeToRest(g: Group, run: seq<PbftNet>, steps: seq<Step>) returns (run': seq<PbftNet>, steps': seq<Step>)
    requires IsRun(g, run, steps) && Distinct(run[|steps|])
    ensures IsRun(g, run', steps') && run'[|steps'|].flight == multiset{}
    ensures run'[|steps'|].dequeued == run[|steps|].dequeued && run'[|steps'|].proposed == run[|steps|].proposed
  {
    RunTyped(g, run, steps, |steps|);
    run', steps' := Drain(g, run, steps, false);
  }

  // ----- A run with one announcement -------------------------------------------------------------------------------

  const REQ := PbftRequest("d", "x")

  const MSG := PbftMessage(REQ, 0)

  lemma OneAnnounced(g: Group) returns (run: seq<PbftNet>, steps: seq<Step>)
    requires g.Valid()
    ensures IsRun(g, run, steps) && Typed(g, run[|steps|])
    ensures run[|steps|].dequeued == [REQ] == run[|steps|].proposed && run[|steps|].phase == Phase.Announced
    ensures NoneHeldDelivered(run[|steps|]) && Note(VIEW, PrePrepare, MSG) in run[|steps|].sent
  {
    var s0 := PbftNet(seq(g.n, _ => INITIAL), AtDequeue, multiset{}, [], [], {}, {}, {}, multiset{}, []);
    run, steps := [s0], [];
    assert Init(g, s0);
    var s1 := s0.(nodes := s0.nodes[VIEW := OnPropose(INITIAL, REQ, true)], proposed := [REQ]);
    run, steps := Extend(g, run, steps, Propose(REQ), s1);
    var (n', out) := OnDequeue(s1.nodes[VIEW]);
    assert s1.nodes[VIEW].queue == [REQ];
    var s2 := Post(g.n, s1.(nodes := s1.nodes[VIEW := n'], phase := Phase.Announced, dequeued := [REQ]),
                   VIEW, PrePrepare, out);
    run, steps := Extend(g, run, steps, Announce, s2);
  }

  lemma OneIsDistinct(s: PbftNet)
    requires s.proposed == [REQ]
    ensures Distinct(s)
  {
  }
}
