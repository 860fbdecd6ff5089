/** Runs of PBFT with an honest leader: active nodes run the handlers, each one atomically, and the others stay
    silent. Messages arrive in any order, each at most once. */
module PbftRuns {

  import opened Common
  import opened Network
  import opened Pbft

  datatype Kind = PrePrepare | Prepare | Commit

  /** A broadcast. */
  datatype Note = Note(src: NodeId, kind: Kind, msg: PbftMessage)

  /** The copy of a broadcast for one node. */
  datatype Letter = Letter(note: Note, dst: NodeId)

  /** Node dst has counted the prepare or commit of node src. */
  datatype Tally = Tally(dst: NodeId, kind: Kind, digest: Digest, src: NodeId)

  /** Where the leader's loop is: before it takes a request, after it has announced one, or waiting for consensusDone.
      */
  datatype Phase = AtDequeue | Announced | Waiting

  /** proposed, dequeued, sent, delivered, counted, commits and leaderDone, what the leader committed, are history. */
  datatype PbftNet = PbftNet(nodes: seq<PbftState>, phase: Phase, flight: multiset<Letter>,
                             proposed: seq<PbftRequest>, dequeued: seq<PbftRequest>, sent: set<Note>,
                             delivered: set<Letter>, counted: set<Tally>, commits: multiset<(NodeId, Digest)>,
                             leaderDone: seq<PbftRequest>)

  datatype Group = Group(n: nat, active: set<NodeId>) {
    predicate Valid() {
      n > 0 && VIEW in active && forall i :: i in active ==> i < n
    }
  }

  datatype Step = Propose(req: PbftRequest) | Announce | Park | Deliver(l: Letter)

  ghost predicate Typed(g: Group, s: PbftNet) {
    g.Valid() && |s.nodes| == g.n
  }

  ghost predicate Init(g: Group, s: PbftNet) {
    && g.Valid()
    && s == PbftNet(seq(g.n, _ => INITIAL), AtDequeue, multiset{}, [], [], {}, {}, {}, multiset{}, [])
  }

  /** The leader handles its own pre-prepare as well. */
  function Recipients(n: nat, note: Note): set<NodeId> {
    if note.kind == PrePrepare then Ids(n) else Others(n, note.src)
  }

  function LettersTo(dsts: set<NodeId>, note: Note): (ls: set<Letter>)
    ensures forall l :: l in ls <==> l.note == note && l.dst in dsts
  {
    var ls := set d | d in dsts :: Letter(note, d);
    assert forall l: Letter | l.note == note :: l == Letter(note, l.dst);
    ls
  }

  function Letters(n: nat, note: Note): (ls: multiset<Letter>)
    ensures forall l :: ls[l] == if l.note == note && l.dst in Recipients(n, note) then 1 else 0
  {
    multiset(LettersTo(Recipients(n, note), note))
  }

  function Post(n: nat, s: PbftNet, src: NodeId, kind: Kind, out: Option<PbftMessage>): PbftNet {
    if out.None? then s
    else
      var note := Note(src, kind, out.value);
      s.(flight := s.flight + Letters(n, note), sent := s.sent + {note})
  }

  function TakePrePrepare(g: Group, s: PbftNet, i: NodeId, m: PbftMessage): PbftNet
    requires g.Valid() && i < |s.nodes|
  {
    var (n', out) := OnPrePrepare(s.nodes[i], m, true);
    Post(g.n, s.(nodes := s.nodes[i := n']), i, Prepare, out)
  }

  /** Whether a prepare is counted: not outdated, and the commit not broadcast yet. */
  predicate CountsPrepare(n: PbftState, m: PbftMessage) {
    m.round >= n.currentRound && !n.Info(m.req).isCommitBroadcast
  }

  function TakePrepare(g: Group, s: PbftNet, i: NodeId, src: NodeId, m: PbftMessage): PbftNet
    requires g.Valid() && i < |s.nodes|
  {
    var (n', out) := OnPrepare(g.n, i, s.nodes[i], m);
    var t := s.(nodes := s.nodes[i := n'],
                counted := if CountsPrepare(s.nodes[i], m) then s.counted + {Tally(i, Prepare, m.req.digest, src)}
                           else s.counted);
    Post(g.n, t, i, Commit, out)
  }

  /** When the leader commits it signals the loop, but the signal is lost unless the loop is waiting. */
  function TakeCommit(g: Group, s: PbftNet, i: NodeId, src: NodeId, m: PbftMessage): PbftNet
    requires g.Valid() && i < |s.nodes|
  {
    var (n', done) := OnCommit(g.n, i, s.nodes[i], m);
    s.(nodes := s.nodes[i := n'],
       phase := if done && i == VIEW && s.phase == Waiting then AtDequeue else s.phase,
       counted := if m.round >= s.nodes[i].currentRound then s.counted + {Tally(i, Commit, m.req.digest, src)}
                  else s.counted,
       commits := if done then s.commits + multiset{(i, m.req.digest)} else s.commits,
       leaderDone := if done && i == VIEW then s.leaderDone + [m.req] else s.leaderDone)
  }

  function Handle(g: Group, s: PbftNet, l: Letter): PbftNet
    requires g.Valid() && l.dst < |s.nodes|
  {
    match l.note.kind
    case PrePrepare => TakePrePrepare(g, s, l.dst, l.note.msg)
    case Prepare => TakePrepare(g, s, l.dst, l.note.src, l.note.msg)
    case Commit => TakeCommit(g, s, l.dst, l.note.src, l.note.msg)
  }

  /** The letter is used up. */
  function Opened(s: PbftNet, l: Letter): PbftNet {
    s.(flight := s.flight - multiset{l}, delivered := s.delivered + {l})
  }

  ghost predicate Next(g: Group, s: PbftNet, step: Step, s': PbftNet) {
    Typed(g, s) &&
    match step
    case Propose(req) =>
      s' == s.(nodes := s.nodes[VIEW := OnPropose(s.nodes[VIEW], req, true)], proposed := s.proposed + [req])
    case Announce =>
      && s.phase == AtDequeue && s.nodes[VIEW].queue != []
      && (var (n', out) := OnDequeue(s.nodes[VIEW]);
          var t := s.(nodes := s.nodes[VIEW := n'], phase := Announced,
                      dequeued := s.dequeued + [s.nodes[VIEW].queue[0]]);
          s' == Post(g.n, t, VIEW, PrePrepare, out))
    case Park => s.phase == Announced && s' == s.(phase := Waiting)
    case Deliver(l) =>
      l in s.flight && s' == if l.dst in g.active then Handle(g, Opened(s, l), l) else Opened(s, l)
  }

  ghost predicate IsRun(g: Group, run: seq<PbftNet>, steps: seq<Step>) {
    && |run| == |steps| + 1 && Init(g, run[0])
    && forall k {:trigger steps[k]} :: 0 <= k < |steps| ==> Next(g, run[k], steps[k], run[k + 1])
  }

  // ----- Rounds ----------------------------------------------------------------------------------------------------

  /** Every message of round r is about the request taken as number r. */
  ghost predicate SentInRound(s: PbftNet) {
    && (forall note :: note in s.sent ==> note.msg.round < |s.dequeued| && note.msg.req == s.dequeued[note.msg.round])
    && (forall l :: l in s.flight ==> l.note in s.sent)
  }

  function Digests(reqs: seq<PbftRequest>): (ds: seq<Digest>)
    ensures |ds| == |reqs| && forall j :: 0 <= j < |reqs| ==> ds[j] == reqs[j].digest
  {
    seq(|reqs|, j requires 0 <= j < |reqs| => reqs[j].digest)
  }

  /** How often the leader has committed a digest. */
  ghost predicate LeaderCounts(s: PbftNet) {
    forall d :: s.commits[(VIEW, d)] == multiset(Digests(s.leaderDone))[d]
  }

  /** The leader's round: that of the request it works on, or, once that is committed, of the next one.  It has
      committed the requests of the rounds before, in order and once each, and nothing else. */
  ghost predicate RoundKept(s: PbftNet)
    requires |s.nodes| > 0
  {
    var r := s.nodes[VIEW].currentRound;
    && (if s.phase == AtDequeue then r == |s.dequeued| else |s.dequeued| - 1 <= r <= |s.dequeued| && |s.dequeued| > 0)
    && s.leaderDone == s.dequeued[..r] && LeaderCounts(s)
    && s.proposed == s.dequeued + s.nodes[VIEW].queue
  }

  ghost predicate RoundInv(g: Group, s: PbftNet) {
    Typed(g, s) && SentInRound(s) && RoundKept(s)
  }

  /** The leader commits the request of m, which is not outdated, and signals its loop. */
  ghost predicate LeaderCommits(s: PbftNet, s': PbftNet, m: PbftMessage)
    requires |s.nodes| == |s'.nodes| > 0
  {
    && s'.nodes[VIEW].currentRound == s.nodes[VIEW].currentRound + 1 && s.nodes[VIEW].currentRound <= m.round
    && s'.phase == (if s.phase == Waiting then AtDequeue else s.phase)
    && s'.leaderDone == s.leaderDone + [m.req] && s'.commits == s.commits + multiset{(VIEW, m.req.digest)}
  }

  ghost predicate LeaderSame(s: PbftNet, s': PbftNet)
    requires |s.nodes| == |s'.nodes| > 0
  {
    && s'.nodes[VIEW].currentRound == s.nodes[VIEW].currentRound && s'.phase == s.phase
    && s'.leaderDone == s.leaderDone && (forall d :: s'.commits[(VIEW, d)] == s.commits[(VIEW, d)])
  }

  /** What handling a message does, as far as rounds are concerned. */
  ghost predicate KeepsRounds(s: PbftNet, s': PbftNet, m: PbftMessage) {
    && |s'.nodes| == |s.nodes| > 0 && s'.dequeued == s.dequeued && s'.proposed == s.proposed
    && s'.nodes[VIEW].queue == s.nodes[VIEW].queue
    && (forall note :: note in s'.sent ==> note in s.sent || note.msg == m)
    && (forall l :: l in s'.flight ==> l in s.flight || l.note in s'.sent)
    && s.sent <= s'.sent
    && (LeaderSame(s, s') || LeaderCommits(s, s', m))
  }

  lemma PrePrepareKeepsRounds(g: Group, s: PbftNet, i: NodeId, m: PbftMessage)
    requires Typed(g, s) && i < g.n
    ensures KeepsRounds(s, TakePrePrepare(g, s, i, m), m)
  {
  }

  lemma PrepareKeepsRounds(g: Group, s: PbftNet, i: NodeId, src: NodeId, m: PbftMessage)
    requires Typed(g, s) && i < g.n
    ensures KeepsRounds(s, TakePrepare(g, s, i, src, m), m)
  {
  }

  lemma CommitKeepsRounds(g: Group, s: PbftNet, i: NodeId, src: NodeId, m: PbftMessage)
    requires Typed(g, s) && i < g.n
    ensures KeepsRounds(s, TakeCommit(g, s, i, src, m), m)
  {
  }

  lemma LeaderCountsKept(s: PbftNet, s': PbftNet, m: PbftMessage)
    requires |s.nodes| == |s'.nodes| > 0 && LeaderCounts(s) && LeaderCommits(s, s', m)
    ensures LeaderCounts(s')
  {
    assert Digests(s'.leaderDone) == Digests(s.leaderDone) + [m.req.digest];
  }

  lemma RoundsKept(g: Group, s: PbftNet, s': PbftNet, m: PbftMessage)
    requires RoundInv(g, s) && KeepsRounds(s, s', m)
    requires m.round < |s.dequeued| && m.req == s.dequeued[m.round]
    ensures RoundInv(g, s')
  {
    assert forall note :: note in s'.sent ==>
        note.msg.round < |s.dequeued| && note.msg.req == s.dequeued[note.msg.round];
    if LeaderCommits(s, s', m) {
      LeaderCountsKept(s, s', m);
      assert s.dequeued[..m.round + 1] == s.dequeued[..m.round] + [m.req];
    }
  }

  lemma OpenedKeeps(g: Group, s: PbftNet, l: Letter)
    requires RoundInv(g, s) && l in s.flight
    ensures RoundInv(g, Opened(s, l))
  {
  }

  lemma HandleKeepsRounds(g: Group, s: PbftNet, l: Letter)
    requires Typed(g, s) && l.dst < g.n
    ensures KeepsRounds(s, Handle(g, s, l), l.note.msg)
  {
    match l.note.kind
    case PrePrepare => PrePrepareKeepsRounds(g, s, l.dst, l.note.msg);
    case Prepare => PrepareKeepsRounds(g, s, l.dst, l.note.src, l.note.msg);
    case Commit => CommitKeepsRounds(g, s, l.dst, l.note.src, l.note.msg);
  }

  lemma RoundInvDeliver(g: Group, s: PbftNet, l: Letter, s': PbftNet)
    requires Next(g, s, Deliver(l), s') && RoundInv(g, s)
    ensures RoundInv(g, s')
  {
    var t := Opened(s, l);
    OpenedKeeps(g, s, l);
    assert l.note in s.sent;
    if l.dst in g.active {
      HandleKeepsRounds(g, t, l);
      RoundsKept(g, t, s', l.note.msg);
    }
  }

  lemma RoundInvAnnounce(g: Group, s: PbftNet, s': PbftNet)
    requires Next(g, s, Announce, s') && RoundInv(g, s)
    ensures RoundInv(g, s')
  {
    var q := s.nodes[VIEW].queue;
    assert q == [q[0]] + q[1..];
    assert s'.dequeued + s'.nodes[VIEW].queue == s.dequeued + q;
    assert s'.dequeued[..|s.dequeued|] == s.dequeued == s.dequeued[..|s.dequeued|];
  }

  lemma RoundInvNext(g: Group, s: PbftNet, step: Step, s': PbftNet)
    requires Next(g, s, step, s') && RoundInv(g, s)
    ensures RoundInv(g, s')
  {
    match step
    case Deliver(l) => RoundInvDeliver(g, s, l, s');
    case Announce => RoundInvAnnounce(g, s, s');
    case Propose(req) =>
      assert s.dequeued + (s.nodes[VIEW].queue + [req]) == s.dequeued + s.nodes[VIEW].queue + [req];
    case Park =>
  }

  lemma {:induction false} RoundInvRun(g: Group, run: seq<PbftNet>, steps: seq<Step>, k: nat)
    requires IsRun(g, run, steps) && k <= |steps|
    ensures RoundInv(g, run[k])
  {
    if k > 0 {
      RoundInvRun(g, run, steps, k - 1);
      RoundInvNext(g, run[k - 1], steps[k - 1], run[k - 1 + 1]);
      assert run[k - 1 + 1] == run[k];
    }
  }

  /** The j-th request the leader takes is the j-th proposed, and it is announced with round j; by then the leader has
      committed exactly the j requests before it, in order and once each, also when digests repeat. */
  lemma LeaderRounds(g: Group, run: seq<PbftNet>, steps: seq<Step>, k: nat)
    requires IsRun(g, run, steps) && k < |steps| && steps[k] == Announce
    ensures (var j := |run[k].dequeued|;
      && j < |run[k].proposed| && run[k + 1].dequeued == run[k].proposed[..j + 1]
      && run[k + 1].sent == run[k].sent + {Note(VIEW, PrePrepare, PbftMessage(run[k].proposed[j], j))}
      && run[k].leaderDone == run[k].proposed[..j]
      && (forall d :: run[k].commits[(VIEW, d)] == multiset(Digests(run[k].proposed[..j]))[d]))
  {
    RoundInvRun(g, run, steps, k);
    var s := run[k];
    assert Next(g, s, Announce, run[k + 1]);
    var j := |s.dequeued|;
    assert s.proposed[j] == s.nodes[VIEW].queue[0];
    assert s.proposed[..j + 1] == s.dequeued + [s.nodes[VIEW].queue[0]];
    assert s.proposed[..j] == s.dequeued == s.dequeued[..j];
  }

  lemma RunTyped(g: Group, run: seq<PbftNet>, steps: seq<Step>, k: nat)
    requires IsRun(g, run, steps) && k <= |steps|
    ensures Typed(g, run[k])
  {
    RoundInvRun(g, run, steps, k);
  }
}
