/** PBFT: what a commit certifies, when no request is proposed twice. */
module PbftCertificates {

  import opened Common
  import opened Network
  import opened Pbft
  import opened PbftRuns

  // ----- What a node knows of a request ----------------------------------------------------------------------------

  datatype Facts = Facts(prepares: nat, commits: nat, flag: bool, reply: bool)

  function FactsOf(n: PbftState, d: Digest): Facts {
    if d in n.pool then
      var info := n.pool[d];
      Facts(info.cntPrepareConfirm, info.cntCommitConfirm, info.isCommitBroadcast, info.isReply)
    else Facts(0, 0, false, false)
  }

  lemma PrePrepareFacts(s: PbftState, m: PbftMessage, d: Digest)
    ensures FactsOf(OnPrePrepare(s, m, true).0, d) == FactsOf(s, d)
  {
  }

  lemma ProposeFacts(s: PbftState, req: PbftRequest, d: Digest)
    ensures FactsOf(OnPropose(s, req, true), d) == if d == req.digest then Facts(0, 0, false, false) else FactsOf(s, d)
  {
  }

  lemma PrepareFacts(n: nat, nid: NodeId, s: PbftState, m: PbftMessage, d: Digest)
    requires n > 0
    ensures var f := FactsOf(s, d);
      FactsOf(OnPrepare(n, nid, s, m).0, d) ==
        if d == m.req.digest && CountsPrepare(s, m)
        then f.(prepares := f.prepares + 1, flag := f.prepares + 1 >= NeedPrepares(n, nid)) else f
    ensures OnPrepare(n, nid, s, m).1 ==
      if CountsPrepare(s, m) && FactsOf(s, m.req.digest).prepares + 1 >= NeedPrepares(n, nid) then Some(m) else None
    ensures CountsPrepare(s, m) <==> m.round >= s.currentRound && !FactsOf(s, m.req.digest).flag
  {
  }

  lemma CommitFacts(n: nat, nid: NodeId, s: PbftState, m: PbftMessage, d: Digest)
    requires n > 0
    ensures var f, done := FactsOf(s, d), OnCommit(n, nid, s, m).1;
      FactsOf(OnCommit(n, nid, s, m).0, d) ==
        if d == m.req.digest && m.round >= s.currentRound
        then f.(commits := f.commits + 1, reply := f.reply || done) else f
    ensures var f := FactsOf(s, m.req.digest);
      OnCommit(n, nid, s, m).1 <==> m.round >= s.currentRound && f.commits + 1 >= 2 * Malicious(n) && !f.reply
  {
  }

  // ----- Messages are delivered at most once, and none is lost -----------------------------------------------------

  /** No digest is proposed twice. */
  ghost predicate Distinct(s: PbftNet) {
    forall a, b :: 0 <= a < b < |s.proposed| ==> s.proposed[a].digest != s.proposed[b].digest
  }

  ghost predicate FlightInv(g: Group, s: PbftNet) {
    && (forall l :: l in s.flight || l in s.delivered ==> l.note in s.sent && l.dst in Recipients(g.n, l.note))
    && (forall l :: l in s.flight ==> s.flight[l] == 1 && l !in s.delivered)
    && (forall note, d :: note in s.sent && d in Recipients(g.n, note) ==>
        Letter(note, d) in s.flight || Letter(note, d) in s.delivered)
  }

  /** Who sends what, and why. */
  ghost predicate Caused(g: Group, s: PbftNet, note: Note)
    requires Typed(g, s)
  {
    match note.kind
    case PrePrepare => note.src == VIEW
    case Prepare => note.src in g.active && Letter(Note(VIEW, PrePrepare, note.msg), note.src) in s.delivered
    case Commit => note.src in g.active && FactsOf(s.nodes[note.src], note.msg.req.digest).flag
  }

  ghost predicate Causes(g: Group, s: PbftNet)
    requires Typed(g, s)
  {
    forall note :: note in s.sent ==> Caused(g, s, note)
  }

  /** A tally stands for a delivered letter. */
  ghost predicate Grounded(g: Group, s: PbftNet, t: Tally) {
    && t.dst in g.active
    && exists m: PbftMessage :: m.req.digest == t.digest && Letter(Note(t.src, t.kind, m), t.dst) in s.delivered
  }

  ghost predicate Tallied(g: Group, s: PbftNet) {
    forall t :: t in s.counted ==> Grounded(g, s, t)
  }

  function Voters(s: PbftNet, i: NodeId, kind: Kind, d: Digest): set<NodeId> {
    set t | t in s.counted && t.dst == i && t.kind == kind && t.digest == d :: t.src
  }

  /** The counters count different nodes. */
  ghost predicate Counts(g: Group, s: PbftNet)
    requires Typed(g, s)
  {
    forall i, d :: i in g.active ==>
      && FactsOf(s.nodes[i], d).prepares == |Voters(s, i, Prepare, d)|
      && FactsOf(s.nodes[i], d).commits == |Voters(s, i, Commit, d)|
  }

  /** The flags say that the counters have reached their thresholds. */
  predicate Consistent(n: nat, i: NodeId, f: Facts)
    requires n > 0
  {
    && (f.flag <==> f.prepares >= 1 && f.prepares >= NeedPrepares(n, i))
    && (f.reply <==> f.commits >= 1 && f.commits >= 2 * Malicious(n))
  }

  ghost predicate FlagsInv(g: Group, s: PbftNet)
    requires Typed(g, s)
  {
    forall i, d :: i in g.active ==>
      && Consistent(g.n, i, FactsOf(s.nodes[i], d))
      && (FactsOf(s.nodes[i], d).flag ==> SentCommit(s, i, d))
      && s.commits[(i, d)] == if FactsOf(s.nodes[i], d).reply then 1 else 0
  }

  ghost predicate SentCommit(s: PbftNet, i: NodeId, d: Digest) {
    exists m: PbftMessage :: m.req.digest == d && Note(i, Commit, m) in s.sent
  }

  ghost predicate OnlyActiveCommit(g: Group, s: PbftNet) {
    forall c :: c in s.commits ==> c.0 in g.active
  }

  ghost predicate VoteInv(g: Group, s: PbftNet) {
    && Typed(g, s) && FlightInv(g, s) && Causes(g, s) && Tallied(g, s) && Counts(g, s) && FlagsInv(g, s)
    && OnlyActiveCommit(g, s)
  }

  // ----- Letters ---------------------------------------------------------------------------------------------------

  lemma OpenedFlight(g: Group, s: PbftNet, l: Letter)
    requires FlightInv(g, s) && l in s.flight
    ensures FlightInv(g, Opened(s, l))
  {
  }

  lemma PostFlight(g: Group, s: PbftNet, src: NodeId, kind: Kind, out: Option<PbftMessage>)
    requires FlightInv(g, s) && (out.Some? ==> Note(src, kind, out.value) !in s.sent)
    ensures FlightInv(g, Post(g.n, s, src, kind, out))
  {
    if out.Some? {
      var note := Note(src, kind, out.value);
      var s' := Post(g.n, s, src, kind, out);
      assert forall l :: s'.flight[l] == s.flight[l] + Letters(g.n, note)[l];
      assert forall l :: l in Letters(g.n, note) ==> l.note == note && l.dst in Recipients(g.n, note);
    }
  }

  /** The same digest means the same round, so the same message. */
  lemma SameDigestSameMessage(g: Group, s: PbftNet, a: Note, b: Note)
    requires RoundInv(g, s) && Distinct(s) && a in s.sent && b in s.sent && a.msg.req.digest == b.msg.req.digest
    ensures a.msg == b.msg
  {
    assert s.proposed[a.msg.round] == s.dequeued[a.msg.round];
    assert s.proposed[b.msg.round] == s.dequeued[b.msg.round];
    assert s.proposed[a.msg.round].digest == s.proposed[b.msg.round].digest;
  }

  /** A letter just delivered has not been counted. */
  lemma NotCountedYet(g: Group, s: PbftNet, l: Letter)
    requires RoundInv(g, s) && Distinct(s) && FlightInv(g, s) && Tallied(g, s) && l in s.flight
    ensures Tally(l.dst, l.note.kind, l.note.msg.req.digest, l.note.src) !in s.counted
  {
    var t := Tally(l.dst, l.note.kind, l.note.msg.req.digest, l.note.src);
    if t in s.counted {
      assert Grounded(g, s, t);
      var m: PbftMessage :| m.req.digest == t.digest && Letter(Note(t.src, t.kind, m), t.dst) in s.delivered;
      SameDigestSameMessage(g, s, l.note, Note(t.src, t.kind, m));
    }
  }

  // ----- Counting --------------------------------------------------------------------------------------------------

  lemma VotersSame(s: PbftNet, s': PbftNet, i: NodeId, kind: Kind, d: Digest)
    requires s'.counted == s.counted
    ensures Voters(s', i, kind, d) == Voters(s, i, kind, d)
  {
  }

  lemma VotersGrow(s: PbftNet, s': PbftNet, t: Tally, i: NodeId, kind: Kind, d: Digest)
    requires t !in s.counted && s'.counted == s.counted + {t}
    ensures Voters(s', i, kind, d) ==
      Voters(s, i, kind, d) + if t.dst == i && t.kind == kind && t.digest == d then {t.src} else {}
    ensures t.dst == i && t.kind == kind && t.digest == d ==> t.src !in Voters(s, i, kind, d)
  {
  }

  // ----- What carries over to a later state ------------------------------------------------------------------------

  ghost predicate Progress(g: Group, s: PbftNet, s': PbftNet) {
    && Typed(g, s) && Typed(g, s') && s.delivered <= s'.delivered && s.sent <= s'.sent
    && (forall i, d :: i in g.active && FactsOf(s.nodes[i], d).flag ==> FactsOf(s'.nodes[i], d).flag)
  }

  lemma CausesKept(g: Group, s: PbftNet, s': PbftNet)
    requires Progress(g, s, s') && Causes(g, s)
    requires forall note :: note in s'.sent && note !in s.sent ==> Caused(g, s', note)
    ensures Causes(g, s')
  {
    forall note | note in s'.sent
      ensures Caused(g, s', note)
    {
      if note in s.sent {
        assert Caused(g, s, note);
      }
    }
  }

  lemma TalliedKept(g: Group, s: PbftNet, s': PbftNet)
    requires s.delivered <= s'.delivered && Tallied(g, s)
    requires forall t :: t in s'.counted && t !in s.counted ==> Grounded(g, s', t)
    ensures Tallied(g, s')
  {
    forall t | t in s'.counted
      ensures Grounded(g, s', t)
    {
      if t in s.counted {
        assert Grounded(g, s, t);
        var m: PbftMessage :| m.req.digest == t.digest && Letter(Note(t.src, t.kind, m), t.dst) in s.delivered;
        assert Letter(Note(t.src, t.kind, m), t.dst) in s'.delivered;
      }
    }
  }

  lemma SentCommitKept(s: PbftNet, s': PbftNet, i: NodeId, d: Digest)
    requires s.sent <= s'.sent && SentCommit(s, i, d)
    ensures SentCommit(s', i, d)
  {
    var m: PbftMessage :| m.req.digest == d && Note(i, Commit, m) in s.sent;
    assert Note(i, Commit, m) in s'.sent;
  }

  // ----- A pre-prepare is handled ----------------------------------------------------------------------------------

  /** Nothing is counted, flagged or committed. */
  ghost predicate SameFacts(g: Group, s: PbftNet, s': PbftNet) {
    && Typed(g, s) && Typed(g, s') && s'.counted == s.counted && s'.commits == s.commits
    && (forall i, d :: i in g.active ==> FactsOf(s'.nodes[i], d) == FactsOf(s.nodes[i], d))
  }

  lemma SameFactsKept(g: Group, s: PbftNet, s': PbftNet)
    requires SameFacts(g, s, s') && s.sent <= s'.sent && Counts(g, s) && FlagsInv(g, s) && OnlyActiveCommit(g, s)
    ensures Counts(g, s') && FlagsInv(g, s') && OnlyActiveCommit(g, s')
  {
    forall i, d | i in g.active
      ensures FactsOf(s'.nodes[i], d).prepares == |Voters(s', i, Prepare, d)|
      ensures FactsOf(s'.nodes[i], d).commits == |Voters(s', i, Commit, d)|
      ensures FactsOf(s'.nodes[i], d).flag ==> SentCommit(s', i, d)
    {
      VotersSame(s, s', i, Prepare, d);
      VotersSame(s, s', i, Commit, d);
      if FactsOf(s.nodes[i], d).flag {
        SentCommitKept(s, s', i, d);
      }
    }
  }

  ghost predicate Opens(g: Group, s: PbftNet, l: Letter, s': PbftNet, kind: Kind) {
    Next(g, s, Deliver(l), s') && l.dst in g.active && l.note.kind == kind
  }

  lemma PrePrepareEffect(g: Group, s: PbftNet, l: Letter, s': PbftNet)
    requires Opens(g, s, l, s', PrePrepare)
    ensures SameFacts(g, s, s') && s'.delivered == s.delivered + {l}
    ensures s'.sent == s.sent || s'.sent == s.sent + {Note(l.dst, Prepare, l.note.msg)}
  {
    forall i, d | i in g.active
      ensures FactsOf(s'.nodes[i], d) == FactsOf(s.nodes[i], d)
    {
      PrePrepareFacts(s.nodes[l.dst], l.note.msg, d);
    }
  }

  /** A node sends its prepare when it opens the leader's letter, so only once. */
  lemma PrepareIsNew(g: Group, s: PbftNet, l: Letter)
    requires Typed(g, s) && FlightInv(g, s) && Causes(g, s) && l in s.flight && l.note.kind == PrePrepare
    ensures Note(l.dst, Prepare, l.note.msg) !in s.sent && l.note.src == VIEW
  {
    assert Caused(g, s, l.note);
    var own := Note(l.dst, Prepare, l.note.msg);
    assert own in s.sent ==> Caused(g, s, own);
    assert l == Letter(Note(l.note.src, PrePrepare, l.note.msg), l.dst);
  }

  lemma PrePrepareFlight(g: Group, s: PbftNet, l: Letter, s': PbftNet)
    requires Opens(g, s, l, s', PrePrepare) && FlightInv(g, s) && Causes(g, s)
    ensures FlightInv(g, s')
  {
    PrepareIsNew(g, s, l);
    OpenedFlight(g, s, l);
    var t := Opened(s, l);
    var (n', out) := OnPrePrepare(t.nodes[l.dst], l.note.msg, true);
    PostFlight(g, t.(nodes := t.nodes[l.dst := n']), l.dst, Prepare, out);
  }

  lemma PrePrepareCauses(g: Group, s: PbftNet, l: Letter, s': PbftNet)
    requires SameFacts(g, s, s') && s'.delivered == s.delivered + {l} && Causes(g, s) && Tallied(g, s)
    requires s'.sent == s.sent || s'.sent == s.sent + {Note(l.dst, Prepare, l.note.msg)}
    requires l.note.kind == PrePrepare && l.note.src == VIEW && l.dst in g.active
    ensures Causes(g, s') && Tallied(g, s')
  {
    assert l == Letter(Note(VIEW, PrePrepare, l.note.msg), l.dst);
    CausesKept(g, s, s');
    TalliedKept(g, s, s');
  }

  lemma PrePrepareKept(g: Group, s: PbftNet, l: Letter, s': PbftNet)
    requires Opens(g, s, l, s', PrePrepare) && VoteInv(g, s)
    ensures VoteInv(g, s')
  {
    PrePrepareFlight(g, s, l, s');
    PrePrepareEffect(g, s, l, s');
    PrepareIsNew(g, s, l);
    PrePrepareCauses(g, s, l, s');
    SameFactsKept(g, s, s');
  }

  // ----- A prepare or a commit is counted --------------------------------------------------------------------------

  /** One tally is added, and nothing known changes but what its node knows of its digest. */
  ghost predicate CountsOne(g: Group, s: PbftNet, s': PbftNet, t: Tally, f: Facts) {
    && Typed(g, s) && Typed(g, s') && t !in s.counted && s'.counted == s.counted + {t} && t.dst in g.active
    && FactsOf(s'.nodes[t.dst], t.digest) == f
    && (forall i, d :: i in g.active && (i != t.dst || d != t.digest) ==>
        FactsOf(s'.nodes[i], d) == FactsOf(s.nodes[i], d))
  }

  lemma CountsKept(g: Group, s: PbftNet, s': PbftNet, t: Tally, f: Facts)
    requires CountsOne(g, s, s', t, f) && Counts(g, s)
    requires var was := FactsOf(s.nodes[t.dst], t.digest);
      && f.prepares == was.prepares + (if t.kind == Prepare then 1 else 0)
      && f.commits == was.commits + (if t.kind == Commit then 1 else 0)
    ensures Counts(g, s')
  {
    forall i, d | i in g.active
      ensures FactsOf(s'.nodes[i], d).prepares == |Voters(s', i, Prepare, d)|
      ensures FactsOf(s'.nodes[i], d).commits == |Voters(s', i, Commit, d)|
    {
      VotersGrow(s, s', t, i, Prepare, d);
      VotersGrow(s, s', t, i, Commit, d);
    }
  }

  lemma FlagsKept(g: Group, s: PbftNet, s': PbftNet, t: Tally, f: Facts)
    requires CountsOne(g, s, s', t, f) && FlagsInv(g, s) && s.sent <= s'.sent && Consistent(g.n, t.dst, f)
    requires f.flag ==> SentCommit(s', t.dst, t.digest)
    requires s'.commits[(t.dst, t.digest)] == if f.reply then 1 else 0
    requires forall c :: c != (t.dst, t.digest) ==> s'.commits[c] == s.commits[c]
    ensures FlagsInv(g, s')
  {
    forall i, d | i in g.active
      ensures Consistent(g.n, i, FactsOf(s'.nodes[i], d))
      ensures FactsOf(s'.nodes[i], d).flag ==> SentCommit(s', i, d)
      ensures s'.commits[(i, d)] == if FactsOf(s'.nodes[i], d).reply then 1 else 0
    {
      if i != t.dst || d != t.digest {
        assert FactsOf(s'.nodes[i], d) == FactsOf(s.nodes[i], d);
        if FactsOf(s.nodes[i], d).flag {
          SentCommitKept(s, s', i, d);
        }
      }
    }
  }

  function TallyOf(l: Letter): Tally {
    Tally(l.dst, l.note.kind, l.note.msg.req.digest, l.note.src)
  }

  // ----- A prepare is handled --------------------------------------------------------------------------------------

  function AfterPrepare(g: Group, i: NodeId, f: Facts): Facts
    requires g.n > 0
  {
    f.(prepares := f.prepares + 1, flag := f.prepares + 1 >= NeedPrepares(g.n, i))
  }

  lemma PrepareFlight(g: Group, s: PbftNet, l: Letter, s': PbftNet)
    requires Opens(g, s, l, s', Prepare) && FlightInv(g, s) && Causes(g, s)
    ensures FlightInv(g, s')
  {
    OpenedFlight(g, s, l);
    var t := Opened(s, l);
    var m := l.note.msg;
    PrepareFacts(g.n, l.dst, t.nodes[l.dst], m, m.req.digest);
    var own := Note(l.dst, Commit, m);
    assert own in s.sent ==> Caused(g, s, own);
    var (n', out) := OnPrepare(g.n, l.dst, t.nodes[l.dst], m);
    var r := t.(nodes := t.nodes[l.dst := n'],
                counted := if CountsPrepare(t.nodes[l.dst], m)
                           then t.counted + {Tally(l.dst, Prepare, m.req.digest, l.note.src)}
                           else t.counted);
    PostFlight(g, r, l.dst, Commit, out);
  }

  lemma PrepareIgnored(g: Group, s: PbftNet, l: Letter, s': PbftNet)
    requires Opens(g, s, l, s', Prepare) && !CountsPrepare(s.nodes[l.dst], l.note.msg)
    ensures SameFacts(g, s, s') && s'.delivered == s.delivered + {l} && s'.sent == s.sent
  {
    forall i, d | i in g.active
      ensures FactsOf(s'.nodes[i], d) == FactsOf(s.nodes[i], d)
    {
      PrepareFacts(g.n, l.dst, s.nodes[l.dst], l.note.msg, d);
    }
  }

  lemma PrepareCounted(g: Group, s: PbftNet, l: Letter, s': PbftNet)
    requires Opens(g, s, l, s', Prepare) && CountsPrepare(s.nodes[l.dst], l.note.msg) && TallyOf(l) !in s.counted
    ensures CountsOne(g, s, s', TallyOf(l), AfterPrepare(g, l.dst, FactsOf(s.nodes[l.dst], l.note.msg.req.digest)))
    ensures s'.delivered == s.delivered + {l} && s'.commits == s.commits
    ensures !FactsOf(s.nodes[l.dst], l.note.msg.req.digest).flag
    ensures s'.sent == s.sent +
      if AfterPrepare(g, l.dst, FactsOf(s.nodes[l.dst], l.note.msg.req.digest)).flag
      then {Note(l.dst, Commit, l.note.msg)} else {}
  {
    forall i, d | i in g.active
      ensures FactsOf(s'.nodes[i], d) ==
        if i == l.dst && d == l.note.msg.req.digest then AfterPrepare(g, l.dst, FactsOf(s.nodes[i], d))
        else FactsOf(s.nodes[i], d)
    {
      PrepareFacts(g.n, l.dst, s.nodes[l.dst], l.note.msg, d);
    }
    PrepareFacts(g.n, l.dst, s.nodes[l.dst], l.note.msg, l.note.msg.req.digest);
  }

  lemma IgnoredKept(g: Group, s: PbftNet, l: Letter, s': PbftNet)
    requires SameFacts(g, s, s') && s'.delivered == s.delivered + {l} && s'.sent == s.sent
    requires Causes(g, s) && Tallied(g, s) && Counts(g, s) && FlagsInv(g, s) && OnlyActiveCommit(g, s)
    ensures Causes(g, s') && Tallied(g, s') && Counts(g, s') && FlagsInv(g, s') && OnlyActiveCommit(g, s')
  {
    CausesKept(g, s, s');
    TalliedKept(g, s, s');
    SameFactsKept(g, s, s');
  }

  lemma LetterGrounds(g: Group, s: PbftNet, l: Letter)
    requires l in s.delivered && l.dst in g.active
    ensures Grounded(g, s, TallyOf(l))
  {
    assert l == Letter(Note(l.note.src, l.note.kind, l.note.msg), l.dst);
  }

  lemma PrepareCountedKept(g: Group, s: PbftNet, l: Letter, s': PbftNet, f: Facts)
    requires CountsOne(g, s, s', TallyOf(l), f) && s'.delivered == s.delivered + {l} && s'.commits == s.commits
    requires f == AfterPrepare(g, l.dst, FactsOf(s.nodes[l.dst], l.note.msg.req.digest)) && l.note.kind == Prepare
    requires !FactsOf(s.nodes[l.dst], l.note.msg.req.digest).flag
    requires s'.sent == s.sent + if f.flag then {Note(l.dst, Commit, l.note.msg)} else {}
    requires Causes(g, s) && Tallied(g, s) && Counts(g, s) && FlagsInv(g, s) && OnlyActiveCommit(g, s)
    ensures Causes(g, s') && Tallied(g, s') && Counts(g, s') && FlagsInv(g, s') && OnlyActiveCommit(g, s')
  {
    assert Consistent(g.n, l.dst, FactsOf(s.nodes[l.dst], l.note.msg.req.digest));
    CausesKept(g, s, s');
    LetterGrounds(g, s', l);
    TalliedKept(g, s, s');
    CountsKept(g, s, s', TallyOf(l), f);
    assert f.flag ==> Note(l.dst, Commit, l.note.msg) in s'.sent;
    FlagsKept(g, s, s', TallyOf(l), f);
  }

  lemma PrepareKept(g: Group, s: PbftNet, l: Letter, s': PbftNet)
    requires Opens(g, s, l, s', Prepare) && VoteInv(g, s) && TallyOf(l) !in s.counted
    ensures VoteInv(g, s')
  {
    PrepareFlight(g, s, l, s');
    if CountsPrepare(s.nodes[l.dst], l.note.msg) {
      PrepareCounted(g, s, l, s');
      PrepareCountedKept(g, s, l, s', AfterPrepare(g, l.dst, FactsOf(s.nodes[l.dst], l.note.msg.req.digest)));
    } else {
      PrepareIgnored(g, s, l, s');
      IgnoredKept(g, s, l, s');
    }
  }

  // ----- A commit is handled ---------------------------------------------------------------------------------------

  function AfterCommit(g: Group, f: Facts): Facts
    requires g.n > 0
  {
    f.(commits := f.commits + 1, reply := f.reply || f.commits + 1 >= 2 * Malicious(g.n))
  }

  lemma CommitFlight(g: Group, s: PbftNet, l: Letter, s': PbftNet)
    requires Opens(g, s, l, s', Commit) && FlightInv(g, s)
    ensures FlightInv(g, s')
  {
    OpenedFlight(g, s, l);
    var t := Opened(s, l);
    assert s'.flight == t.flight && s'.sent == t.sent && s'.delivered == t.delivered;
  }

  lemma CommitIgnored(g: Group, s: PbftNet, l: Letter, s': PbftNet)
    requires Opens(g, s, l, s', Commit) && l.note.msg.round < s.nodes[l.dst].currentRound
    ensures SameFacts(g, s, s') && s'.delivered == s.delivered + {l} && s'.sent == s.sent
  {
    forall i, d | i in g.active
      ensures FactsOf(s'.nodes[i], d) == FactsOf(s.nodes[i], d)
    {
      CommitFacts(g.n, l.dst, s.nodes[l.dst], l.note.msg, d);
    }
  }

  lemma CommitCounted(g: Group, s: PbftNet, l: Letter, s': PbftNet)
    requires Opens(g, s, l, s', Commit) && l.note.msg.round >= s.nodes[l.dst].currentRound && TallyOf(l) !in s.counted
    ensures CountsOne(g, s, s', TallyOf(l), AfterCommit(g, FactsOf(s.nodes[l.dst], l.note.msg.req.digest)))
    ensures s'.delivered == s.delivered + {l} && s'.sent == s.sent
    ensures (var f := FactsOf(s.nodes[l.dst], l.note.msg.req.digest);
      s'.commits == s.commits +
        if AfterCommit(g, f).reply && !f.reply then multiset{(l.dst, l.note.msg.req.digest)} else multiset{})
  {
    forall i, d | i in g.active
      ensures FactsOf(s'.nodes[i], d) ==
        if i == l.dst && d == l.note.msg.req.digest then AfterCommit(g, FactsOf(s.nodes[i], d))
        else FactsOf(s.nodes[i], d)
    {
      CommitFacts(g.n, l.dst, s.nodes[l.dst], l.note.msg, d);
    }
    CommitFacts(g.n, l.dst, s.nodes[l.dst], l.note.msg, l.note.msg.req.digest);
  }

  lemma CommitCountedKept(g: Group, s: PbftNet, l: Letter, s': PbftNet, was: Facts)
    requires Typed(g, s) && l.dst in g.active
    requires CountsOne(g, s, s', TallyOf(l), AfterCommit(g, was))
    requires s'.delivered == s.delivered + {l} && s'.sent == s.sent
    requires was == FactsOf(s.nodes[l.dst], l.note.msg.req.digest) && l.note.kind == Commit
    requires s'.commits == s.commits +
      if AfterCommit(g, was).reply && !was.reply then multiset{(l.dst, l.note.msg.req.digest)} else multiset{}
    requires Causes(g, s) && Tallied(g, s) && Counts(g, s) && FlagsInv(g, s) && OnlyActiveCommit(g, s)
    ensures Causes(g, s') && Tallied(g, s') && Counts(g, s') && FlagsInv(g, s') && OnlyActiveCommit(g, s')
  {
    assert Consistent(g.n, l.dst, was);
    CausesKept(g, s, s');
    LetterGrounds(g, s', l);
    TalliedKept(g, s, s');
    CountsKept(g, s, s', TallyOf(l), AfterCommit(g, was));
    assert was.flag ==> SentCommit(s, l.dst, l.note.msg.req.digest);
    if was.flag {
      SentCommitKept(s, s', l.dst, l.note.msg.req.digest);
    }
    FlagsKept(g, s, s', TallyOf(l), AfterCommit(g, was));
  }

  lemma CommitKept(g: Group, s: PbftNet, l: Letter, s': PbftNet)
    requires Opens(g, s, l, s', Commit) && VoteInv(g, s) && TallyOf(l) !in s.counted
    ensures VoteInv(g, s')
  {
    CommitFlight(g, s, l, s');
    if l.note.msg.round >= s.nodes[l.dst].currentRound {
      CommitCounted(g, s, l, s');
      CommitCountedKept(g, s, l, s', FactsOf(s.nodes[l.dst], l.note.msg.req.digest));
    } else {
      CommitIgnored(g, s, l, s');
      IgnoredKept(g, s, l, s');
    }
  }

  // ----- Other steps -----------------------------------------------------------------------------------------------

  lemma SilentKept(g: Group, s: PbftNet, l: Letter, s': PbftNet)
    requires Next(g, s, Deliver(l), s') && l.dst !in g.active && VoteInv(g, s)
    ensures VoteInv(g, s')
  {
    OpenedFlight(g, s, l);
    IgnoredKept(g, s, l, s');
  }

  /** Nothing is known yet of a digest that was not taken from the queue. */
  lemma UnknownYet(g: Group, s: PbftNet, i: NodeId, d: Digest)
    requires RoundInv(g, s) && VoteInv(g, s) && i in g.active
    requires forall a :: 0 <= a < |s.dequeued| ==> s.dequeued[a].digest != d
    ensures FactsOf(s.nodes[i], d) == Facts(0, 0, false, false)
  {
    forall t | t in s.counted
      ensures t.digest != d
    {
      assert Grounded(g, s, t);
      var m: PbftMessage :| m.req.digest == t.digest && Letter(Note(t.src, t.kind, m), t.dst) in s.delivered;
      assert Note(t.src, t.kind, m) in s.sent;
    }
    assert Voters(s, i, Prepare, d) == {} && Voters(s, i, Commit, d) == {};
    assert !SentCommit(s, i, d);
    assert FactsOf(s.nodes[i], d).prepares == 0 && FactsOf(s.nodes[i], d).commits == 0;
    assert Consistent(g.n, i, FactsOf(s.nodes[i], d));
  }

  lemma ProposeSame(g: Group, s: PbftNet, req: PbftRequest, s': PbftNet)
    requires Next(g, s, Propose(req), s') && RoundInv(g, s) && VoteInv(g, s) && Distinct(s')
    ensures SameFacts(g, s, s') && s'.delivered == s.delivered && s'.sent == s.sent && s'.dequeued == s.dequeued
  {
    assert s'.proposed[|s.proposed|] == req;
    forall a | 0 <= a < |s.dequeued|
      ensures s.dequeued[a].digest != req.digest
    {
      assert s'.proposed[a] == s.dequeued[a];
    }
    UnknownYet(g, s, VIEW, req.digest);
    forall i, d | i in g.active
      ensures FactsOf(s'.nodes[i], d) == FactsOf(s.nodes[i], d)
    {
      ProposeFacts(s.nodes[VIEW], req, d);
    }
  }

  lemma ProposeKept(g: Group, s: PbftNet, req: PbftRequest, s': PbftNet)
    requires Next(g, s, Propose(req), s') && RoundInv(g, s) && VoteInv(g, s) && Distinct(s')
    ensures VoteInv(g, s')
  {
    ProposeSame(g, s, req, s');
    NothingSentKept(g, s, s');
  }

  lemma NothingSentKept(g: Group, s: PbftNet, s': PbftNet)
    requires VoteInv(g, s) && SameFacts(g, s, s')
    requires s'.delivered == s.delivered && s'.sent == s.sent && s'.flight == s.flight
    ensures VoteInv(g, s')
  {
    CausesKept(g, s, s');
    TalliedKept(g, s, s');
    SameFactsKept(g, s, s');
  }

  /** What the leader announces: the next request, with the current round. */
  function Announcement(s: PbftNet): PbftMessage
    requires |s.nodes| > 0 && s.nodes[VIEW].queue != []
  {
    PbftMessage(s.nodes[VIEW].queue[0], s.nodes[VIEW].currentRound)
  }

  lemma AnnounceFlight(g: Group, s: PbftNet, s': PbftNet)
    requires Next(g, s, Announce, s') && RoundInv(g, s) && FlightInv(g, s)
    ensures FlightInv(g, s')
  {
    var t := s.(nodes := s'.nodes, phase := s'.phase, dequeued := s'.dequeued);
    PostFlight(g, t, VIEW, PrePrepare, Some(Announcement(s)));
  }

  lemma AnnounceEffect(g: Group, s: PbftNet, s': PbftNet)
    requires Next(g, s, Announce, s')
    ensures SameFacts(g, s, s') && s'.delivered == s.delivered
    ensures s'.sent == s.sent + {Note(VIEW, PrePrepare, Announcement(s))}
  {
  }

  lemma AnnounceKept(g: Group, s: PbftNet, s': PbftNet)
    requires Next(g, s, Announce, s') && RoundInv(g, s) && VoteInv(g, s)
    ensures VoteInv(g, s')
  {
    AnnounceFlight(g, s, s');
    AnnounceEffect(g, s, s');
    AnnouncedKept(g, s, s', Announcement(s));
  }

  lemma AnnouncedKept(g: Group, s: PbftNet, s': PbftNet, m: PbftMessage)
    requires VoteInv(g, s) && SameFacts(g, s, s') && s'.delivered == s.delivered && FlightInv(g, s')
    requires s'.sent == s.sent + {Note(VIEW, PrePrepare, m)}
    ensures VoteInv(g, s')
  {
    CausesKept(g, s, s');
    TalliedKept(g, s, s');
    SameFactsKept(g, s, s');
  }

  lemma DeliverKept(g: Group, s: PbftNet, l: Letter, s': PbftNet)
    requires Next(g, s, Deliver(l), s') && RoundInv(g, s) && VoteInv(g, s) && Distinct(s)
    ensures VoteInv(g, s')
  {
    NotCountedYet(g, s, l);
    if l.dst !in g.active {
      SilentKept(g, s, l, s');
    } else {
      match l.note.kind
      case PrePrepare => PrePrepareKept(g, s, l, s');
      case Prepare => PrepareKept(g, s, l, s');
      case Commit => CommitKept(g, s, l, s');
    }
  }

  lemma ProposedGrows(g: Group, s: PbftNet, step: Step, s': PbftNet)
    requires Next(g, s, step, s')
    ensures s.proposed <= s'.proposed
    ensures Distinct(s') ==> Distinct(s)
  {
    if step.Deliver? && step.l.dst in g.active {
      HandleKeepsRounds(g, Opened(s, step.l), step.l);
    }
    assert s.proposed <= s'.proposed;
    assert forall a :: 0 <= a < |s.proposed| ==> s.proposed[a] == s'.proposed[a];
  }

  lemma VoteInvNext(g: Group, s: PbftNet, step: Step, s': PbftNet)
    requires Next(g, s, step, s') && RoundInv(g, s) && VoteInv(g, s) && Distinct(s')
    ensures VoteInv(g, s')
  {
    ProposedGrows(g, s, step, s');
    match step
    case Propose(req) => ProposeKept(g, s, req, s');
    case Announce => AnnounceKept(g, s, s');
    case Park => NothingSentKept(g, s, s');
    case Deliver(l) => DeliverKept(g, s, l, s');
  }

  lemma VoteInvInit(g: Group, s: PbftNet)
    requires Init(g, s)
    ensures VoteInv(g, s)
  {
  }

  lemma {:induction false} VoteInvRun(g: Group, run: seq<PbftNet>, steps: seq<Step>, k: nat)
    requires IsRun(g, run, steps) && k <= |steps| && Distinct(run[k])
    ensures VoteInv(g, run[k])
  {
    if k == 0 {
      VoteInvInit(g, run[0]);
    } else {
      assert Next(g, run[k - 1], steps[k - 1], run[k - 1 + 1]);
      assert run[k - 1 + 1] == run[k];
      ProposedGrows(g, run[k - 1], steps[k - 1], run[k]);
      VoteInvRun(g, run, steps, k - 1);
      RoundInvRun(g, run, steps, k - 1);
      VoteInvNext(g, run[k - 1], steps[k - 1], run[k]);
    }
  }

  // ----- What a commit certifies -----------------------------------------------------------------------------------

  /** Node k has prepared the request: it is active and has opened the leader's announcement of it. */
  ghost predicate Prepared(g: Group, s: PbftNet, k: NodeId, d: Digest) {
    k in g.active && exists m: PbftMessage :: m.req.digest == d && Letter(Note(VIEW, PrePrepare, m), k) in s.delivered
  }

  /** Everyone node i counts as preparing is another node, and has prepared. */
  lemma PrepareVoters(g: Group, s: PbftNet, i: NodeId, d: Digest)
    requires VoteInv(g, s) && i in g.active
    ensures |Voters(s, i, Prepare, d)| == FactsOf(s.nodes[i], d).prepares
    ensures forall k :: k in Voters(s, i, Prepare, d) ==> k != i && Prepared(g, s, k, d)
  {
    forall k | k in Voters(s, i, Prepare, d)
      ensures k != i && Prepared(g, s, k, d)
    {
      var t := Tally(i, Prepare, d, k);
      assert Grounded(g, s, t);
      var m: PbftMessage :| m.req.digest == d && Letter(Note(k, Prepare, m), i) in s.delivered;
      assert Caused(g, s, Note(k, Prepare, m));
    }
  }

  /** Everyone node i counts as committing is another node, has broadcast its commit, and had counted enough prepares.
      */
  lemma CommitVoters(g: Group, s: PbftNet, i: NodeId, d: Digest)
    requires VoteInv(g, s) && i in g.active
    ensures |Voters(s, i, Commit, d)| == FactsOf(s.nodes[i], d).commits
    ensures forall k :: k in Voters(s, i, Commit, d) ==>
        k != i && k in g.active && SentCommit(s, k, d) && |Voters(s, k, Prepare, d)| >= NeedPrepares(g.n, k)
  {
    forall k | k in Voters(s, i, Commit, d)
      ensures k != i && k in g.active && SentCommit(s, k, d) && |Voters(s, k, Prepare, d)| >= NeedPrepares(g.n, k)
    {
      var t := Tally(i, Commit, d, k);
      assert Grounded(g, s, t);
      var m: PbftMessage :| m.req.digest == d && Letter(Note(k, Commit, m), i) in s.delivered;
      assert Caused(g, s, Note(k, Commit, m));
      assert Consistent(g.n, k, FactsOf(s.nodes[k], d));
      PrepareVoters(g, s, k, d);
    }
  }

  /** In a run in which no digest is proposed twice, a node commits a digest at most once, and only after 2f other
      nodes broadcast their commits, each with prepares counted from as many other nodes as it needs, all of which had
      handled the leader's announcement. */
  lemma CommitCertificate(g: Group, run: seq<PbftNet>, steps: seq<Step>, k: nat, i: NodeId, d: Digest)
    requires IsRun(g, run, steps) && k <= |steps| && Distinct(run[k]) && (i, d) in run[k].commits
    ensures run[k].commits[(i, d)] == 1 && i in g.active
    ensures |Voters(run[k], i, Commit, d)| >= 2 * Malicious(g.n)
    ensures forall j :: j in Voters(run[k], i, Commit, d) ==>
        && j != i && j in g.active && SentCommit(run[k], j, d)
        && |Voters(run[k], j, Prepare, d)| >= NeedPrepares(g.n, j)
        && forall h :: h in Voters(run[k], j, Prepare, d) ==> h != j && Prepared(g, run[k], h, d)
  {
    VoteInvRun(g, run, steps, k);
    var s := run[k];
    assert i in g.active;
    assert Consistent(g.n, i, FactsOf(s.nodes[i], d));
    CommitVoters(g, s, i, d);
    forall j | j in Voters(s, i, Commit, d)
      ensures forall h :: h in Voters(s, j, Prepare, d) ==> h != j && Prepared(g, s, h, d)
    {
      PrepareVoters(g, s, j, d);
    }
  }
}
