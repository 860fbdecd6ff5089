/** handlePrepare as any number of goroutines run it: cut at its lock regions, in any interleaving. */
module PbftInterleaving {

  import opened Common
  import opened Network
  import opened Pbft
  import opened PbftCertificates

  /** Where a goroutine is: after which lock region, with the count it saw; or how it ended. */
  datatype Pc =
    | Arrived | InRound | Unflagged | Counted(cnt: nat) | Flagged(cnt: nat)
    | Outdated | SawFlag | TooFew(cnt: nat) | Sent(cnt: nat)

  datatype Thread = Thread(msg: PbftMessage, pc: Pc) {
    function Digest(): Digest {
      msg.req.digest
    }

    /** Has returned. */
    predicate Ended() {
      pc.Outdated? || pc.SawFlag? || pc.TooFew? || pc.Sent?
    }
  }

  /** The node, its goroutines, and the digests it has broadcast a commit for. */
  datatype Shared = Shared(node: PbftState, threads: seq<Thread>, broadcasts: multiset<Digest>)

  datatype Step =
    | Arrive(m: PbftMessage) | ReadRound(t: nat) | ReadFlag(t: nat) | Increment(t: nat) | SetFlag(t: nat) | Send(t: nat)
    | Other(node: PbftState)

  function At(s: Shared, t: nat, pc: Pc): Shared
    requires t < |s.threads|
  {
    s.(threads := s.threads[t := s.threads[t].(pc := pc)])
  }

  predicate Is(s: Shared, t: int, d: Digest) {
    0 <= t < |s.threads| && s.threads[t].Digest() == d
  }

  /** What pre-prepare and commit handlers may do in between (OthersInterfere).  A propose handler may not: it makes a
      new entry for the request, so that the count starts again. */
  ghost predicate Interferes(a: PbftState, b: PbftState) {
    && a.currentRound <= b.currentRound
    && forall d :: FactsOf(b, d).prepares == FactsOf(a, d).prepares && FactsOf(b, d).flag == FactsOf(a, d).flag
  }

  ghost predicate Next(n: nat, nid: NodeId, s: Shared, step: Step, s': Shared)
    requires n > 0
  {
    match step
    case Arrive(m) => s' == s.(threads := s.threads + [Thread(m, Arrived)])
    case ReadRound(t) =>
      && t < |s.threads| && s.threads[t].pc == Arrived
      && s' == At(s, t, if s.threads[t].msg.round < s.node.currentRound then Outdated else InRound)
    case ReadFlag(t) =>
      && t < |s.threads| && s.threads[t].pc == InRound
      && s' == At(s, t, if s.node.Info(s.threads[t].msg.req).isCommitBroadcast then SawFlag else Unflagged)
    case Increment(t) =>
      && t < |s.threads| && s.threads[t].pc == Unflagged
      && (var req := s.threads[t].msg.req;
          var info := s.node.Info(req);
          var cnt := info.cntPrepareConfirm + 1;
          s' == At(s, t, Counted(cnt)).(node :=
            s.node.(pool := s.node.pool[req.digest := info.(cntPrepareConfirm := cnt)])))
    case SetFlag(t) =>
      && t < |s.threads| && s.threads[t].pc.Counted?
      && (var req := s.threads[t].msg.req;
          var cnt := s.threads[t].pc.cnt;
          s' == if cnt < NeedPrepares(n, nid) then At(s, t, TooFew(cnt))
                else At(s, t, Flagged(cnt)).(node :=
                  s.node.(pool := s.node.pool[req.digest := s.node.Info(req).(isCommitBroadcast := true)])))
    case Send(t) =>
      && t < |s.threads| && s.threads[t].pc.Flagged?
      && s' == At(s, t, Sent(s.threads[t].pc.cnt)).(broadcasts := s.broadcasts + multiset{s.threads[t].Digest()})
    case Other(node) => Interferes(s.node, node) && s' == s.(node := node)
  }

  /** The handler starts on a node that has received no prepares yet. */
  ghost predicate Init(s: Shared) {
    && s.threads == [] && s.broadcasts == multiset{}
    && forall d :: FactsOf(s.node, d).prepares == 0 && !FactsOf(s.node, d).flag
  }

  ghost predicate IsRun(n: nat, nid: NodeId, run: seq<Shared>, steps: seq<Step>)
    requires n > 0
  {
    && |run| == |steps| + 1 && Init(run[0])
    && forall k {:trigger steps[k]} :: 0 <= k < |steps| ==> Next(n, nid, run[k], steps[k], run[k + 1])
  }

  // ----- The cut handler and the whole one -------------------------------------------------------------------------

  /** The handlers that may run in between do to the count, the flag and the round what Interferes says. */
  lemma OthersInterfere(n: nat, nid: NodeId, a: PbftState, m: PbftMessage, flag: bool)
    requires n > 0
    ensures Interferes(a, OnPrePrepare(a, m, flag).0) && Interferes(a, OnCommit(n, nid, a, m).0)
  {
    assert OnPrePrepare(a, m, flag).0 == OnPrePrepare(a, m, true).0;
    forall d
      ensures FactsOf(OnPrePrepare(a, m, flag).0, d) == FactsOf(a, d)
    {
      PrePrepareFacts(a, m, d);
    }
    forall d
      ensures var b := OnCommit(n, nid, a, m).0;
        FactsOf(b, d).prepares == FactsOf(a, d).prepares && FactsOf(b, d).flag == FactsOf(a, d).flag
    {
      CommitFacts(n, nid, a, m, d);
    }
  }

  /** A step of goroutine t. */
  predicate StepOf(step: Step, t: nat) {
    !step.Arrive? && !step.Other? && step.t == t
  }

  /** The node after goroutine t, started in s, has counted. */
  function AfterCount(s: Shared, t: nat): PbftState
    requires t < |s.threads|
  {
    var req := s.threads[t].msg.req;
    var info := s.node.Info(req);
    s.node.(pool := s.node.pool[req.digest := info.(cntPrepareConfirm := info.cntPrepareConfirm + 1)])
  }

  /** The position and the shared state goroutine t can have reached alone from s. */
  ghost predicate Midway(n: nat, nid: NodeId, s: Shared, t: nat, s': Shared)
    requires n > 0
  {
    && t < |s.threads| == |s'.threads| && s'.threads == s.threads[t := s'.threads[t]]
    && s'.threads[t].msg == s.threads[t].msg
    && (var msg, pc := s.threads[t].msg, s'.threads[t].pc;
        var info, after := s.node.Info(msg.req), OnPrepare(n, nid, s.node, msg).0;
        && (!pc.Arrived? ==> (pc.Outdated? <==> msg.round < s.node.currentRound))
        && (!pc.Arrived? && !pc.InRound? && !pc.Outdated? ==> (pc.SawFlag? <==> info.isCommitBroadcast))
        && (HasCounted(pc) ==> CountSeen(pc) == info.cntPrepareConfirm + 1)
        && (pc.TooFew? ==> pc.cnt < NeedPrepares(n, nid))
        && (pc.Flagged? || pc.Sent? ==> CountSeen(pc) >= NeedPrepares(n, nid))
        && (!HasCounted(pc) ==> s'.node == s.node)
        && (pc.Counted? ==> s'.node == AfterCount(s, t))
        && (pc.TooFew? || pc.Flagged? || pc.Sent? ==> s'.node == after)
        && s'.broadcasts == s.broadcasts + if pc.Sent? then multiset{msg.req.digest} else multiset{})
  }

  lemma MidwayKept(n: nat, nid: NodeId, s: Shared, t: nat, a: Shared, step: Step, b: Shared)
    requires n > 0 && Midway(n, nid, s, t, a) && Next(n, nid, a, step, b) && StepOf(step, t)
    ensures Midway(n, nid, s, t, b)
  {
    var msg := s.threads[t].msg;
    assert step.SetFlag? && a.threads[t].pc.cnt < NeedPrepares(n, nid) ==>
      b.node.pool == OnPrepare(n, nid, s.node, msg).0.pool;
    assert step.SetFlag? && a.threads[t].pc.cnt >= NeedPrepares(n, nid) ==>
      b.node.pool == OnPrepare(n, nid, s.node, msg).0.pool;
  }

  lemma {:induction false} MidwayRun(n: nat, nid: NodeId, t: nat, run: seq<Shared>, steps: seq<Step>, k: nat)
    requires n > 0 && |run| == |steps| + 1 && k <= |steps|
    requires t < |run[0].threads| && run[0].threads[t].pc == Arrived
    requires forall k {:trigger steps[k]} :: 0 <= k < |steps| ==>
      StepOf(steps[k], t) && Next(n, nid, run[k], steps[k], run[k + 1])
    ensures Midway(n, nid, run[0], t, run[k])
  {
    if k > 0 {
      MidwayRun(n, nid, t, run, steps, k - 1);
      MidwayKept(n, nid, run[0], t, run[k - 1], steps[k - 1], run[k - 1 + 1]);
      assert run[k - 1 + 1] == run[k];
    }
  }

  /** A goroutine that nobody interrupts, from any state, has in the end done what the whole handler does. */
  lemma AloneIsTheHandler(n: nat, nid: NodeId, t: nat, run: seq<Shared>, steps: seq<Step>)
    requires n > 0 && |run| == |steps| + 1 && t < |run[0].threads| && run[0].threads[t].pc == Arrived
    requires forall k {:trigger steps[k]} :: 0 <= k < |steps| ==>
      StepOf(steps[k], t) && Next(n, nid, run[k], steps[k], run[k + 1])
    requires t < |run[|steps|].threads| ==> run[|steps|].threads[t].Ended()
    ensures var (node, sent) := OnPrepare(n, nid, run[0].node, run[0].threads[t].msg);
      && run[|steps|].node == node
      && run[|steps|].broadcasts ==
         run[0].broadcasts + if sent.Some? then multiset{sent.value.req.digest} else multiset{}
  {
    MidwayRun(n, nid, t, run, steps, |steps|);
  }

  // ----- The invariant ---------------------------------------------------------------------------------------------

  function CountSeen(pc: Pc): nat {
    match pc
    case Counted(c) => c
    case Flagged(c) => c
    case TooFew(c) => c
    case Sent(c) => c
    case _ => 0
  }

  predicate HasCounted(pc: Pc) {
    pc.Counted? || pc.Flagged? || pc.TooFew? || pc.Sent?
  }

  /** What a goroutine's position says about its node. */
  ghost predicate ThreadOk(n: nat, nid: NodeId, s: Shared, t: Thread)
    requires n > 0
  {
    var f := FactsOf(s.node, t.Digest());
    && (HasCounted(t.pc) ==> 1 <= CountSeen(t.pc) <= f.prepares)
    && (t.pc.TooFew? ==> t.pc.cnt < NeedPrepares(n, nid))
    && (t.pc.Flagged? || t.pc.Sent? ==> CountSeen(t.pc) >= NeedPrepares(n, nid))
    && (t.pc.Flagged? || t.pc.Sent? || t.pc.SawFlag? ==> f.flag)
    && (t.pc.Sent? ==> t.Digest() in s.broadcasts)
  }

  /** The flag is set by a goroutine that broadcasts, or is about to. */
  ghost predicate FlagOwned(s: Shared, d: Digest) {
    d in s.broadcasts || exists t :: Is(s, t, d) && s.threads[t].pc.Flagged?
  }

  ghost predicate SentBy(s: Shared, d: Digest) {
    exists t :: Is(s, t, d) && s.threads[t].pc.Sent?
  }

  ghost predicate ThreadsOk(n: nat, nid: NodeId, s: Shared)
    requires n > 0
  {
    forall t :: 0 <= t < |s.threads| ==> ThreadOk(n, nid, s, s.threads[t])
  }

  /** Both have counted prepares of the same digest. */
  predicate CountedBoth(a: Thread, b: Thread) {
    a.Digest() == b.Digest() && HasCounted(a.pc) && HasCounted(b.pc)
  }

  ghost predicate CountsDiffer(s: Shared) {
    forall t, r :: 0 <= t < r < |s.threads| && CountedBoth(s.threads[t], s.threads[r]) ==>
      CountSeen(s.threads[t].pc) != CountSeen(s.threads[r].pc)
  }

  ghost predicate FlagsOwned(s: Shared) {
    forall d :: FactsOf(s.node, d).flag ==> FlagOwned(s, d)
  }

  ghost predicate AllSent(s: Shared) {
    forall d :: d in s.broadcasts ==> SentBy(s, d)
  }

  /** The goroutines that have counted a prepare of d. */
  function Counters(s: Shared, d: Digest): set<nat> {
    set t: nat | t < |s.threads| && s.threads[t].Digest() == d && HasCounted(s.threads[t].pc)
  }

  /** Those that have broadcast the commit. */
  function Senders(s: Shared, d: Digest): set<nat> {
    set t: nat | t < |s.threads| && s.threads[t].Digest() == d && s.threads[t].pc.Sent?
  }

  /** Every count and every broadcast is some goroutine's own. */
  ghost predicate AllAccounted(s: Shared) {
    forall d :: |Counters(s, d)| == FactsOf(s.node, d).prepares && |Senders(s, d)| == s.broadcasts[d]
  }

  ghost predicate Inv(n: nat, nid: NodeId, s: Shared)
    requires n > 0
  {
    ThreadsOk(n, nid, s) && CountsDiffer(s) && FlagsOwned(s) && AllSent(s) && AllAccounted(s)
  }

  lemma InvInit(n: nat, nid: NodeId, s: Shared)
    requires n > 0 && Init(s)
    ensures Inv(n, nid, s)
  {
  }

  /** One goroutine moves; facts about digests only grow. */
  ghost predicate Moves(s: Shared, s': Shared, t: nat) {
    && t < |s.threads| == |s'.threads| && s'.threads[t].msg == s.threads[t].msg
    && (forall r :: 0 <= r < |s.threads| && r != t ==> s'.threads[r] == s.threads[r])
    && (forall d :: FactsOf(s.node, d).prepares <= FactsOf(s'.node, d).prepares)
    && (forall d :: FactsOf(s.node, d).flag ==> FactsOf(s'.node, d).flag)
    && s.broadcasts <= s'.broadcasts
  }

  /** The move of t changes who has counted only by t itself, and who has sent likewise. */
  lemma SetsAfter(s: Shared, s': Shared, t: nat, d: Digest)
    requires Moves(s, s', t)
    ensures Counters(s', d) - {t} == Counters(s, d) - {t} && Senders(s', d) - {t} == Senders(s, d) - {t}
    ensures t in Counters(s', d) <==> s.threads[t].Digest() == d && HasCounted(s'.threads[t].pc)
    ensures t in Senders(s', d) <==> s.threads[t].Digest() == d && s'.threads[t].pc.Sent?
    ensures t in Counters(s, d) <==> s.threads[t].Digest() == d && HasCounted(s.threads[t].pc)
    ensures t in Senders(s, d) <==> s.threads[t].Digest() == d && s.threads[t].pc.Sent?
  {
  }

  lemma SizeAfter(a: set<nat>, b: set<nat>, t: nat)
    requires a - {t} == b - {t}
    ensures |b| == |a| + (if t in b then 1 else 0) - if t in a then 1 else 0
  {
    assert t in a ==> a == (a - {t}) + {t};
    assert t in b ==> b == (b - {t}) + {t};
    assert t !in a ==> a == a - {t};
    assert t !in b ==> b == b - {t};
  }

  lemma AccountedKept(s: Shared, s': Shared, t: nat)
    requires Moves(s, s', t) && AllAccounted(s)
    requires var counts, sends := HasCounted(s'.threads[t].pc) && !HasCounted(s.threads[t].pc),
                 s'.threads[t].pc.Sent? && !s.threads[t].pc.Sent?;
      && (HasCounted(s.threads[t].pc) ==> HasCounted(s'.threads[t].pc))
      && (s.threads[t].pc.Sent? ==> s'.threads[t].pc.Sent?)
      && (forall d :: FactsOf(s'.node, d).prepares == FactsOf(s.node, d).prepares +
            if counts && d == s.threads[t].Digest() then 1 else 0)
      && (forall d :: s'.broadcasts[d] == s.broadcasts[d] + if sends && d == s.threads[t].Digest() then 1 else 0)
    ensures AllAccounted(s')
  {
    forall d
      ensures |Counters(s', d)| == FactsOf(s'.node, d).prepares && |Senders(s', d)| == s'.broadcasts[d]
    {
      SetsAfter(s, s', t, d);
      SizeAfter(Counters(s, d), Counters(s', d), t);
      SizeAfter(Senders(s, d), Senders(s', d), t);
    }
  }

  lemma OthersOk(n: nat, nid: NodeId, s: Shared, s': Shared, t: nat)
    requires n > 0 && ThreadsOk(n, nid, s) && Moves(s, s', t) && ThreadOk(n, nid, s', s'.threads[t])
    ensures ThreadsOk(n, nid, s')
  {
    forall r | 0 <= r < |s'.threads|
      ensures ThreadOk(n, nid, s', s'.threads[r])
    {
      if r != t {
        assert ThreadOk(n, nid, s, s.threads[r]);
      }
    }
  }

  /** No goroutine but t has changed its count, and t sees one of its own. */
  lemma DifferKept(s: Shared, s': Shared, t: nat)
    requires Moves(s, s', t) && CountsDiffer(s)
    requires forall r :: 0 <= r < |s.threads| && r != t && CountedBoth(s'.threads[t], s.threads[r]) ==>
      CountSeen(s'.threads[t].pc) != CountSeen(s.threads[r].pc)
    ensures CountsDiffer(s')
  {
  }

  lemma SameCount(s: Shared, s': Shared, t: nat)
    requires Moves(s, s', t) && CountsDiffer(s)
    requires HasCounted(s'.threads[t].pc) ==>
      HasCounted(s.threads[t].pc) && CountSeen(s'.threads[t].pc) == CountSeen(s.threads[t].pc)
    ensures CountsDiffer(s')
  {
    forall r | 0 <= r < |s.threads| && r != t && CountedBoth(s'.threads[t], s.threads[r])
      ensures CountSeen(s'.threads[t].pc) != CountSeen(s.threads[r].pc)
    {
      assert CountedBoth(s.threads[t], s.threads[r]);
    }
    DifferKept(s, s', t);
  }

  lemma OwnedKept(s: Shared, s': Shared, t: nat, d: Digest)
    requires Moves(s, s', t) && FlagOwned(s, d)
    requires s.threads[t].pc.Flagged? ==> s'.threads[t].pc.Flagged? || s.threads[t].Digest() in s'.broadcasts
    ensures FlagOwned(s', d)
  {
    if d !in s'.broadcasts {
      var r :| Is(s, r, d) && s.threads[r].pc.Flagged?;
      assert Is(s', r, d) && s'.threads[r].pc.Flagged?;
    }
  }

  lemma AllOwned(s: Shared, s': Shared, t: nat)
    requires Moves(s, s', t) && FlagsOwned(s)
    requires s.threads[t].pc.Flagged? ==> s'.threads[t].pc.Flagged? || s.threads[t].Digest() in s'.broadcasts
    requires forall d :: FactsOf(s'.node, d).flag && !FactsOf(s.node, d).flag ==> FlagOwned(s', d)
    ensures FlagsOwned(s')
  {
    forall d | FactsOf(s'.node, d).flag
      ensures FlagOwned(s', d)
    {
      if FactsOf(s.node, d).flag {
        OwnedKept(s, s', t, d);
      }
    }
  }

  lemma SentKept(s: Shared, s': Shared, t: nat)
    requires Moves(s, s', t) && AllSent(s) && !s.threads[t].pc.Sent?
    requires forall d :: d in s'.broadcasts && d !in s.broadcasts ==> SentBy(s', d)
    ensures AllSent(s')
  {
    forall d | d in s'.broadcasts
      ensures SentBy(s', d)
    {
      if d in s.broadcasts {
        var r :| Is(s, r, d) && s.threads[r].pc.Sent?;
        assert Is(s', r, d);
      }
    }
  }

  /** A goroutine that neither counts nor touches the flag nor sends. */
  lemma QuietMove(n: nat, nid: NodeId, s: Shared, s': Shared, t: nat)
    requires n > 0 && Inv(n, nid, s) && Moves(s, s', t) && s'.node == s.node && s'.broadcasts == s.broadcasts
    requires ThreadOk(n, nid, s', s'.threads[t])
    requires !s.threads[t].pc.Flagged? && !s.threads[t].pc.Sent?
    requires HasCounted(s'.threads[t].pc) ==>
      HasCounted(s.threads[t].pc) && CountSeen(s'.threads[t].pc) == CountSeen(s.threads[t].pc)
    requires HasCounted(s.threads[t].pc) ==> HasCounted(s'.threads[t].pc)
    requires !s'.threads[t].pc.Sent?
    ensures Inv(n, nid, s')
  {
    OthersOk(n, nid, s, s', t);
    SameCount(s, s', t);
    AllOwned(s, s', t);
    SentKept(s, s', t);
    AccountedKept(s, s', t);
  }

  function OneMore(f: Facts, counts: bool): Facts {
    if counts then f.(prepares := f.prepares + 1) else f
  }

  function WithFlag(f: Facts, sets: bool): Facts {
    if sets then f.(flag := true) else f
  }

  lemma IncrementFacts(n: nat, nid: NodeId, s: Shared, t: nat, s': Shared)
    requires n > 0 && Next(n, nid, s, Increment(t), s')
    ensures t < |s.threads|
    ensures forall d :: FactsOf(s'.node, d) == OneMore(FactsOf(s.node, d), d == s.threads[t].Digest())
    ensures Moves(s, s', t) && s'.broadcasts == s.broadcasts
    ensures s'.threads[t].pc == Counted(FactsOf(s.node, s.threads[t].Digest()).prepares + 1)
    ensures !HasCounted(s.threads[t].pc)
  {
  }

  lemma IncrementKept(n: nat, nid: NodeId, s: Shared, t: nat, s': Shared)
    requires n > 0 && Inv(n, nid, s) && Next(n, nid, s, Increment(t), s')
    ensures Inv(n, nid, s')
  {
    IncrementFacts(n, nid, s, t, s');
    OthersOk(n, nid, s, s', t);
    forall r | 0 <= r < |s.threads| && r != t && CountedBoth(s'.threads[t], s.threads[r])
      ensures CountSeen(s'.threads[t].pc) != CountSeen(s.threads[r].pc)
    {
      assert ThreadOk(n, nid, s, s.threads[r]);
    }
    DifferKept(s, s', t);
    AllOwned(s, s', t);
    SentKept(s, s', t);
    AccountedKept(s, s', t);
  }

  lemma SetFlagFacts(n: nat, nid: NodeId, s: Shared, t: nat, s': Shared)
    requires n > 0 && Next(n, nid, s, SetFlag(t), s')
    requires s.threads[t].pc.cnt >= NeedPrepares(n, nid)
    ensures forall d :: FactsOf(s'.node, d) == WithFlag(FactsOf(s.node, d), d == s.threads[t].Digest())
    ensures Moves(s, s', t) && s'.broadcasts == s.broadcasts && s'.threads[t].pc == Flagged(s.threads[t].pc.cnt)
  {
  }

  lemma FlagsAfter(n: nat, nid: NodeId, s: Shared, t: nat, s': Shared)
    requires n > 0 && Inv(n, nid, s) && Moves(s, s', t) && s'.broadcasts == s.broadcasts
    requires s.threads[t].pc.Counted? && s'.threads[t].pc == Flagged(s.threads[t].pc.cnt)
    requires s.threads[t].pc.cnt >= NeedPrepares(n, nid)
    requires forall d :: FactsOf(s'.node, d) == WithFlag(FactsOf(s.node, d), d == s.threads[t].Digest())
    ensures Inv(n, nid, s')
  {
    assert ThreadOk(n, nid, s, s.threads[t]);
    OthersOk(n, nid, s, s', t);
    SameCount(s, s', t);
    assert Is(s', t, s.threads[t].Digest());
    AllOwned(s, s', t);
    SentKept(s, s', t);
    AccountedKept(s, s', t);
  }

  lemma SetFlagKept(n: nat, nid: NodeId, s: Shared, t: nat, s': Shared)
    requires n > 0 && Inv(n, nid, s) && Next(n, nid, s, SetFlag(t), s')
    ensures Inv(n, nid, s')
  {
    if s.threads[t].pc.cnt < NeedPrepares(n, nid) {
      TooFewKept(n, nid, s, t, s');
    } else {
      SetFlagFacts(n, nid, s, t, s');
      FlagsAfter(n, nid, s, t, s');
    }
  }

  lemma TooFewKept(n: nat, nid: NodeId, s: Shared, t: nat, s': Shared)
    requires n > 0 && Inv(n, nid, s) && Next(n, nid, s, SetFlag(t), s') && s.threads[t].pc.cnt < NeedPrepares(n, nid)
    ensures Inv(n, nid, s')
  {
    assert ThreadOk(n, nid, s, s.threads[t]);
    QuietMove(n, nid, s, s', t);
  }

  lemma SendFacts(n: nat, nid: NodeId, s: Shared, t: nat, s': Shared)
    requires n > 0 && Next(n, nid, s, Send(t), s')
    ensures Moves(s, s', t) && s'.node == s.node && s.threads[t].pc.Flagged?
    ensures s'.threads[t].pc == Sent(s.threads[t].pc.cnt)
    ensures forall d :: s'.broadcasts[d] == s.broadcasts[d] + if d == s.threads[t].Digest() then 1 else 0
  {
  }

  lemma SentAfter(n: nat, nid: NodeId, s: Shared, t: nat, s': Shared)
    requires n > 0 && Inv(n, nid, s) && Moves(s, s', t) && s'.node == s.node
    requires s.threads[t].pc.Flagged? && s'.threads[t].pc == Sent(s.threads[t].pc.cnt)
    requires forall d :: s'.broadcasts[d] == s.broadcasts[d] + if d == s.threads[t].Digest() then 1 else 0
    ensures Inv(n, nid, s')
  {
    assert ThreadOk(n, nid, s, s.threads[t]);
    OthersOk(n, nid, s, s', t);
    SameCount(s, s', t);
    AllOwned(s, s', t);
    assert Is(s', t, s.threads[t].Digest());
    SentKept(s, s', t);
    AccountedKept(s, s', t);
  }

  lemma SendKept(n: nat, nid: NodeId, s: Shared, t: nat, s': Shared)
    requires n > 0 && Inv(n, nid, s) && Next(n, nid, s, Send(t), s')
    ensures Inv(n, nid, s')
  {
    SendFacts(n, nid, s, t, s');
    SentAfter(n, nid, s, t, s');
  }

  lemma ArriveKept(n: nat, nid: NodeId, s: Shared, m: PbftMessage, s': Shared)
    requires n > 0 && Inv(n, nid, s) && Next(n, nid, s, Arrive(m), s')
    ensures Inv(n, nid, s')
  {
    forall r | 0 <= r < |s'.threads|
      ensures ThreadOk(n, nid, s', s'.threads[r])
    {
      if r < |s.threads| {
        assert ThreadOk(n, nid, s, s.threads[r]);
      }
    }
    StayKept(s, s');
  }

  lemma OtherKept(n: nat, nid: NodeId, s: Shared, node: PbftState, s': Shared)
    requires n > 0 && Inv(n, nid, s) && Next(n, nid, s, Other(node), s')
    ensures Inv(n, nid, s')
  {
    forall r | 0 <= r < |s'.threads|
      ensures ThreadOk(n, nid, s', s'.threads[r])
    {
      assert ThreadOk(n, nid, s, s.threads[r]);
    }
    StayKept(s, s');
  }

  lemma StayKept(s: Shared, s': Shared)
    requires s.threads <= s'.threads && s'.broadcasts == s.broadcasts && FlagsOwned(s) && AllSent(s)
    requires forall d :: FactsOf(s'.node, d).flag ==> FactsOf(s.node, d).flag
    requires |s'.threads| <= |s.threads| + 1
    requires forall t :: |s.threads| <= t < |s'.threads| ==> s'.threads[t].pc.Arrived?
    requires AllAccounted(s) && forall d :: FactsOf(s'.node, d).prepares == FactsOf(s.node, d).prepares
    ensures FlagsOwned(s') && AllSent(s') && AllAccounted(s')
  {
    forall d
      ensures Counters(s', d) == Counters(s, d) && Senders(s', d) == Senders(s, d)
    {
    }
    forall d | FactsOf(s'.node, d).flag
      ensures FlagOwned(s', d)
    {
      if d !in s.broadcasts {
        var r :| Is(s, r, d) && s.threads[r].pc.Flagged?;
        assert Is(s', r, d);
      }
    }
    forall d | d in s'.broadcasts
      ensures SentBy(s', d)
    {
      var r :| Is(s, r, d) && s.threads[r].pc.Sent?;
      assert Is(s', r, d);
    }
  }

  lemma ReadKept(n: nat, nid: NodeId, s: Shared, step: Step, s': Shared)
    requires n > 0 && Inv(n, nid, s) && Next(n, nid, s, step, s') && (step.ReadRound? || step.ReadFlag?)
    ensures Inv(n, nid, s')
  {
    QuietMove(n, nid, s, s', step.t);
  }

  lemma InvNext(n: nat, nid: NodeId, s: Shared, step: Step, s': Shared)
    requires n > 0 && Inv(n, nid, s) && Next(n, nid, s, step, s')
    ensures Inv(n, nid, s')
  {
    match step
    case Arrive(m) => ArriveKept(n, nid, s, m, s');
    case ReadRound(_) => ReadKept(n, nid, s, step, s');
    case ReadFlag(_) => ReadKept(n, nid, s, step, s');
    case Increment(t) => IncrementKept(n, nid, s, t, s');
    case SetFlag(t) => SetFlagKept(n, nid, s, t, s');
    case Send(t) => SendKept(n, nid, s, t, s');
    case Other(node) => OtherKept(n, nid, s, node, s');
  }

  lemma {:induction false} InvRun(n: nat, nid: NodeId, run: seq<Shared>, steps: seq<Step>, k: nat)
    requires n > 0 && IsRun(n, nid, run, steps) && k <= |steps|
    ensures Inv(n, nid, run[k])
  {
    if k == 0 {
      InvInit(n, nid, run[0]);
    } else {
      InvRun(n, nid, run, steps, k - 1);
      InvNext(n, nid, run[k - 1], steps[k - 1], run[k - 1 + 1]);
      assert run[k - 1 + 1] == run[k];
    }
  }

  // ----- The threshold ---------------------------------------------------------------------------------------------

  /** A commit is never broadcast before enough prepares were counted. */
  lemma NeverEarly(n: nat, nid: NodeId, run: seq<Shared>, steps: seq<Step>, k: nat, d: Digest)
    requires n > 0 && IsRun(n, nid, run, steps) && k <= |steps| && d in run[k].broadcasts
    ensures FactsOf(run[k].node, d).prepares >= NeedPrepares(n, nid)
  {
    InvRun(n, nid, run, steps, k);
    assert SentBy(run[k], d);
    var t :| Is(run[k], t, d) && run[k].threads[t].pc.Sent?;
    assert ThreadOk(n, nid, run[k], run[k].threads[t]);
  }

  /** The prepares of d that were handled to the end and not dropped as outdated. */
  function Handled(s: Shared, d: Digest): set<nat> {
    set t: nat | t < |s.threads| && s.threads[t].Digest() == d && s.threads[t].Ended() && !s.threads[t].pc.Outdated?
  }

  function Seen(s: Shared, ts: set<nat>): set<nat>
    requires forall t :: t in ts ==> t < |s.threads|
  {
    set t | t in ts :: CountSeen(s.threads[t].pc)
  }

  lemma DifferentCounts(s: Shared, d: Digest, t: nat, r: nat)
    requires CountsDiffer(s) && t < |s.threads| && r < |s.threads| && t != r
    requires s.threads[t].Digest() == d && s.threads[r].Digest() == d
    requires HasCounted(s.threads[t].pc) && HasCounted(s.threads[r].pc)
    ensures CountSeen(s.threads[t].pc) != CountSeen(s.threads[r].pc)
  {
    assert CountedBoth(s.threads[t], s.threads[r]) && CountedBoth(s.threads[r], s.threads[t]);
  }

  /** Goroutines that counted saw different counts. */
  lemma {:induction false} SeenSize(s: Shared, d: Digest, ts: set<nat>)
    requires CountsDiffer(s)
    requires forall t :: t in ts ==> t < |s.threads| && s.threads[t].Digest() == d && HasCounted(s.threads[t].pc)
    ensures |Seen(s, ts)| == |ts|
  {
    if ts != {} {
      var t :| t in ts;
      SeenSize(s, d, ts - {t});
      assert Seen(s, ts) == Seen(s, ts - {t}) + {CountSeen(s.threads[t].pc)};
      forall r | r in ts - {t}
        ensures CountSeen(s.threads[r].pc) != CountSeen(s.threads[t].pc)
      {
        DifferentCounts(s, d, r, t);
      }
    }
  }

  /** While the flag is not set, fewer than enough were handled. */
  lemma HandledTooFew(n: nat, nid: NodeId, s: Shared, d: Digest)
    requires n > 0 && Inv(n, nid, s) && NeedPrepares(n, nid) >= 1 && !FactsOf(s.node, d).flag
    ensures |Handled(s, d)| <= NeedPrepares(n, nid) - 1
  {
    forall t | t in Handled(s, d)
      ensures s.threads[t].pc.TooFew? && 1 <= s.threads[t].pc.cnt < NeedPrepares(n, nid)
    {
      assert ThreadOk(n, nid, s, s.threads[t]);
    }
    SeenSize(s, d, Handled(s, d));
    var smaller := Ids(NeedPrepares(n, nid)) - {0};
    assert Ids(NeedPrepares(n, nid)) == smaller + {0};
    SubsetSize(Seen(s, Handled(s, d)), smaller);
  }

  /** Once as many prepares as are needed were handled to the end, and not dropped as outdated, the commit has been
      broadcast, or some goroutine has set the flag and is about to broadcast it: no early return loses it. */
  lemma NotLost(n: nat, nid: NodeId, run: seq<Shared>, steps: seq<Step>, k: nat, d: Digest)
    requires n > 0 && IsRun(n, nid, run, steps) && k <= |steps|
    requires NeedPrepares(n, nid) >= 1 && |Handled(run[k], d)| >= NeedPrepares(n, nid)
    ensures d in run[k].broadcasts || exists t :: Is(run[k], t, d) && run[k].threads[t].pc.Flagged?
  {
    InvRun(n, nid, run, steps, k);
    if !FactsOf(run[k].node, d).flag {
      HandledTooFew(n, nid, run[k], d);
    }
  }

  /** So if all goroutines have returned it has been broadcast. */
  lemma BroadcastWhenIdle(n: nat, nid: NodeId, run: seq<Shared>, steps: seq<Step>, k: nat, d: Digest)
    requires n > 0 && IsRun(n, nid, run, steps) && k <= |steps|
    requires NeedPrepares(n, nid) >= 1 && |Handled(run[k], d)| >= NeedPrepares(n, nid)
    requires forall t :: 0 <= t < |run[k].threads| ==> run[k].threads[t].Ended()
    ensures d in run[k].broadcasts
  {
    NotLost(n, nid, run, steps, k, d);
  }

  // ----- How often the commit is broadcast -------------------------------------------------------------------------

  function Max(a: int, b: int): int {
    if a < b then b else a
  }

  /** The goroutines that counted enough, so that they broadcast. */
  function Enough(n: nat, nid: NodeId, s: Shared, d: Digest): (ts: set<nat>)
    requires n > 0
    ensures ts <= Counters(s, d)
  {
    set t | t in Counters(s, d) && CountSeen(s.threads[t].pc) >= NeedPrepares(n, nid)
  }

  /** The counts seen are 1, 2, ... up to the number of prepares counted. */
  lemma CountsAreAll(n: nat, nid: NodeId, s: Shared, d: Digest)
    requires n > 0 && Inv(n, nid, s)
    ensures Seen(s, Counters(s, d)) == Ids(FactsOf(s.node, d).prepares + 1) - Ids(1)
  {
    var p := FactsOf(s.node, d).prepares;
    var all := Ids(p + 1) - Ids(1);
    forall t | t in Counters(s, d)
      ensures CountSeen(s.threads[t].pc) in all
    {
      assert ThreadOk(n, nid, s, s.threads[t]);
    }
    SeenSize(s, d, Counters(s, d));
    assert Ids(p + 1) == all + Ids(1);
    SubsetSize(Seen(s, Counters(s, d)), all);
  }

  function Range(least: nat, p: nat): (counts: set<nat>)
    ensures forall c: nat :: c in counts <==> least <= c <= p
  {
    Ids(p + 1) - Ids(least)
  }

  lemma RangeSize(least: nat, p: nat)
    ensures |Range(least, p)| == Max(0, p - least + 1)
  {
    if least <= p {
      assert Ids(p + 1) == Range(least, p) + Ids(least);
    } else {
      assert Range(least, p) == {};
    }
  }

  /** Among the goroutines that counted enough are all counts from the first such count on, and no others. */
  lemma EnoughSeen(n: nat, nid: NodeId, s: Shared, d: Digest)
    requires n > 0 && Inv(n, nid, s)
    ensures Seen(s, Enough(n, nid, s, d)) == Range(Max(NeedPrepares(n, nid), 1), FactsOf(s.node, d).prepares)
  {
    CountsAreAll(n, nid, s, d);
    var p, least := FactsOf(s.node, d).prepares, Max(NeedPrepares(n, nid), 1);
    var enough := Enough(n, nid, s, d);
    forall c | c in Range(least, p)
      ensures c in Seen(s, enough)
    {
      assert c in Seen(s, Counters(s, d));
      var t :| t in Counters(s, d) && CountSeen(s.threads[t].pc) == c;
      assert t in enough;
    }
    forall c | c in Seen(s, enough)
      ensures c in Range(least, p)
    {
      assert c in Seen(s, Counters(s, d));
    }
  }

  lemma EnoughSize(n: nat, nid: NodeId, s: Shared, d: Digest)
    requires n > 0 && Inv(n, nid, s)
    ensures |Enough(n, nid, s, d)| == Max(0, FactsOf(s.node, d).prepares - Max(NeedPrepares(n, nid), 1) + 1)
  {
    EnoughSeen(n, nid, s, d);
    SeenSize(s, d, Enough(n, nid, s, d));
    RangeSize(Max(NeedPrepares(n, nid), 1), FactsOf(s.node, d).prepares);
  }

  ghost predicate AllEnded(s: Shared) {
    forall t :: 0 <= t < |s.threads| ==> s.threads[t].Ended()
  }

  lemma SendersCountedEnough(n: nat, nid: NodeId, s: Shared, d: Digest)
    requires n > 0 && Inv(n, nid, s)
    ensures Senders(s, d) <= Enough(n, nid, s, d)
    ensures AllEnded(s) ==> Senders(s, d) == Enough(n, nid, s, d)
  {
    forall t | t in Counters(s, d)
      ensures t in Senders(s, d) ==> t in Enough(n, nid, s, d)
      ensures AllEnded(s) && t in Enough(n, nid, s, d) ==> t in Senders(s, d)
    {
      assert ThreadOk(n, nid, s, s.threads[t]);
    }
    assert Senders(s, d) <= Counters(s, d);
  }

  /** At any time there is at most one broadcast for every prepare counted from the last one needed on, and when all
      goroutines have returned there is exactly one. */
  lemma BroadcastCount(n: nat, nid: NodeId, run: seq<Shared>, steps: seq<Step>, k: nat, d: Digest)
    requires n > 0 && IsRun(n, nid, run, steps) && k <= |steps|
    ensures (var most := Max(0, FactsOf(run[k].node, d).prepares - Max(NeedPrepares(n, nid), 1) + 1);
      run[k].broadcasts[d] <= most && (AllEnded(run[k]) ==> run[k].broadcasts[d] == most))
  {
    InvRun(n, nid, run, steps, k);
    EnoughSize(n, nid, run[k], d);
    SendersCountedEnough(n, nid, run[k], d);
    SubsetSize(Senders(run[k], d), Enough(n, nid, run[k], d));
  }

  /** The goroutines for d that got past the flag: they neither were outdated nor found it set. */
  function PastFlag(s: Shared, d: Digest): set<nat> {
    set t: nat |
      t < |s.threads| && s.threads[t].Digest() == d && !s.threads[t].pc.Outdated? && !s.threads[t].pc.SawFlag?
  }

  /** When all goroutines have returned, the commit was broadcast at most once if and only if no more of them got past
      the flag than prepares were needed. */
  lemma SentOnceExactly(n: nat, nid: NodeId, run: seq<Shared>, steps: seq<Step>, k: nat, d: Digest)
    requires n > 0 && IsRun(n, nid, run, steps) && k <= |steps| && AllEnded(run[k])
    ensures run[k].broadcasts[d] <= 1 <==> |PastFlag(run[k], d)| <= Max(NeedPrepares(n, nid), 1)
  {
    InvRun(n, nid, run, steps, k);
    BroadcastCount(n, nid, run, steps, k, d);
    assert PastFlag(run[k], d) == Counters(run[k], d);
  }

  // ----- What interleaving does break ------------------------------------------------------------------------------

  const EXAMPLE := PbftMessage(PbftRequest("d", "x"), 0)

  /** A state of two goroutines with the same prepare, on a node that knows cnt prepares of it. */
  function Two(cnt: nat, flag: bool, a: Pc, b: Pc, sent: nat): Shared {
    Shared(PbftState([], map["d" := RequestInfo(EXAMPLE.req, cnt, 0, flag, false)], 0),
           [Thread(EXAMPLE, a), Thread(EXAMPLE, b)], multiset{}["d" := sent])
  }

  /** The states node 1 of 4, which needs one prepare, can get into. */
  ghost predicate Reachable(s: Shared) {
    exists run, steps :: IsRun(4, 1, run, steps) && run[|steps|] == s
  }

  lemma Reaches(s: Shared, step: Step, s': Shared)
    requires Reachable(s) && Next(4, 1, s, step, s')
    ensures Reachable(s')
  {
    var run, steps :| IsRun(4, 1, run, steps) && run[|steps|] == s;
    var run', steps' := run + [s'], steps + [step];
    assert IsRun(4, 1, run', steps') && run'[|steps'|] == s';
  }

  /** Both goroutines have arrived at a node that only knows the pre-prepare. */
  lemma TwoArrive()
    ensures Reachable(Two(0, false, Arrived, Arrived, 0))
  {
    var s := Two(0, false, Arrived, Arrived, 0);
    var none, one := s.(threads := []), s.(threads := [Thread(EXAMPLE, Arrived)]);
    var run, steps := [none], [];
    assert IsRun(4, 1, run, steps) && run[|steps|] == none;
    Reaches(none, Arrive(EXAMPLE), one);
    Reaches(one, Arrive(EXAMPLE), s);
  }

  lemma FirstStarts(cnt: nat, flag: bool, b: Pc)
    requires Reachable(Two(cnt, flag, Arrived, b, 0)) && !flag
    ensures Reachable(Two(cnt, flag, Unflagged, b, 0))
  {
    Reaches(Two(cnt, flag, Arrived, b, 0), ReadRound(0), Two(cnt, flag, InRound, b, 0));
    Reaches(Two(cnt, flag, InRound, b, 0), ReadFlag(0), Two(cnt, flag, Unflagged, b, 0));
  }

  lemma SecondStarts(cnt: nat, flag: bool, a: Pc)
    requires Reachable(Two(cnt, flag, a, Arrived, 0))
    ensures Reachable(Two(cnt, flag, a, if flag then SawFlag else Unflagged, 0))
  {
    Reaches(Two(cnt, flag, a, Arrived, 0), ReadRound(1), Two(cnt, flag, a, InRound, 0));
    Reaches(Two(cnt, flag, a, InRound, 0), ReadFlag(1), Two(cnt, flag, a, if flag then SawFlag else Unflagged, 0));
  }

  lemma FirstCounts(b: Pc)
    requires Reachable(Two(0, false, Unflagged, b, 0))
    ensures Reachable(Two(1, false, Counted(1), b, 0))
  {
    Reaches(Two(0, false, Unflagged, b, 0), Increment(0), Two(1, false, Counted(1), b, 0));
  }

  lemma FirstSetsFlag(cnt: nat, b: Pc)
    requires Reachable(Two(cnt, false, Counted(1), b, 0))
    ensures Reachable(Two(cnt, true, Flagged(1), b, 0))
  {
    Reaches(Two(cnt, false, Counted(1), b, 0), SetFlag(0), Two(cnt, true, Flagged(1), b, 0));
  }

  lemma BothSend()
    requires Reachable(Two(2, true, Flagged(1), Flagged(2), 0))
    ensures Reachable(Two(2, true, Sent(1), Sent(2), 2))
  {
    Reaches(Two(2, true, Flagged(1), Flagged(2), 0), Send(0), Two(2, true, Sent(1), Flagged(2), 1));
    Reaches(Two(2, true, Sent(1), Flagged(2), 1), Send(1), Two(2, true, Sent(1), Sent(2), 2));
  }

  /** Two goroutines that read the flag before either sets it both broadcast the commit. */
  lemma CommitBroadcastTwice()
    ensures exists s :: Reachable(s) && s.broadcasts["d"] == 2
  {
    TwoArrive();
    FirstStarts(0, false, Arrived);
    SecondStarts(0, false, Unflagged);
    FirstCounts(Unflagged);
    Reaches(Two(1, false, Counted(1), Unflagged, 0), Increment(1), Two(2, false, Counted(1), Counted(2), 0));
    FirstSetsFlag(2, Counted(2));
    Reaches(Two(2, true, Flagged(1), Counted(2), 0), SetFlag(1), Two(2, true, Flagged(1), Flagged(2), 0));
    BothSend();
    assert Two(2, true, Sent(1), Sent(2), 2).broadcasts["d"] == 2;
  }

  /** And enough prepares can have been handled to the end while the broadcast is still to come: NotLost cannot
      promise more than it does. */
  lemma HandledBeforeBroadcast()
    ensures NeedPrepares(4, 1) == 1
    ensures exists s :: Reachable(s) && |Handled(s, "d")| >= 1 && "d" !in s.broadcasts
  {
    TwoArrive();
    FirstStarts(0, false, Arrived);
    FirstCounts(Arrived);
    FirstSetsFlag(1, Arrived);
    SecondStarts(1, true, Flagged(1));
    var s := Two(1, true, Flagged(1), SawFlag, 0);
    assert 1 in Handled(s, "d");
  }
}
