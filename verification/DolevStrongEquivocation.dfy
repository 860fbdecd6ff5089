/** Exactly when Dolev-Strong decisions agree although the view node may equivocate.  With f = 0 they are made at tick
    1, and then what the nodes told each other at the end of the first tick has not arrived. */
module DolevStrongEquivocation {

  import opened Common
  import opened DolevStrong
  import opened DolevStrongAgreement
  import opened DolevStrongRuns
  import opened Network

  const LEFT: Value := "left"

  const RIGHT: Value := "right"

  function Offer(i: NodeId, v: Value): Proposal {
    Proposal(i, Request(v, Single(VIEW, v)))
  }

  /** The view node proposes different values to nodes i and j, and nothing to the others. */
  function Split(c: Config, active: set<NodeId>, i: NodeId, j: NodeId): Setup {
    Setup(c, active, multiset{Offer(i, LEFT), Offer(j, RIGHT)})
  }

  ghost predicate Reachable(u: Setup, s: DSNet) {
    exists run, steps :: IsRun(u, run, steps) && run[|steps|] == s
  }

  lemma Reaches(u: Setup, s: DSNet, step: Step, s': DSNet)
    requires Reachable(u, s) && Next(u, s, step, s')
    ensures Reachable(u, s')
  {
    var run, steps :| IsRun(u, run, steps) && run[|steps|] == s;
    var run', steps' := run + [s'], steps + [step];
    assert IsRun(u, run', steps') && run'[|steps'|] == s';
  }

  /** Nothing has happened but the clock. */
  function Waiting(u: Setup, now: nat): DSNet {
    DSNet(now, seq(u.c.nodeNum, i => DSState({}, "")), u.sent, multiset{}, u.active)
  }

  lemma {:induction false} WaitingReached(u: Setup, t: nat)
    requires u.Valid() && t < u.c.tickInterval
    ensures Reachable(u, Waiting(u, t))
  {
    if t == 0 {
      var run, steps := [Waiting(u, 0)], [];
      assert IsRun(u, run, steps) && run[|steps|] == Waiting(u, 0);
    } else {
      WaitingReached(u, t - 1);
      AtMonotone(u.c, 1, u.c.malicious + 1);
      Reaches(u, Waiting(u, t - 1), Tick, Waiting(u, t));
    }
  }

  /** A node takes in its proposal and tells the others. */
  lemma Takes(u: Setup, s: DSNet, q: Proposal) returns (s': DSNet)
    requires Typed(u, s) && Reachable(u, s) && q in s.proposals && q.dst in u.active
    requires s.nodes[q.dst] == DSState({}, "")
    ensures Typed(u, s') && Reachable(u, s') && s'.now == s.now && s'.pending == s.pending
    ensures s'.nodes == s.nodes[q.dst := DSState({q.req.content}, "")] && s'.proposals == s.proposals - multiset{q}
    ensures forall p :: p in s'.forwards ==> p in s.forwards || p.sentAt == s.now
  {
    s' := Apply(u, s, Propose(q));
    var o := OnPropose(u.c, q.dst, s.now, s.nodes[q.dst], q.req);
    assert o.state == DSState({q.req.content}, "");
    Reaches(u, s, Propose(q), s');
  }

  lemma Decides(u: Setup, s: DSNet, i: NodeId, v: Value) returns (s': DSNet)
    requires Typed(u, s) && Reachable(u, s) && i in s.pending && CommitTime(u.c) <= s.now && s.nodes[i].extrSet == {v}
    ensures Typed(u, s') && Reachable(u, s') && s'.now == s.now && s'.pending == s.pending - {i}
    ensures s'.nodes == s.nodes[i := DSState({v}, v)]
  {
    s' := Apply(u, s, Fire(i));
    assert |{v}| == 1;
    Reaches(u, s, Fire(i), s');
  }

  /** Both nodes have taken in their proposals at time t. */
  lemma BothTake(u: Setup, t: nat, i: NodeId, j: NodeId) returns (s: DSNet)
    requires u == Split(u.c, u.active, i, j) && u.Valid() && i in u.active && j in u.active && i != j
    requires t < u.c.tickInterval
    ensures Typed(u, s) && Reachable(u, s) && s.now == t && s.pending == u.active && s.proposals == multiset{}
    ensures s.nodes[i].extrSet == {LEFT} && s.nodes[j].extrSet == {RIGHT}
    ensures forall p :: p in s.forwards ==> p.sentAt == t
  {
    WaitingReached(u, t);
    var s1 := Takes(u, Waiting(u, t), Offer(i, LEFT));
    s := Takes(u, s1, Offer(j, RIGHT));
  }

  /** Both decide. */
  lemma BothDecide(u: Setup, s: DSNet, i: NodeId, j: NodeId) returns (s': DSNet)
    requires Typed(u, s) && Reachable(u, s) && i in s.pending && j in s.pending && i != j && CommitTime(u.c) <= s.now
    requires s.nodes[i].extrSet == {LEFT} && s.nodes[j].extrSet == {RIGHT}
    ensures Typed(u, s') && Reachable(u, s') && i !in s'.pending && j !in s'.pending
    ensures s'.nodes[i].commitValue == LEFT && s'.nodes[j].commitValue == RIGHT
  {
    var s1 := Decides(u, s, i, LEFT);
    s' := Decides(u, s1, j, RIGHT);
  }

  /** Node i has decided in s, node j in t, and differently. */
  ghost predicate Disagree(u: Setup, s: DSNet, t: DSNet, i: NodeId, j: NodeId) {
    && Typed(u, s) && Typed(u, t) && i in u.active && j in u.active && i !in s.pending && j !in t.pending
    && s.nodes[i].commitValue != t.nodes[j].commitValue
  }

  /** Whatever the view node proposes to whom, in no run do two decisions of active nodes other than it differ. */
  ghost predicate AlwaysAgree(c: Config, active: set<NodeId>) {
    forall u: Setup, run, steps, k: nat, l: nat, i, j ::
      && u.c == c && u.active == active && IsRun(u, run, steps) && k <= |steps| && l <= |steps|
      && i != VIEW && j != VIEW
      ==> !Disagree(u, run[k], run[l], i, j)
  }

  /** With f = 0 and a tick longer than one unit of time two nodes can decide differently: both get their proposal at
      the end of tick 0. */
  lemma NoFaultToleratedBreaks(c: Config, active: set<NodeId>, i: NodeId, j: NodeId)
    requires Split(c, active, i, j).Valid() && c.malicious == 0 && c.tickInterval >= 2
    requires i in active && j in active && i != j && i != VIEW && j != VIEW
    ensures !AlwaysAgree(c, active)
  {
    var u := Split(c, active, i, j);
    var s := BothTake(u, c.tickInterval - 1, i, j);
    var ticked := s.(now := c.tickInterval);
    Reaches(u, s, Tick, ticked);
    var s' := BothDecide(u, ticked, i, j);
    assert LEFT[0] != RIGHT[0];
    var run, steps :| IsRun(u, run, steps) && run[|steps|] == s';
    assert Disagree(u, run[|steps|], run[|steps|], i, j);
  }

  lemma Agrees(u: Setup, run: seq<DSNet>, steps: seq<Step>, k: nat, l: nat, i: NodeId, j: NodeId)
    requires IsRun(u, run, steps) && k <= |steps| && l <= |steps| && i != VIEW && j != VIEW
    requires u.c.malicious >= 1 || u.c.tickInterval == 1 || |u.active - {VIEW}| <= 1
    ensures !Disagree(u, run[k], run[l], i, j)
  {
    if Disagree(u, run[k], run[l], i, j) {
      if Resilient(u) {
        CommitAgreement(u, run, steps, k, l, i, j);
      } else {
        SubsetSize({i, j}, u.active - {VIEW});
        var m := if k < l then l else k;
        DecisionKept(u, run, steps, k, m, i);
        DecisionKept(u, run, steps, l, m, j);
      }
    }
  }

  /** The decisions of all runs agree if and only if a fault is tolerated, or a tick is a single unit of time, or
      there is at most one node to decide besides the view node. */
  lemma AgreementExactly(c: Config, active: set<NodeId>)
    requires c.Valid() && forall i :: i in active ==> i < c.nodeNum
    ensures AlwaysAgree(c, active) <==> c.malicious >= 1 || c.tickInterval == 1 || |active - {VIEW}| <= 1
  {
    if c.malicious >= 1 || c.tickInterval == 1 || |active - {VIEW}| <= 1 {
      forall u: Setup, run, steps, k: nat, l: nat, i, j |
        && u.c == c && u.active == active && IsRun(u, run, steps) && k <= |steps| && l <= |steps|
        && i != VIEW && j != VIEW
        ensures !Disagree(u, run[k], run[l], i, j)
      {
        Agrees(u, run, steps, k, l, i, j);
      }
    } else {
      var others := active - {VIEW};
      var i :| i in others;
      assert |others - {i}| >= 1;
      var j :| j in others - {i};
      NoFaultToleratedBreaks(c, active, i, j);
    }
  }
}
