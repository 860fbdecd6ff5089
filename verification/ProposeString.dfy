/** The proposer that drives the broadcast protocols (node/runningMod/consensusMod/proposeString.go): what it sends is
    what the protocol runs start from. */
module ProposeString {

  import opened Common
  import opened Network
  import DolevStrong
  import DS = DolevStrongRuns
  import DSA = DolevStrongAgreement
  import Tbb
  import TR = TbbRuns
  import TA = TbbAgreement

  const BAD: Value := "bad"

  /** The proposals of one turn, the view node's own copy included.  A malicious proposer handles its string itself,
      and sends "bad", under the signature on its string, to nodes 1 and 2, as far as there are such nodes. */
  function Proposals(n: nat, str: Value, malicious: bool): multiset<Proposal> {
    var sig := Single(VIEW, str);
    if malicious then
      multiset{Proposal(VIEW, Request(str, sig))}
      + (if 1 < n then multiset{Proposal(1, Request(BAD, sig))} else multiset{})
      + (if 2 < n then multiset{Proposal(2, Request(BAD, sig))} else multiset{})
    else
      ToAll(n, Request(str, sig))
  }

  function ToAll(n: nat, req: Request): multiset<Proposal> {
    multiset(set d | d in Ids(n) :: Proposal(d, req))
  }

  class ProposeStringAuxiliaryMod {
    var stringQueue: seq<Value>
    var consensusDone: nat

    constructor ()
      ensures stringQueue == [] && consensusDone == 0
    {
      stringQueue, consensusDone := [], 0;
    }

    method HandleInject(str: Value)
      modifies this`stringQueue
      ensures stringQueue == old(stringQueue) + [str]
    {
      stringQueue := stringQueue + [str];
    }

    /** A signal that finds the channel full is dropped. */
    method HandleConsensusDone()
      modifies this`consensusDone
      ensures consensusDone == if old(consensusDone) < 1 then old(consensusDone) + 1 else old(consensusDone)
    {
      if consensusDone < 1 {
        consensusDone := consensusDone + 1;
      }
    }

    /** One turn of the loop up to the wait for consensusDone.  The start time, startTimeWait after now, is broadcast
        to everybody and handled here; the proposals leave when it is reached. */
    method ProposeNext(n: nat, malicious: bool, now: int, startTimeWait: int)
      returns (startTime: Option<int>, leaveAt: int, sent: multiset<Proposal>)
      requires n > 0
      modifies this`stringQueue
      ensures old(stringQueue) == [] ==> stringQueue == [] && startTime == None && sent == multiset{}
      ensures old(stringQueue) != [] ==>
        && stringQueue == old(stringQueue)[1..] && sent == Proposals(n, old(stringQueue)[0], malicious)
        && startTime == Some(now + startTimeWait)
        && leaveAt >= startTime.value && (startTimeWait >= 0 ==> leaveAt == startTime.value)
    {
      startTime, leaveAt, sent := None, now, multiset{};
      if stringQueue == [] {
        return;
      }
      var str := stringQueue[0];
      stringQueue := stringQueue[1..];
      startTime := Some(now + startTimeWait);
      if startTimeWait > 0 {
        leaveAt := now + startTimeWait;
      }
      var sig := Single(VIEW, str);
      var own := Proposal(VIEW, Request(str, sig));
      if malicious {
        sent := multiset{own};
        if 1 < n {
          sent := sent + multiset{Proposal(1, Request(BAD, sig))};
        }
        if 2 < n {
          sent := sent + multiset{Proposal(2, Request(BAD, sig))};
        }
      } else {
        var copies := set d | d in Others(n, VIEW) :: Proposal(d, Request(str, sig));
        sent := multiset(copies) + multiset{own};
        assert (set d | d in Ids(n) :: Proposal(d, Request(str, sig))) == copies + {own};
        assert own !in copies;
      }
    }
  }

  // ----- What it means for the protocols ---------------------------------------------------------------------------

  lemma ToAllReaches(n: nat, req: Request)
    ensures forall q :: q in ToAll(n, req) <==> q.dst < n && q.req == req
  {
    assert forall q: Proposal | q.dst in Ids(n) && q.req == req :: q == Proposal(q.dst, req);
  }

  /** Either way the proposals are ones the protocol runs allow, and an honest proposer makes an honest view node. */
  lemma ProposalsAreASetup(c: Config, active: set<NodeId>, str: Value, malicious: bool)
    requires c.Valid() && forall i :: i in active ==> i < c.nodeNum
    ensures var u := Setup(c, active, Proposals(c.nodeNum, str, malicious));
      u.Valid() && u.Values() <= {str, BAD} && (!malicious ==> u.HonestView(str))
  {
    var u := Setup(c, active, Proposals(c.nodeNum, str, malicious));
    ToAllReaches(c.nodeNum, Request(str, Single(VIEW, str)));
    if !malicious {
      forall i | i in active
        ensures exists q :: q in u.sent && q.dst == i
      {
        assert Proposal(i, Request(str, Single(VIEW, str))) in u.sent;
      }
    }
  }

  /** With an honest proposer, every node that decides by Dolev-Strong decides on its string, and TBB commits nothing
      else. */
  lemma HonestProposerDecides(c: Config, active: set<NodeId>, str: Value,
                              run: seq<DS.DSNet>, steps: seq<DS.Step>, k: nat,
                              run': seq<TR.TbbNet>, steps': seq<TR.Step>, l: nat, i: NodeId, x: nat)
    requires c.Valid() && (forall j :: j in active ==> j < c.nodeNum) && i in active
    requires var u := Setup(c, active, Proposals(c.nodeNum, str, false));
      && DS.IsRun(u, run, steps) && k <= |steps| && i !in run[k].pending
      && TR.IsRun(u, run', steps') && l <= |steps'| && TA.Protected(c) && x < 3
    ensures |run[k].nodes| == |run'[l].locals| == c.nodeNum && |run'[l].locals[i].slots| == 3
    ensures run[k].nodes[i].commitValue == str
    ensures run'[l].locals[i].slots[x] in {"", str}
  {
    var u := Setup(c, active, Proposals(c.nodeNum, str, false));
    ProposalsAreASetup(c, active, str, false);
    DSA.CommitValidity(u, run, steps, k, i, str);
    TA.Validity(u, run', steps', l, i, x, str);
  }

  /** Who gets what, and how often. */
  lemma ProposalsExactly(n: nat, str: Value, malicious: bool, q: Proposal)
    requires n > 0
    ensures var sig := Single(VIEW, str);
      Proposals(n, str, malicious)[q] ==
        if malicious then
          if q == Proposal(VIEW, Request(str, sig)) || (q.dst in {1, 2} && q.dst < n && q.req == Request(BAD, sig))
          then 1 else 0
        else if q.dst < n && q.req == Request(str, sig) then 1 else 0
  {
    ToAllReaches(n, Request(str, Single(VIEW, str)));
    if !malicious {
      assert q in ToAll(n, Request(str, Single(VIEW, str))) <==> q.dst < n && q.req == Request(str, Single(VIEW, str));
    }
  }

  /** Node 1 or node 2 is active, so that "bad" gets around. */
  predicate BadArrives(active: set<NodeId>) {
    1 in active || 2 in active
  }

  lemma MaliciousOffers(c: Config, active: set<NodeId>, str: Value, i: NodeId)
    requires c.Valid() && (forall h :: h in active ==> h < c.nodeNum) && i in active
    ensures var offered := DSA.OfferedTo(Setup(c, active, Proposals(c.nodeNum, str, true)),
                                         DSA.Sources(Setup(c, active, Proposals(c.nodeNum, str, true)), i));
      offered == (if i == VIEW then {str} else {}) + (if BadArrives(active) then {BAD} else {})
  {
    var sent, sig := Proposals(c.nodeNum, str, true), Single(VIEW, str);
    assert Proposal(VIEW, Request(str, sig)) in sent;
    assert 1 in active ==> Proposal(1, Request(BAD, sig)) in sent;
    assert 2 in active ==> Proposal(2, Request(BAD, sig)) in sent;
  }

  /** With the malicious proposer, if a fault is tolerated, every other node decides "bad" by Dolev-Strong and the
      proposer "0", or, if neither node 1 nor node 2 is there to pass "bad" on, the others "0" and the proposer its
      string. */
  lemma MaliciousDecisions(c: Config, active: set<NodeId>, str: Value,
                           run: seq<DS.DSNet>, steps: seq<DS.Step>, k: nat, i: NodeId)
    requires c.Valid() && (forall h :: h in active ==> h < c.nodeNum) && i in active
    requires c.malicious >= 1 && str != BAD
    requires var u := Setup(c, active, Proposals(c.nodeNum, str, true));
      DS.IsRun(u, run, steps) && k <= |steps| && i !in run[k].pending
    ensures |run[k].nodes| == c.nodeNum
    ensures run[k].nodes[i].commitValue ==
      if i == VIEW then (if BadArrives(active) then "0" else str) else if BadArrives(active) then BAD else "0"
  {
    var u := Setup(c, active, Proposals(c.nodeNum, str, true));
    DSA.DecisionExactly(u, run, steps, k, i);
    MaliciousOffers(c, active, str, i);
    assert |{str, BAD}| == 2;
  }

  /** With the malicious proposer, if a fault is tolerated, all that decide by Dolev-Strong but the proposer decide
      alike. */
  lemma MaliciousProposerIsHarmless(c: Config, active: set<NodeId>, str: Value,
                                    run: seq<DS.DSNet>, steps: seq<DS.Step>, k: nat, i: NodeId, l: nat, j: NodeId)
    requires c.Valid() && (forall h :: h in active ==> h < c.nodeNum) && i in active && j in active
    requires c.malicious >= 1 && i != VIEW && j != VIEW
    requires var u := Setup(c, active, Proposals(c.nodeNum, str, true));
      && DS.IsRun(u, run, steps) && k <= |steps| && l <= |steps| && i !in run[k].pending && j !in run[l].pending
    ensures |run[k].nodes| == |run[l].nodes| == c.nodeNum
    ensures run[k].nodes[i].commitValue == run[l].nodes[j].commitValue
  {
    var u := Setup(c, active, Proposals(c.nodeNum, str, true));
    DSA.CommitAgreement(u, run, steps, k, l, i, j);
  }
}
