/** The handlers of 1Δ-BB* with BADS* embedded (node/runningMod/consensusMod/tbb/handler_1deltaBB.go). */
module DeltaBB {

  import opened Common

  datatype VoteContent = VoteContent(node: NodeId, content: Value, sig: Signature)

  datatype QCContent = QCContent(content: Value, sig: Signature)

  /** Messages of BADS*; the list of nodes of an aggregate signature is [-1]. */
  datatype InputList = InputList(input: Value, sigs: seq<Signature>, nodes: seq<int>)

  type Signed = map<Value, set<Signature>>

  /** trigger is the number of items in the channel CommitPoint1Trigger. */
  datatype DbbState = DbbState(proposeSet: set<Value>, voteMap: Signed, qcMap: map<Value, Signature>,
                               blckSet: set<Value>, baProposeMap: Signed, baBlckSet: set<Value>,
                               trigger: nat, isCommit: bool, commitValue: Value)

  const CLEARED := DbbState({}, map[], map[], {}, map[], {}, 0, false, "")

  const TRIGGER_CAPACITY: nat := 1

  /** The new state and what is broadcast to all other nodes. */
  datatype Outcome<M> = Outcome(state: DbbState, sent: Option<M>)

  function Signers(m: Signed, v: Value): set<Signature> {
    if v in m then m[v] else {}
  }

  function Sign(m: Signed, v: Value, sig: Signature): (r: Signed)
    ensures r.Keys == m.Keys + {v}
    ensures forall w :: Signers(r, w) == Signers(m, w) + if w == v then {sig} else {}
  {
    m[v := Signers(m, v) + {sig}]
  }

  /** How every handler does it: an entry is made for a new value, then the signature is added. */
  method AddSignature(m: Signed, v: Value, sig: Signature) returns (r: Signed)
    ensures r == Sign(m, v, sig)
  {
    r := m;
    if v !in r {
      r := r[v := {}];
    }
    r := r[v := r[v] + {sig}];
  }

  // ----- What the handlers compute ---------------------------------------------------------------------------------

  function OnPropose(nid: NodeId, s: DbbState, req: Request): Outcome<Request> {
    Outcome(s.(proposeSet := s.proposeSet + {req.content}), if nid != VIEW then Some(req) else None)
  }

  function OnForward1(s: DbbState, req: Request): DbbState {
    s.(proposeSet := s.proposeSet + {req.content})
  }

  /** A node votes if it has seen one value only; its own vote is counted without a quorum test. */
  function OnVoteTimer(nid: NodeId, s: DbbState): Outcome<VoteContent> {
    if |s.proposeSet| == 1 then
      var v := TheOnly(s.proposeSet);
      var sig := Single(nid, v);
      Outcome(s.(voteMap := Sign(s.voteMap, v, sig)), Some(VoteContent(nid, v, sig)))
    else
      Outcome(s, None)
  }

  /** Making the certificate; commit point 1 is reached when it is the node's first one and it is not yet tick 3. */
  function Certify(c: Config, elapsed: nat, s: DbbState, v: Value): Outcome<QCContent> {
    var qc := QCContent(v, Aggregate(Signers(s.voteMap, v)));
    var r := s.(qcMap := s.qcMap[v := qc.sig], blckSet := s.blckSet + {v});
    if |r.blckSet| == 1 && elapsed < c.At(3) then
      Outcome(r.(commitValue := v, isCommit := true, trigger := r.trigger + 1), Some(qc))
    else
      Outcome(r, None)
  }

  /** A certificate is made when the number of votes is exactly the quorum. */
  function OnVote(c: Config, elapsed: nat, s: DbbState, vote: VoteContent): Outcome<QCContent> {
    var t := s.(voteMap := Sign(s.voteMap, vote.content, vote.sig));
    if |Signers(t.voteMap, vote.content)| != c.Quorum() || vote.content in s.qcMap then
      Outcome(t, None)
    else
      Certify(c, elapsed, t, vote.content)
  }

  /** The node's input to BADS*. */
  function Input(s: DbbState): Value {
    if |s.blckSet| == 1 then TheOnly(s.blckSet) else "0"
  }

  function OnBAStart(nid: NodeId, s: DbbState): Outcome<InputList> {
    var sig := Single(nid, Input(s));
    Outcome(s.(baProposeMap := Sign(s.baProposeMap, Input(s), sig)), Some(InputList(Input(s), [sig], [nid])))
  }

  /** Before tick 5 the first signature of a list is read; an empty list would crash the handler then. */
  predicate Readable(c: Config, elapsed: nat, m: InputList) {
    elapsed < c.At(5) ==> |m.sigs| > 0
  }

  /** Before tick 5 signatures are collected, and a full quorum is left to be broadcast at tick 6 (later); from tick 5
      on lists are flooded as in Dolev-Strong, with the same wait loop. */
  function OnForward2(c: Config, elapsed: nat, nid: NodeId, s: DbbState, m: InputList)
    : (r: (Outcome<InputList>, Option<InputList>))
    requires c.Valid() && Readable(c, elapsed, m)
  {
    if elapsed < c.At(5) then
      var t := s.(baProposeMap := Sign(s.baProposeMap, m.input, m.sigs[0]));
      var sigs := Signers(t.baProposeMap, m.input);
      (Outcome(t, None), if |sigs| == c.Quorum() then Some(InputList(m.input, [Aggregate(sigs)], [-1])) else None)
    else if m.input in s.baBlckSet then
      (Outcome(s, None), None)
    else
      (Outcome(s.(baBlckSet := s.baBlckSet + {m.input}),
         if c.TickOf(elapsed) - 5 < |m.sigs|
         then Some(InputList(m.input, m.sigs + [Single(nid, m.input)], m.nodes + [nid]))
         else None), None)
  }

  /** At tick f + 6. */
  function OnFinalTimer(s: DbbState): DbbState {
    if s.isCommit then s
    else s.(commitValue := if |s.baBlckSet| == 1 then TheOnly(s.baBlckSet) else "0")
  }

  // ----- The module ------------------------------------------------------------------------------------------------

  class DeltaBBConsensusMod {
    const nid: NodeId
    var voteMap: Signed
    var qcMap: map<Value, Signature>
    const proposeSet: StringSet
    const blckSet: StringSet
    var baProposeMap: Signed
    const baBlckSet: StringSet
    var commitPoint1Trigger: nat
    var isCommit: bool
    var commitValue: Value

    ghost const Sets: set<StringSet> := {proposeSet, blckSet, baBlckSet}

    ghost predicate Valid() {
      proposeSet != blckSet && blckSet != baBlckSet && proposeSet != baBlckSet
    }

    function State(): DbbState
      reads this, proposeSet, blckSet, baBlckSet
    {
      DbbState(proposeSet.data, voteMap, qcMap, blckSet.data, baProposeMap, baBlckSet.data,
        commitPoint1Trigger, isCommit, commitValue)
    }

    constructor (nid: NodeId)
      ensures Valid() && State() == CLEARED && this.nid == nid
      ensures fresh(proposeSet) && fresh(blckSet) && fresh(baBlckSet)
    {
      this.nid := nid;
      voteMap, qcMap, baProposeMap := map[], map[], map[];
      proposeSet := new StringSet();
      blckSet := new StringSet();
      baBlckSet := new StringSet();
      commitPoint1Trigger, isCommit, commitValue := 0, false, "";
    }

    /** Clears the sets in place, so that whoever holds them keeps seeing them; starts the timers. */
    method HandleInitMsg(c: Config) returns (baStartAt: nat, commitAt: nat)
      requires Valid()
      modifies this, proposeSet, blckSet, baBlckSet
      ensures State() == CLEARED
      ensures baStartAt == c.At(4) && commitAt == c.At(c.malicious + 6)
    {
      voteMap, qcMap, baProposeMap := map[], map[], map[];
      proposeSet.data := {};
      blckSet.data := {};
      baBlckSet.data := {};
      commitPoint1Trigger, isCommit, commitValue := 0, false, "";
      baStartAt := 4 * c.tickInterval;
      commitAt := (c.malicious + 6) * c.tickInterval;
    }

    method HandleProposeMsg(c: Config, elapsed: nat, req: Request) returns (sent: Option<Request>, voteAt: nat)
      requires Valid()
      modifies proposeSet
      ensures Outcome(State(), sent) == OnPropose(nid, old(State()), req) && voteAt == elapsed + c.tickInterval
    {
      proposeSet.data := proposeSet.data + {req.content};
      sent := None;
      if nid != VIEW {
        sent := Some(req);
      }
      voteAt := elapsed + c.tickInterval;
    }

    method VoteTimerFires() returns (sent: Option<VoteContent>)
      requires Valid()
      modifies this
      ensures Outcome(State(), sent) == OnVoteTimer(nid, old(State()))
    {
      sent := None;
      if |proposeSet.data| == 1 {
        var v := TheOnly(proposeSet.data);
        var sig := Single(nid, v);
        voteMap := AddSignature(voteMap, v, sig);
        sent := Some(VoteContent(nid, v, sig));
      }
    }

    method HandleForward1Msg(req: Request)
      requires Valid()
      modifies proposeSet
      ensures State() == OnForward1(old(State()), req)
    {
      if req.content in proposeSet.data {
        assert old(proposeSet.data) + {req.content} == old(proposeSet.data);
        return;
      }
      proposeSet.data := proposeSet.data + {req.content};
    }

    method HandleVoteMsg(c: Config, elapsed: nat, vote: VoteContent) returns (sent: Option<QCContent>)
      requires Valid()
      modifies this, blckSet
      ensures Outcome(State(), sent) == OnVote(c, elapsed, old(State()), vote)
      ensures sent.Some? <==> commitPoint1Trigger == old(commitPoint1Trigger) + 1
      ensures sent.Some? ==>
        && isCommit && commitValue == vote.content && vote.content in qcMap
        && sent.value == QCContent(vote.content, qcMap[vote.content])
    {
      sent := None;
      voteMap := AddSignature(voteMap, vote.content, vote.sig);
      if |Signers(voteMap, vote.content)| == c.nodeNum - c.malicious {
        if vote.content in qcMap {
          return;
        }
        sent := MakeCertificate(c, elapsed, vote.content);
      }
    }

    method MakeCertificate(c: Config, elapsed: nat, v: Value) returns (sent: Option<QCContent>)
      requires Valid()
      modifies this, blckSet
      ensures Outcome(State(), sent) == Certify(c, elapsed, old(State()), v)
    {
      sent := None;
      var qc := QCContent(v, Aggregate(Signers(voteMap, v)));
      qcMap := qcMap[v := qc.sig];
      blckSet.data := blckSet.data + {v};
      if |blckSet.data| == 1 && elapsed < 3 * c.tickInterval {
        commitValue := v;
        isCommit := true;
        commitPoint1Trigger := commitPoint1Trigger + 1;
        sent := Some(qc);
      }
    }

    method BAStartTimerFires() returns (sent: Option<InputList>)
      requires Valid()
      modifies this
      ensures Outcome(State(), sent) == OnBAStart(nid, old(State()))
    {
      var input := "0";
      if |blckSet.data| == 1 {
        input := TheOnly(blckSet.data);
      }
      var sig := Single(nid, input);
      baProposeMap := AddSignature(baProposeMap, input, sig);
      sent := Some(InputList(input, [sig], [nid]));
    }

    method HandleForward2Msg(c: Config, elapsed: nat, m: InputList)
      returns (sent: Option<InputList>, later: Option<InputList>)
      requires Valid() && c.Valid() && Readable(c, elapsed, m)
      modifies this, baBlckSet
      ensures (Outcome(State(), sent), later) == OnForward2(c, elapsed, nid, old(State()), m)
    {
      sent, later := None, None;
      if elapsed < 5 * c.tickInterval {
        baProposeMap := AddSignature(baProposeMap, m.input, m.sigs[0]);
        if |Signers(baProposeMap, m.input)| == c.nodeNum - c.malicious {
          later := Some(InputList(m.input, [Aggregate(Signers(baProposeMap, m.input))], [-1]));
        }
      } else if m.input !in baBlckSet.data {
        baBlckSet.data := baBlckSet.data + {m.input};
        if elapsed / c.tickInterval - 5 < |m.sigs| {
          sent := Some(InputList(m.input, m.sigs + [Single(nid, m.input)], m.nodes + [nid]));
        }
      }
    }

    method CommitTimerFires()
      requires Valid()
      modifies this
      ensures State() == OnFinalTimer(old(State()))
    {
      if !isCommit {
        if |baBlckSet.data| == 1 {
          commitValue := TheOnly(baBlckSet.data);
        } else {
          commitValue := "0";
        }
      }
    }
  }
}
