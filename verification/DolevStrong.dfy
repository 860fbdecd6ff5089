/** The handlers of the Dolev-Strong module (node/runningMod/consensusMod/ds/handler_ds.go). */
module DolevStrong {

  import opened Common

  /** The request with everyone who has signed it, in order. */
  datatype SigList = SigList(req: Request, sigs: seq<Signature>, nodes: seq<NodeId>) {
    function Content(): Value {
      req.content
    }
  }

  datatype DSState = DSState(extrSet: set<Value>, commitValue: Value)

  /** The new state and what is broadcast to all other nodes. */
  datatype DSOutcome = DSOutcome(state: DSState, sent: Option<SigList>)

  /** The wait loops before a broadcast spin until the elapsed ticks are below the number of signatures.  The ticks
      only grow, so such a loop ends at once or never (WaitIsDecidedAtOnce). */
  predicate Forwards(c: Config, elapsed: nat, signatures: nat)
    requires c.Valid()
  {
    c.TickOf(elapsed) < signatures
  }

  function OnPropose(c: Config, nid: NodeId, elapsed: nat, s: DSState, req: Request): DSOutcome
    requires c.Valid()
  {
    DSOutcome(s.(extrSet := s.extrSet + {req.content}),
      if nid != VIEW && Forwards(c, elapsed, 1)
      then Some(SigList(req, [req.sig, Single(nid, req.content)], [VIEW, nid]))
      else None)
  }

  function OnForward(c: Config, nid: NodeId, elapsed: nat, s: DSState, m: SigList): DSOutcome
    requires c.Valid()
  {
    if m.req.content in s.extrSet then DSOutcome(s, None)
    else
      DSOutcome(s.(extrSet := s.extrSet + {m.req.content}),
        if Forwards(c, elapsed, |m.sigs|)
        then Some(SigList(m.req, m.sigs + [Single(nid, m.req.content)], m.nodes + [nid]))
        else None)
  }

  function Decide(extrSet: set<Value>): Value {
    if |extrSet| == 1 then TheOnly(extrSet) else "0"
  }

  function OnCommitTimer(s: DSState): DSState {
    s.(commitValue := Decide(s.extrSet))
  }

  /** The commit timer is set for tick f + 1. */
  function CommitTime(c: Config): nat {
    c.At(c.malicious + 1)
  }

  class DSConsensusMod {
    const nid: NodeId
    const extrSet: StringSet
    var commitValue: Value

    function State(): DSState
      reads this, extrSet
    {
      DSState(extrSet.data, commitValue)
    }

    constructor (nid: NodeId)
      ensures State() == DSState({}, "") && this.nid == nid && fresh(extrSet)
    {
      this.nid := nid;
      extrSet := new StringSet();
      commitValue := "";
    }

    /** Clears the extracted set; the commit value of an earlier instance stays. */
    method HandleInitMsg(c: Config) returns (commitAt: nat)
      modifies extrSet
      ensures State() == DSState({}, old(commitValue)) && commitAt == CommitTime(c)
    {
      extrSet.data := {};
      commitAt := (c.malicious + 1) * c.tickInterval;
    }

    method HandleProposeMsg(c: Config, elapsed: nat, req: Request) returns (sent: Option<SigList>)
      requires c.Valid()
      modifies extrSet
      ensures DSOutcome(State(), sent) == OnPropose(c, nid, elapsed, old(State()), req)
    {
      sent := None;
      extrSet.data := extrSet.data + {req.content};
      if nid != VIEW && elapsed / c.tickInterval < 1 {
        sent := Some(SigList(req, [req.sig, Single(nid, req.content)], [VIEW, nid]));
      }
    }

    method HandleForwardMsg(c: Config, elapsed: nat, m: SigList) returns (sent: Option<SigList>)
      requires c.Valid()
      modifies extrSet
      ensures DSOutcome(State(), sent) == OnForward(c, nid, elapsed, old(State()), m)
    {
      sent := None;
      if m.req.content in extrSet.data {
        return;
      }
      extrSet.data := extrSet.data + {m.req.content};
      if elapsed / c.tickInterval < |m.sigs| {
        sent := Some(SigList(m.req, m.sigs + [Single(nid, m.req.content)], m.nodes + [nid]));
      }
    }

    method CommitTimerFires()
      modifies this
      ensures State() == OnCommitTimer(old(State()))
      ensures forall v :: extrSet.data == {v} ==> commitValue == v
      ensures |extrSet.data| != 1 ==> commitValue == "0"
    {
      if |extrSet.data| == 1 {
        commitValue := TheOnly(extrSet.data);
      } else {
        commitValue := "0";
      }
    }

    method HandleQueryMsg() returns (value: Value)
      ensures value == State().commitValue
    {
      value := commitValue;
    }
  }

  /** A wait loop reads a clock that never runs backwards: it gets past some reading exactly if it gets past the
      first. */
  lemma WaitIsDecidedAtOnce(c: Config, clock: nat -> nat, signatures: nat)
    requires c.Valid()
    requires forall r: nat :: clock(0) <= clock(r)
    ensures (exists r: nat :: Forwards(c, clock(r), signatures)) <==> Forwards(c, clock(0), signatures)
  {
    if r: nat :| Forwards(c, clock(r), signatures) {
      TickBefore(c, clock(r), signatures);
      TickBefore(c, clock(0), signatures);
    }
  }
}
