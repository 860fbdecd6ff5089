/** The TBB combiner (node/runningMod/consensusMod/tbb/handler_tbb.go). */
module Tbb {

  import opened Common
  import DolevStrong
  import DeltaBB

  /** What the combiner keeps of its own; slots is localSetD. */
  datatype TbbState = TbbState(slots: seq<Value>, reference1: Value, reference2: Value, isCommit: bool)

  const FRESH := TbbState(["", "", ""], "", "", false)

  // ----- What the handlers compute ---------------------------------------------------------------------------------

  /** The reference value: the one extracted value, if Dolev-Strong has committed it. */
  predicate HasReference(ds: DolevStrong.DSState) {
    |ds.extrSet| == 1 && ds.commitValue == TheOnly(ds.extrSet)
  }

  function OnReference1(s: TbbState, ds: DolevStrong.DSState): TbbState {
    if HasReference(ds) then s.(reference1 := TheOnly(ds.extrSet)) else s
  }

  function OnReference2(s: TbbState, ds: DolevStrong.DSState): TbbState {
    if HasReference(ds) then s.(reference2 := TheOnly(ds.extrSet)) else s
  }

  function OnCommitPoint1(s: TbbState, dbb: DeltaBB.DbbState): TbbState
    requires |s.slots| == 3
  {
    s.(slots := s.slots[0 := dbb.commitValue], isCommit := true)
  }

  /** The value for commit points 2 and 3: the certified value if there is one only, else the reference. */
  function Settled(dbb: DeltaBB.DbbState, reference: Value, otherwise: Value): Value {
    if |dbb.blckSet| == 1 then TheOnly(dbb.blckSet)
    else if reference != "" then reference
    else otherwise
  }

  function OnCommitPoint2(s: TbbState, dbb: DeltaBB.DbbState): TbbState
    requires |s.slots| == 3
  {
    if s.isCommit then s
    else s.(slots := s.slots[1 := Settled(dbb, s.reference1, s.slots[1])])
  }

  function OnCommitPoint3(s: TbbState, dbb: DeltaBB.DbbState): TbbState
    requires |s.slots| == 3
  {
    s.(slots := s.slots[2 := Settled(dbb, s.reference2, s.slots[2])])
  }

  /** The first value committed, or "". */
  function Answer(slots: seq<Value>): Value {
    if slots == [] then ""
    else if slots[0] != "" then slots[0]
    else Answer(slots[1..])
  }

  // ----- The module ------------------------------------------------------------------------------------------------

  class TbbConsensusMod {
    const nid: NodeId
    const dsMod: DolevStrong.DSConsensusMod
    const dbbMod: DeltaBB.DeltaBBConsensusMod
    const localSetA: StringSet
    const localSetC: StringSet
    var localSetD: array<Value>
    var referenceValue1: Value
    var referenceValue2: Value
    var isCommit: bool

    /** The combiner's sets are the sub-modules' sets. */
    ghost predicate Valid()
      reads this
    {
      && localSetA == dbbMod.blckSet && localSetC == dsMod.extrSet && localSetD.Length == 3
      && dbbMod.Valid() && localSetC !in {dbbMod.proposeSet, dbbMod.blckSet, dbbMod.baBlckSet}
      && dsMod.nid == nid && dbbMod.nid == nid
    }

    function State(): TbbState
      reads this, localSetD
    {
      TbbState(localSetD[..], referenceValue1, referenceValue2, isCommit)
    }

    constructor (nid: NodeId)
      ensures Valid() && this.nid == nid && State() == FRESH
      ensures dsMod.State() == DolevStrong.DSState({}, "") && dbbMod.State() == DeltaBB.CLEARED
    {
      this.nid := nid;
      var ds := new DolevStrong.DSConsensusMod(nid);
      var dbb := new DeltaBB.DeltaBBConsensusMod(nid);
      dsMod, dbbMod := ds, dbb;
      localSetA := dbb.blckSet;
      localSetC := ds.extrSet;
      localSetD := new Value[3](_ => "");
      referenceValue1, referenceValue2, isCommit := "", "", false;
      new;
      assert localSetD[..] == ["", "", ""];
    }

    /** Clears everything of an earlier instance but its Dolev-Strong commit value, and starts the timers.  The sets
        are cleared in place, so they are still shared. */
    method HandleInitMsg(c: Config) returns (check1At: int, check2At: int, commit2At: int, commit3At: int)
      requires Valid() && c.Valid()
      modifies this, dsMod.extrSet, dbbMod, dbbMod.proposeSet, dbbMod.blckSet, dbbMod.baBlckSet
      ensures Valid() && State() == FRESH && fresh(localSetD)
      ensures dsMod.State() == DolevStrong.DSState({}, old(dsMod.commitValue)) && dbbMod.State() == DeltaBB.CLEARED
      ensures check1At == (c.t1 + 1) * c.tickInterval && check2At == (c.T2() + 1) * c.tickInterval
      ensures commit2At == (c.t1 + 6) * c.tickInterval && commit3At == (c.T2() + 6) * c.tickInterval
    {
      localSetD := new Value[3](_ => "");
      assert localSetD[..] == ["", "", ""];
      referenceValue1, referenceValue2, isCommit := "", "", false;
      var dsCommitAt := dsMod.HandleInitMsg(c);
      var baStartAt, dbbCommitAt := dbbMod.HandleInitMsg(c);
      check1At := (c.t1 + 1) * c.tickInterval;
      check2At := (c.nodeNum - 1 + 1) * c.tickInterval;
      commit2At := (c.t1 + 6) * c.tickInterval;
      commit3At := (c.nodeNum - 1 + 6) * c.tickInterval;
    }

    /** Both sub-modules handle the proposal. */
    method HandleProposeMsg(c: Config, elapsed: nat, req: Request)
      returns (forward1: Option<Request>, forward: Option<DolevStrong.SigList>, voteAt: nat)
      requires Valid() && c.Valid()
      modifies dsMod.extrSet, dbbMod.proposeSet
      ensures Valid() && State() == old(State()) && voteAt == elapsed + c.tickInterval
      ensures DeltaBB.Outcome(dbbMod.State(), forward1) == DeltaBB.OnPropose(nid, old(dbbMod.State()), req)
      ensures DolevStrong.DSOutcome(dsMod.State(), forward) ==
        DolevStrong.OnPropose(c, nid, elapsed, old(dsMod.State()), req)
    {
      forward1, voteAt := dbbMod.HandleProposeMsg(c, elapsed, req);
      forward := dsMod.HandleProposeMsg(c, elapsed, req);
    }

    method ReferencePoint1Handler()
      requires Valid()
      modifies this
      ensures Valid() && State() == OnReference1(old(State()), dsMod.State())
    {
      if |localSetC.data| == 1 && dsMod.commitValue == TheOnly(localSetC.data) {
        referenceValue1 := TheOnly(localSetC.data);
      }
    }

    method ReferencePoint2Handler()
      requires Valid()
      modifies this
      ensures Valid() && State() == OnReference2(old(State()), dsMod.State())
    {
      if |localSetC.data| == 1 && dsMod.commitValue == TheOnly(localSetC.data) {
        referenceValue2 := TheOnly(localSetC.data);
      }
    }

    /** Receives from the trigger channel. */
    method CommitPoint1Handler()
      requires Valid() && dbbMod.commitPoint1Trigger > 0
      modifies this, localSetD, dbbMod
      ensures Valid() && State() == OnCommitPoint1(old(State()), old(dbbMod.State()))
      ensures dbbMod.State() == old(dbbMod.State()).(trigger := old(dbbMod.commitPoint1Trigger) - 1)
    {
      dbbMod.commitPoint1Trigger := dbbMod.commitPoint1Trigger - 1;
      localSetD[0] := dbbMod.commitValue;
      isCommit := true;
      assert localSetD[..] == old(localSetD[..])[0 := dbbMod.commitValue];
    }

    method CommitPoint2Handler()
      requires Valid()
      modifies localSetD
      ensures Valid() && State() == OnCommitPoint2(old(State()), old(dbbMod.State()))
    {
      if isCommit {
        return;
      }
      if |localSetA.data| == 1 {
        localSetD[1] := TheOnly(localSetA.data);
      } else if referenceValue1 != "" {
        localSetD[1] := referenceValue1;
      }
      assert localSetD[..] == old(localSetD[..])[1 := localSetD[1]];
    }

    method CommitPoint3Handler()
      requires Valid()
      modifies localSetD
      ensures Valid() && State() == OnCommitPoint3(old(State()), old(dbbMod.State()))
    {
      if |localSetA.data| == 1 {
        localSetD[2] := TheOnly(localSetA.data);
      } else if referenceValue2 != "" {
        localSetD[2] := referenceValue2;
      }
      assert localSetD[..] == old(localSetD[..])[2 := localSetD[2]];
    }

    method HandleQueryMsg() returns (value: Value, qcMap: map<Value, Signature>)
      requires Valid()
      ensures value == Answer(State().slots) && qcMap == dbbMod.State().qcMap
    {
      value := "";
      var x := 0;
      while x < localSetD.Length
        invariant 0 <= x <= localSetD.Length
        invariant value == ""
        invariant Answer(localSetD[x..]) == Answer(localSetD[..])
      {
        assert localSetD[x..][1..] == localSetD[x + 1..];
        if localSetD[x] != "" {
          value := localSetD[x];
          break;
        }
        x := x + 1;
      }
      qcMap := dbbMod.qcMap;
    }
  }
}
