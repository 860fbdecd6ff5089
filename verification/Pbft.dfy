/** The handlers of the PBFT module (node/runningMod/consensusMod/pbft), each one run to its end.  PbftInterleaving
    looks at what happens when they overlap. */
module Pbft {

  import opened Common

  type Digest = string

  /** A request of a client; digest is the SHA-256 digest of the rest. */
  datatype PbftRequest = PbftRequest(digest: Digest, content: Value)

  /** What all three messages carry. */
  datatype PbftMessage = PbftMessage(req: PbftRequest, round: nat)

  datatype RequestInfo = RequestInfo(req: PbftRequest, cntPrepareConfirm: nat, cntCommitConfirm: nat,
                                     isCommitBroadcast: bool, isReply: bool)

  function NewRequestInfo(req: PbftRequest): RequestInfo {
    RequestInfo(req, 0, 0, false, false)
  }

  datatype PbftState = PbftState(queue: seq<PbftRequest>, pool: map<Digest, RequestInfo>, currentRound: nat) {

    /** What the pool knows of a request; nothing known is the same as nothing received. */
    function Info(req: PbftRequest): RequestInfo {
      if req.digest in pool then pool[req.digest] else NewRequestInfo(req)
    }
  }

  const INITIAL := PbftState([], map[], 0)

  /** The number of faulty nodes tolerated. */
  function Malicious(n: nat): nat
    requires n > 0
  {
    (n - 1) / 3
  }

  /** The prepares a node needs; the leader sends none that counts for itself. */
  function NeedPrepares(n: nat, nid: NodeId): int
    requires n > 0
  {
    if nid == VIEW then 2 * Malicious(n) else 2 * Malicious(n) - 1
  }

  // ----- What the handlers compute; flag is the answer of the addon ------------------------------------------------

  function OnPropose(s: PbftState, req: PbftRequest, flag: bool): PbftState {
    s.(pool := s.pool[req.digest := NewRequestInfo(req)], queue := if flag then s.queue + [req] else s.queue)
  }

  function OnPrePrepare(s: PbftState, m: PbftMessage, flag: bool): (PbftState, Option<PbftMessage>) {
    if m.round < s.currentRound then (s, None)
    else (s.(pool := s.pool[m.req.digest := s.Info(m.req)]), if flag then Some(m) else None)
  }

  /** A prepare counts until the commit is broadcast; that happens with the first one that makes them enough. */
  function OnPrepare(n: nat, nid: NodeId, s: PbftState, m: PbftMessage): (PbftState, Option<PbftMessage>)
    requires n > 0
  {
    var info := s.Info(m.req);
    if m.round < s.currentRound || info.isCommitBroadcast then (s, None)
    else
      var cnt := info.cntPrepareConfirm + 1;
      var enough := cnt >= NeedPrepares(n, nid);
      (s.(pool := s.pool[m.req.digest := info.(cntPrepareConfirm := cnt, isCommitBroadcast := enough)]),
       if enough then Some(m) else None)
  }

  /** The second result says that the request is committed here now (HandleCommitAddon runs). */
  function OnCommit(n: nat, nid: NodeId, s: PbftState, m: PbftMessage): (PbftState, bool)
    requires n > 0
  {
    if m.round < s.currentRound then (s, false)
    else
      var info := s.Info(m.req);
      var cnt := info.cntCommitConfirm + 1;
      var done := cnt >= 2 * Malicious(n) && !info.isReply;
      (s.(pool := s.pool[m.req.digest := info.(cntCommitConfirm := cnt, isReply := info.isReply || done)],
          currentRound := if done && nid == VIEW then s.currentRound + 1 else s.currentRound),
       done)
  }

  /** One turn of the leader's loop up to the wait: the first request is announced with the current round. */
  function OnDequeue(s: PbftState): (PbftState, Option<PbftMessage>) {
    if s.queue == [] then (s, None)
    else (s.(queue := s.queue[1..]), Some(PbftMessage(s.queue[0], s.currentRound)))
  }

  // ----- The module ------------------------------------------------------------------------------------------------

  class PbftConsensusMod {
    const nid: NodeId
    const pbftNum: nat
    const maliciousNum: nat
    var requestQueue: seq<PbftRequest>
    var requestPool: map<Digest, RequestInfo>
    var currentRound: nat

    ghost predicate Valid() {
      pbftNum > 0 && maliciousNum == Malicious(pbftNum)
    }

    function State(): PbftState
      reads this
    {
      PbftState(requestQueue, requestPool, currentRound)
    }

    constructor (nid: NodeId, nodeNum: nat)
      requires nodeNum > 0
      ensures Valid() && State() == INITIAL && this.nid == nid && pbftNum == nodeNum
    {
      this.nid := nid;
      pbftNum := nodeNum;
      maliciousNum := (nodeNum - 1) / 3;
      requestQueue, requestPool, currentRound := [], map[], 0;
    }

    method HandlePropose(req: PbftRequest, flag: bool)
      modifies this
      ensures State() == OnPropose(old(State()), req, flag)
      ensures requestQueue == if flag then old(requestQueue) + [req] else old(requestQueue)
      ensures req.digest in requestPool && requestPool[req.digest] == RequestInfo(req, 0, 0, false, false)
    {
      requestPool := requestPool[req.digest := NewRequestInfo(req)];
      if !flag {
        return;
      }
      requestQueue := requestQueue + [req];
    }

    method HandlePrePrepare(m: PbftMessage, flag: bool) returns (sent: Option<PbftMessage>)
      modifies this
      ensures (State(), sent) == OnPrePrepare(old(State()), m, flag)
      ensures sent == Some(m) || sent == None
      ensures sent.Some? <==> flag && m.round >= old(currentRound)
      ensures m.round >= currentRound ==> m.req.digest in requestPool
    {
      sent := None;
      if m.round < currentRound {
        return;
      }
      EnsureRequest(m.req);
      if flag {
        sent := Some(m);
      }
    }

    /** Makes an entry for a request the pool does not know. */
    method EnsureRequest(req: PbftRequest)
      modifies this`requestPool
      ensures requestPool == old(requestPool)[req.digest := old(State()).Info(req)]
    {
      if req.digest !in requestPool {
        requestPool := requestPool[req.digest := NewRequestInfo(req)];
      }
      assert requestPool[req.digest := requestPool[req.digest]] == requestPool;
    }

    method IsCommitBroadcasted(req: PbftRequest) returns (b: bool)
      ensures b == State().Info(req).isCommitBroadcast
    {
      if req.digest !in requestPool {
        return false;
      }
      return requestPool[req.digest].isCommitBroadcast;
    }

    method IsReplySent(req: PbftRequest) returns (b: bool)
      ensures b == State().Info(req).isReply
    {
      if req.digest !in requestPool {
        return false;
      }
      return requestPool[req.digest].isReply;
    }

    method HandlePrepare(m: PbftMessage) returns (sent: Option<PbftMessage>)
      requires Valid()
      modifies this
      ensures (State(), sent) == OnPrepare(pbftNum, nid, old(State()), m)
    {
      sent := None;
      if m.round < currentRound {
        return;
      }
      var isAlreadyCommitted := IsCommitBroadcasted(m.req);
      if isAlreadyCommitted {
        return;
      }
      EnsureRequest(m.req);
      var d := m.req.digest;
      var prepareCnt := requestPool[d].cntPrepareConfirm + 1;
      requestPool := requestPool[d := requestPool[d].(cntPrepareConfirm := prepareCnt)];
      var needCnt := if nid == VIEW then 2 * maliciousNum else 2 * maliciousNum - 1;
      if prepareCnt >= needCnt && !isAlreadyCommitted {
        requestPool := requestPool[d := requestPool[d].(isCommitBroadcast := true)];
        sent := Some(m);
      }
      assert requestPool == OnPrepare(pbftNum, nid, old(State()), m).0.pool;
    }

    method HandleCommit(m: PbftMessage) returns (done: bool)
      requires Valid()
      modifies this
      ensures (State(), done) == OnCommit(pbftNum, nid, old(State()), m)
    {
      done := false;
      if m.round < currentRound {
        return;
      }
      var isAlreadyReplied := IsReplySent(m.req);
      EnsureRequest(m.req);
      var d := m.req.digest;
      var commitCnt := requestPool[d].cntCommitConfirm + 1;
      requestPool := requestPool[d := requestPool[d].(cntCommitConfirm := commitCnt)];
      if commitCnt >= 2 * maliciousNum && !isAlreadyReplied {
        requestPool := requestPool[d := requestPool[d].(isReply := true)];
        done := true;
        if nid == VIEW {
          currentRound := currentRound + 1;
        }
      }
      assert requestPool == OnCommit(pbftNum, nid, old(State()), m).0.pool;
    }

    method Dequeue() returns (sent: Option<PbftMessage>)
      modifies this
      ensures (State(), sent) == OnDequeue(old(State()))
    {
      sent := None;
      if requestQueue != [] {
        var req := requestQueue[0];
        requestQueue := requestQueue[1..];
        sent := Some(PbftMessage(req, currentRound));
      }
    }
  }
}
