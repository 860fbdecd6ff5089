/** Messages in flight and broadcasts (node/p2p; the transport itself is not modelled). */
module Network {

  import opened Common

  /** A message on its way to dst. */
  datatype Packet<M> = Packet(dst: NodeId, msg: M, sentAt: nat)

  /** A proposal on its way to dst; all proposals leave at time 0. */
  datatype Proposal = Proposal(dst: NodeId, req: Request)

  datatype Setup = Setup(c: Config, active: set<NodeId>, sent: multiset<Proposal>) {

    predicate Valid() {
      && c.Valid()
      && (forall i :: i in active ==> i < c.nodeNum)
      && (forall q :: q in sent ==> q.dst < c.nodeNum)
    }

    /** An honest view node proposes one value to every node (itself included). */
    ghost predicate HonestView(v: Value) {
      && (forall q :: q in sent ==> q.req.content == v)
      && (forall i :: i in active ==> exists q :: q in sent && q.dst == i)
    }

    function Values(): set<Value> {
      set q | q in sent :: q.req.content
    }
  }

  // ----- Broadcasts ------------------------------------------------------------------------------------------------

  function Ids(n: nat): (s: set<NodeId>)
    ensures |s| == n
    ensures forall d: NodeId :: d in s <==> d < n
  {
    if n == 0 then {} else Ids(n - 1) + {n - 1}
  }

  function Others(n: nat, src: NodeId): (s: set<NodeId>)
    ensures forall d: NodeId :: d in s <==> d < n && d != src
  {
    Ids(n) - {src}
  }

  function Copies<M(!new, ==)>(dsts: set<NodeId>, now: nat, m: M): (ps: set<Packet<M>>)
    ensures forall p :: p in ps <==> p.dst in dsts && p.msg == m && p.sentAt == now
  {
    var ps := set d | d in dsts :: Packet(d, m, now);
    assert forall p: Packet<M> | p.msg == m && p.sentAt == now :: p == Packet(p.dst, m, now);
    ps
  }

  /** One copy of the message, if there is one, for every node but the sender. */
  function Broadcast<M(!new, ==)>(n: nat, src: NodeId, now: nat, sent: Option<M>): (ps: multiset<Packet<M>>)
    ensures forall p ::
      p in ps <==> sent.Some? && p.dst < n && p.dst != src && p.msg == sent.value && p.sentAt == now
  {
    if sent.None? then multiset{}
    else
      multiset(Copies(Others(n, src), now, sent.value))
  }

  lemma {:induction false} CopiesSize<M(!new)>(dsts: set<NodeId>, now: nat, m: M)
    ensures |Copies(dsts, now, m)| == |dsts|
  {
    if dsts != {} {
      var d :| d in dsts;
      var p := Packet(d, m, now);
      CopiesSize(dsts - {d}, now, m);
      assert Copies(dsts, now, m) == Copies(dsts - {d}, now, m) + {p};
      assert p !in Copies(dsts - {d}, now, m);
    }
  }

  lemma BroadcastSize<M(!new)>(n: nat, src: NodeId, now: nat, sent: Option<M>)
    requires src < n
    ensures |Broadcast(n, src, now, sent)| <= n - 1
  {
    if sent.Some? {
      CopiesSize(Others(n, src), now, sent.value);
      assert Ids(n) == Others(n, src) + {src};
    }
  }
}
