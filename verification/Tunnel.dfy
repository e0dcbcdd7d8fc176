/** A live tunnel: it opens and closes requests in its slots and dispatches the
    messages of its link. Every handler runs to its end on one thread, so a run
    of a tunnel is a sequence of such steps. */
module Tunnels {
  import opened Bytes
  import opened Counting
  import opened Outbound
  import opened Wire
  import opened Slots

  /** What a handler sends: to a request's socket, to the peer, or to the UDP side. */
  datatype Effect =
    | ToRequest(tx: Channel, packet: Packet)
    | ToPeer(packet: Packet)
    | ToUdp(body: seq<u8>)

  datatype TunState = TunState(pool: Pool, reqCount: u16, capacity: u16, busy: nat)

  function NewTunnel(capacity: u16): TunState {
    TunState(Fresh(capacity), 0, capacity, 0)
  }

  /** `get_request_tx` */
  function Lookup(p: Pool, h: Handle): Option<Channel> {
    if h.idx < |p.elements| && p.elements[h.idx].tag == h.tag then p.elements[h.idx].tx else None
  }

  /** `free_request_tx` */
  function DropTx(p: Pool, h: Handle): Pool {
    if Lookup(p, h).Some? then p.(elements := p.elements[h.idx := p.elements[h.idx].(tx := None)]) else p
  }

  function Decrement(n: u16): (r: u16)
    ensures r == if n > 0 then n - 1 else U16_MAX
  {
    Truncate16(n + 0xFFFF)
  }

  /** `Reqq::free` with the mirrored counter. */
  function Release(t: TunState, h: Handle): (r: (TunState, bool)) {
    var (pool, ok) := Free(t.pool, h);
    (t.(pool := pool, reqCount := if ok then Decrement(t.reqCount) else t.reqCount), ok)
  }

  /** `on_tunnel_msg` on a frame; `None` is a panic. */
  function Receive(t: TunState, f: seq<u8>): (r: Option<(TunState, seq<Effect>)>) {
    if CmdOf(f).None? then None
    else
      var t' := t.(busy := t.busy + (|f| - 2));
      match CmdOf(f).value
      case Ping => Some((t', [ToPeer(Packet(f[2 := CmdNumber(Pong)], 0))]))
      case Pong => Some((t', []))
      case UdpX => Some((t', [ToUdp(f[3..])]))
      case ReqData =>
        if HandleOf(f).None? then None
        else
          var tx := Lookup(t.pool, HandleOf(f).value);
          Some((t', if tx.None? then [] else [ToRequest(tx.value, Packet(f, PREFIX))]))
      case ReqServerFinished =>
        if HandleOf(f).None? then None
        else Some((t'.(pool := DropTx(t.pool, HandleOf(f).value)), []))
      case ReqServerClosed =>
        if HandleOf(f).None? then None
        else Some((Release(t', HandleOf(f).value).0, []))
      case _ => Some((t', []))
  }

  /** `on_request_created`; the target is the address type, address and port. */
  function OpenRequest(t: TunState, tx: Channel, target: seq<u8>): (r: (TunState, Option<Handle>, seq<Effect>))
    requires forall i | i in t.pool.free :: i < |t.pool.elements| <= 0xFFFF
  {
    var (pool, h) := Alloc(t.pool, tx);
    if h.idx == U16_MAX then (t.(pool := pool), None, [])
    else (t.(pool := pool, reqCount := Truncate16(t.reqCount + 1)), Some(h),
          [ToPeer(Packet(Encode(ReqCreated, h, target), 0))])
  }

  /** `on_request_closed` */
  function CloseRequest(t: TunState, h: Handle): (r: (TunState, seq<Effect>)) {
    var (t', ok) := Release(t, h);
    (t', if ok then [ToPeer(Packet(Encode(ReqClientClosed, h, []), 0))] else [])
  }

  // ----- the invariant of a tunnel

  /** The slots are conserved and `req_count` mirrors the free stack. */
  ghost predicate Balanced(t: TunState) {
    && Conserved(t.pool)
    && t.capacity == |t.pool.elements|
    && t.reqCount + |t.pool.free| == |t.pool.elements|
  }

  lemma NewIsBalanced(capacity: u16)
    ensures Balanced(NewTunnel(capacity))
  {
    FreshIsConserved(capacity);
  }

  lemma ReleaseKeeps(t: TunState, h: Handle)
    requires Balanced(t)
    ensures Balanced(Release(t, h).0) <==> !FreesUnused(t.pool, h)
    ensures !FreesUnused(t.pool, h) && Release(t, h).1 ==>
              t.reqCount > 0 && Release(t, h).0.reqCount == t.reqCount - 1
  {
    FreeKeepsIff(t.pool, h);
    if Free(t.pool, h).1 && !FreesUnused(t.pool, h) {
      assert t.pool.elements[h.idx] in t.pool.elements;
      FreeIsBounded(t.pool);
    }
  }

  lemma DropTxKeeps(p: Pool, h: Handle)
    requires Conserved(p)
    ensures Conserved(DropTx(p, h)) && DropTx(p, h).free == p.free
    ensures |DropTx(p, h).elements| == |p.elements|
    ensures forall i | 0 <= i < |p.elements| :: DropTx(p, h).elements[i].tag == p.elements[i].tag
  {
  }

  /** The handle that a message closes, if it is a close. */
  function ClosedBy(f: seq<u8>): Option<Handle> {
    if CmdOf(f) == Some(ReqServerClosed) then HandleOf(f) else None
  }

  /** A message keeps the balance if and only if it is not a close of the
      current tag of an unused slot. */
  lemma ReceiveKeepsIff(t: TunState, f: seq<u8>)
    requires Balanced(t) && Receive(t, f).Some?
    ensures Balanced(Receive(t, f).value.0) <==> !(ClosedBy(f).Some? && FreesUnused(t.pool, ClosedBy(f).value))
  {
    if ClosedBy(f).Some? {
      ReleaseKeeps(t.(busy := t.busy + (|f| - 2)), ClosedBy(f).value);
    } else if CmdOf(f) == Some(ReqServerFinished) {
      DropTxKeeps(t.pool, HandleOf(f).value);
    }
  }

  /** The case is one that the code can receive: a tunnel with one slot is told
      that the slot it never used was closed. The slot is free twice, and the
      count has wrapped. */
  lemma CloseOfUnusedSlot()
    ensures var r := Receive(NewTunnel(1), Encode(ReqServerClosed, Handle(0, 0), []));
      && r.Some? && r.value.0.reqCount == U16_MAX && r.value.0.pool.free == [0, 0]
      && !Balanced(r.value.0)
  {
    hide Encode, CmdOf, HandleOf, Balanced, DropTx, Lookup;
    EncodeRoundTrip(ReqServerClosed, Handle(0, 0), []);
    NewIsBalanced(1);
    ReceiveKeepsIff(NewTunnel(1), Encode(ReqServerClosed, Handle(0, 0), []));
  }

  /** Opening fails exactly when no slot is free. */
  lemma OpenKeeps(t: TunState, tx: Channel, target: seq<u8>)
    requires Balanced(t)
    ensures Balanced(OpenRequest(t, tx, target).0)
    ensures OpenRequest(t, tx, target).1.Some? <==> t.reqCount < t.capacity
    ensures OpenRequest(t, tx, target).1.Some? ==> OpenRequest(t, tx, target).0.reqCount == t.reqCount + 1
  {
    hide Conserved, NoDup, InUse, Bump, Encode;
    SizeIsSmall(t.pool);
    AllocKeeps(t.pool, tx);
    AllocPops(t.pool, tx);
  }

  lemma AllocPops(p: Pool, tx: Channel)
    requires forall i | i in p.free :: i < |p.elements| <= 0xFFFF
    ensures var (q, h) := Alloc(p, tx);
      && (p.free == [] <==> h.idx == U16_MAX)
      && |q.elements| == |p.elements| && |q.free| == if p.free == [] then 0 else |p.free| - 1
  {
    if p.free != [] {
      assert p.free[|p.free| - 1] in p.free;
    }
  }

  // ----- the class

  class Tunnel {
    const requests: Reqq
    const capacity: u16
    var reqCount: u16
    var busy: nat
    var outbox: seq<Effect>

    constructor (cap: u16)
      ensures Valid() && fresh(requests) && outbox == []
      ensures Value() == NewTunnel(cap)
    {
      requests := new Reqq(cap);
      capacity, reqCount, busy, outbox := cap, 0, 0, [];
    }

    ghost predicate Valid()
      reads this, requests
    {
      requests.Valid()
    }

    ghost function Value(): TunState
      reads this, requests
    {
      TunState(requests.Value(), reqCount, capacity, busy)
    }

    method GetRequestTx(h: Handle) returns (tx: Option<Channel>)
      ensures tx == Lookup(requests.Value(), h)
    {
      if h.idx >= |requests.elements| {
        return None;
      }
      var req := requests.elements[h.idx];
      if req.tag == h.tag && req.tx.Some? {
        return req.tx;
      }
      return None;
    }

    method FreeRequestTx(h: Handle)
      requires Valid()
      modifies requests
      ensures Valid() && requests.Value() == DropTx(old(requests.Value()), h)
    {
      if h.idx >= |requests.elements| {
        return;
      }
      var req := requests.elements[h.idx];
      if req.tag == h.tag && req.tx.Some? {
        requests.elements := requests.elements[h.idx := req.(tx := None)];
      }
    }

    method OnTunnelMsg(f: seq<u8>) returns (ok: bool)
      requires Valid() && |f| >= 2
      modifies this, requests
      ensures Valid() && (ok <==> Receive(old(Value()), f).Some?)
      ensures ok ==> Value() == Receive(old(Value()), f).value.0
      ensures ok ==> outbox == old(outbox) + Receive(old(Value()), f).value.1
    {
      busy := busy + (|f| - 2);
      assert outbox + [] == outbox;
      var cmd := CmdOf(f);
      if cmd.None? {
        return false;
      }
      var h := HandleOf(f);
      ok := true;
      match cmd.value
      case Ping =>
        outbox := outbox + [ToPeer(Packet(f[2 := CmdNumber(Pong)], 0))];
      case UdpX =>
        outbox := outbox + [ToUdp(f[3..])];
      case ReqData =>
        if h.None? { return false; }
        var tx := GetRequestTx(h.value);
        if tx.Some? {
          outbox := outbox + [ToRequest(tx.value, Packet(f, PREFIX))];
        }
      case ReqServerFinished =>
        if h.None? { return false; }
        FreeRequestTx(h.value);
      case ReqServerClosed =>
        if h.None? { return false; }
        var r := requests.FreeSlot(h.value);
        if r {
          reqCount := Decrement(reqCount);
        }
      case _ =>
    }

    method OnRequestCreated(tx: Channel, target: seq<u8>) returns (h: Option<Handle>)
      requires Valid()
      modifies this, requests
      ensures Valid()
      ensures var (t, handle, effects) := OpenRequest(old(Value()), tx, target);
              Value() == t && h == handle && outbox == old(outbox) + effects
    {
      assert outbox + [] == outbox;
      var got := requests.AllocSlot(tx);
      if got.idx == U16_MAX {
        return None;
      }
      reqCount := Truncate16(reqCount + 1);
      outbox := outbox + [ToPeer(Packet(Encode(ReqCreated, got, target), 0))];
      return Some(got);
    }

    method OnRequestClosed(h: Handle)
      requires Valid()
      modifies this, requests
      ensures Valid() && Value() == CloseRequest(old(Value()), h).0
      ensures outbox == old(outbox) + CloseRequest(old(Value()), h).1
    {
      assert outbox + [] == outbox;
      var r := requests.FreeSlot(h);
      if r {
        reqCount := Decrement(reqCount);
        outbox := outbox + [ToPeer(Packet(Encode(ReqClientClosed, h, []), 0))];
      }
    }

    method OnClosed()
      requires Valid()
      modifies requests
      ensures Valid() && Value() == old(Value()).(pool := ClearAll(old(Value()).pool))
    {
      requests.ClearSlots();
    }
  }
}
