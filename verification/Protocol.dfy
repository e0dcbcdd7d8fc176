/** The messages that the two ends of a tunnel send each other about a request, and
    what each of them comes to at the other end. */
module Protocols {
  import opened Bytes
  import opened Outbound
  import opened Wire
  import opened Slots
  import opened Tunnels
  import opened ReqServ
  import opened XTunnels

  /** `effects` is one message to the peer, which reads as `cmd`, `h` and `payload`. */
  predicate Says(effects: seq<Effect>, cmd: Cmd, h: Handle, payload: seq<u8>) {
    && |effects| == 1 && effects[0].ToPeer? && IsMessage(effects[0].packet, cmd, h, payload)
  }

  predicate IsMessage(p: Packet, cmd: Cmd, h: Handle, payload: seq<u8>) {
    p.cursor == 0 && CmdOf(p.buf) == Some(cmd) && HandleOf(p.buf) == Some(h) && p.buf[PREFIX..] == payload
  }

  // ----- what is sent

  /** A request that is opened is announced with its handle and its target; one that
      is not leaves everything as it is. */
  lemma OpenSays(t: TunState, tx: Channel, target: seq<u8>)
    requires Balanced(t)
    ensures var (t', h, effects) := OpenRequest(t, tx, target);
      if h.Some? then Says(effects, ReqCreated, h.value, target) && Lookup(t'.pool, h.value) == Some(tx)
      else effects == [] && t' == t
  {
    hide Encode, CmdOf, HandleOf, Bump, Conserved;
    SizeIsSmall(t.pool);
    AllocKeeps(t.pool, tx);
    AllocPops(t.pool, tx);
    var h := OpenRequest(t, tx, target).1;
    if h.Some? {
      EncodeRoundTrip(ReqCreated, h.value, target);
    }
  }

  /** A request that is closed and was there is reported to the peer. */
  lemma CloseSays(t: TunState, h: Handle)
    ensures var effects := CloseRequest(t, h).1;
      if Free(t.pool, h).1 then Says(effects, ReqClientClosed, h, []) else effects == []
  {
    hide Encode, CmdOf, HandleOf;
    EncodeRoundTrip(ReqClientClosed, h, []);
  }

  /** What a request's pump queues last. */
  lemma FinishSays(h: Handle)
    ensures IsMessage(FinishPacket(h), ReqClientFinished, h, [])
  {
    EncodeRoundTrip(ReqClientFinished, h, []);
  }

  /** The reports of the peer, for the requests it has, while it is connected. */
  lemma PeerSays(x: XState, h: Handle, chunk: seq<u8>)
    ensures if IsValidReq(x.slots, h) && x.connected
            then
              && Says(XRequestClosed(x, h).1, ReqServerClosed, h, [])
              && Says(XRequestFinished(x, h), ReqServerFinished, h, [])
              && Says(XRequestMsg(x, h, chunk), ReqData, h, chunk)
            else XRequestClosed(x, h) == (x, []) && XRequestFinished(x, h) == XRequestMsg(x, h, chunk) == []
  {
    hide Encode, CmdOf, HandleOf;
    EncodeRoundTrip(ReqServerClosed, h, []);
    EncodeRoundTrip(ReqServerFinished, h, []);
    EncodeRoundTrip(ReqData, h, chunk);
  }

  // ----- what it comes to at the peer

  /** Only slot `h.idx` may differ. */
  ghost predicate OthersStay(a: seq<XSlot>, b: seq<XSlot>, h: Handle) {
    |a| == |b| && forall i | 0 <= i < |a| && i != h.idx :: a[i] == b[i]
  }

  /** A create message takes the slot under its handle, whatever was in it; before
      `stop` the request gets its channel and is counted. */
  lemma CreateArrives(x: XState, f: seq<u8>, h: Handle, tx: Channel)
    requires CmdOf(f) == Some(ReqCreated) && HandleOf(f) == Some(h)
    ensures XReceive(x, f, tx).Some? <==> |f| >= PREFIX + 2
    ensures |f| >= PREFIX + 2 && h.idx < |x.slots| ==>
      var (x', effects) := XReceive(x, f, tx).value;
      && effects == [] && IsValidReq(x'.slots, h) && OthersStay(x.slots, x'.slots, h)
      && x'.slots[h.idx].tx == (if x.discarded then None else Some(tx))
      && x'.reqCount == (if x.discarded then x.reqCount else Truncate16(x.reqCount + 1))
      && x' == x.(slots := x'.slots, reqCount := x'.reqCount)
    ensures |f| >= PREFIX + 2 && h.idx >= |x.slots| ==> XReceive(x, f, tx) == Some((x, []))
  {
  }

  /** So a request that is opened here exists there, under the same handle. */
  lemma OpenArrives(t: TunState, tx: Channel, target: seq<u8>, x: XState, c: Channel)
    requires Balanced(t) && OpenRequest(t, tx, target).1.Some? && |target| >= 2 && !x.discarded
    requires |t.pool.elements| <= |x.slots|
    ensures var (t', h, effects) := OpenRequest(t, tx, target);
      && Says(effects, ReqCreated, h.value, target) && XReceive(x, effects[0].packet.buf, c).Some?
      && var x' := XReceive(x, effects[0].packet.buf, c).value.0;
         IsValidReq(x'.slots, h.value) && XLookup(x'.slots, h.value) == Some(c)
  {
    hide CmdOf, HandleOf, Encode, XReceive, Bump;
    SizeIsSmall(t.pool);
    OpenSays(t, tx, target);
    SlotIsInTable(t, tx, target);
    var (_, h, effects) := OpenRequest(t, tx, target);
    CreateArrives(x, effects[0].packet.buf, h.value, c);
  }

  lemma SlotIsInTable(t: TunState, tx: Channel, target: seq<u8>)
    requires Balanced(t) && OpenRequest(t, tx, target).1.Some?
    ensures OpenRequest(t, tx, target).1.value.idx < |t.pool.elements|
  {
    hide Encode, Bump;
    AllocKeeps(t.pool, tx);
  }

  /** A close message releases a request that is there: its slot is unused and has no
      channel, and one request fewer is in use and counted. Otherwise it does nothing. */
  lemma CloseArrives(x: XState, f: seq<u8>, h: Handle, tx: Channel)
    requires CmdOf(f) == Some(ReqClientClosed) && HandleOf(f) == Some(h)
    ensures XReceive(x, f, tx).Some?
    ensures var (x', effects) := XReceive(x, f, tx).value;
      if !IsValidReq(x.slots, h) then x' == x && effects == []
      else
        && effects == [] && OthersStay(x.slots, x'.slots, h) && x' == x.(slots := x'.slots, reqCount := x'.reqCount)
        && !x'.slots[h.idx].isInused && x'.slots[h.idx].tx == None && x'.slots[h.idx].tag == h.tag
        && InUseCount(x'.slots) == InUseCount(x.slots) - 1
        && x'.reqCount == if x.reqCount > 0 then x.reqCount - 1 else 0
  {
    FreeLowersCount(x.slots, h);
  }

  /** A finish message takes the channel of its request, and nothing else. */
  lemma FinishArrives(x: XState, f: seq<u8>, h: Handle, tx: Channel)
    requires CmdOf(f) == Some(ReqClientFinished) && HandleOf(f) == Some(h)
    ensures XReceive(x, f, tx).Some?
    ensures var (x', effects) := XReceive(x, f, tx).value;
      && effects == [] && OthersStay(x.slots, x'.slots, h) && x' == x.(slots := x'.slots)
      && XLookup(x'.slots, h) == None
      && (h.idx < |x.slots| ==>
            && x'.slots[h.idx].isInused == x.slots[h.idx].isInused && x'.slots[h.idx].tag == x.slots[h.idx].tag
            && (x.slots[h.idx].tag != h.tag ==> x'.slots[h.idx] == x.slots[h.idx]))
  {
  }

  /** Data goes to the channel of its request, with the header to be skipped. */
  lemma DataArrives(x: XState, t: TunState, f: seq<u8>, h: Handle, tx: Channel)
    requires CmdOf(f) == Some(ReqData) && HandleOf(f) == Some(h)
    ensures var c := XLookup(x.slots, h);
      XReceive(x, f, tx) == Some((x, if c.None? then [] else [ToRequest(c.value, Packet(f, 7))]))
    ensures var c := Lookup(t.pool, h);
      Receive(t, f) == Some((t.(busy := t.busy + |f| - 2), if c.None? then [] else [ToRequest(c.value, Packet(f, 7))]))
  {
  }

  // ----- and at the client

  ghost predicate OtherSlotsStay(a: Pool, b: Pool, h: Handle) {
    |a.elements| == |b.elements| && forall i | 0 <= i < |a.elements| && i != h.idx :: a.elements[i] == b.elements[i]
  }

  /** The peer has closed: the slot is unused under the next tag and free again, and
      one request fewer is counted. A stale handle does nothing. */
  lemma ServerClosedArrives(t: TunState, f: seq<u8>, h: Handle)
    requires CmdOf(f) == Some(ReqServerClosed) && HandleOf(f) == Some(h)
    ensures Receive(t, f).Some? && Receive(t, f).value.1 == []
    ensures var t' := Receive(t, f).value.0;
      && OtherSlotsStay(t.pool, t'.pool, h) && t'.busy == t.busy + |f| - 2 && t'.capacity == t.capacity
      && (if h.idx < |t.pool.elements| && t.pool.elements[h.idx].tag == h.tag then
            && t'.pool.elements[h.idx] == Slot(if h.tag == 0xFFFF then 0 else h.tag + 1, None, false)
            && t'.pool.free == t.pool.free + [h.idx]
            && (t.reqCount > 0 ==> t'.reqCount == t.reqCount - 1)
          else t'.pool == t.pool && t'.reqCount == t.reqCount)
  {
  }

  /** The peer has no more data: the channel goes and the slot stays. */
  lemma ServerFinishedArrives(t: TunState, f: seq<u8>, h: Handle)
    requires CmdOf(f) == Some(ReqServerFinished) && HandleOf(f) == Some(h)
    ensures Receive(t, f).Some? && Receive(t, f).value.1 == []
    ensures var t' := Receive(t, f).value.0;
      && OtherSlotsStay(t.pool, t'.pool, h) && t'.pool.free == t.pool.free && t'.reqCount == t.reqCount
      && t'.busy == t.busy + |f| - 2 && t'.capacity == t.capacity && Lookup(t'.pool, h) == None
      && (h.idx < |t.pool.elements| ==> t'.pool.elements[h.idx].tag == t.pool.elements[h.idx].tag)
      && (h.idx < |t.pool.elements| && t.pool.elements[h.idx].tag != h.tag ==> t'.pool == t.pool)
  {
  }

  /** When the link is lost, no request of the tunnel keeps a channel. */
  lemma ClosedHasNoChannels(t: TunState, h: Handle)
    ensures Lookup(ClearAll(t.pool), h) == None && ClearAll(t.pool).free == []
  {
  }

  /** Nor does one at the peer, or stay in use, unless it was stopped; and before
      that, the loss is what makes it want to reconnect. */
  lemma LinkLost(x: XState, h: Handle)
    ensures var x' := XTunnelClosed(x);
      && !x'.connected && x'.reqCount == x.reqCount && x'.discarded == x.discarded
      && (if x.connected && x.discarded then x'.slots == x.slots
          else XLookup(x'.slots, h) == None && !IsValidReq(x'.slots, h) && InUseCount(x'.slots) == 0)
  {
    CountOfNone(XClearAll(x.slots));
  }

  /** A reconnect comes to be wanted exactly when, before `stop`, a link that was up
      is lost or one could not be built; the timer sees to it. */
  lemma ReconnectIff(x: XState, e: XEvent)
    requires XNext(x, e).Some?
    ensures !x.needReconnect ==> (XNext(x, e).value.0.needReconnect <==>
      (x.connected && !x.discarded && e.TunnelClosed?) || (!x.discarded && e.BuildError?))
    ensures x.needReconnect ==> (!XNext(x, e).value.0.needReconnect <==> e.Timer? && !x.discarded)
  {
    hide CmdOf, HandleOf;
  }

  /** A channel is stored for the request that is there, before `stop`. */
  lemma SavedIff(x: XState, c: Channel, h: Handle)
    ensures SaveTx(x, c, h).Some? <==> !x.discarded && h.idx < |x.slots| && x.slots[h.idx].tag == h.tag
    ensures SaveTx(x, c, h).Some? ==> var x' := SaveTx(x, c, h).value;
      && XLookup(x'.slots, h) == Some(c) && OthersStay(x.slots, x'.slots, h) && x' == x.(slots := x'.slots)
      && x'.slots[h.idx].isInused == x.slots[h.idx].isInused
  {
  }

  // ----- pings

  /** Only the command byte of a ping is changed into that of a pong. */
  predicate Answers(effects: seq<Effect>, f: seq<u8>) {
    && |effects| == 1 && effects[0].ToPeer? && effects[0].packet.cursor == 0
    && |effects[0].packet.buf| == |f| && CmdOf(effects[0].packet.buf) == Some(Pong)
    && forall i | 0 <= i < |f| && i != 2 :: effects[0].packet.buf[i] == f[i]
  }

  /** A ping is answered, by the peer only while it is connected; a pong is not. */
  lemma PingIsAnswered(t: TunState, x: XState, f: seq<u8>, tx: Channel)
    ensures CmdOf(f) == Some(Ping) ==>
      && Receive(t, f).Some? && Answers(Receive(t, f).value.1, f)
      && XReceive(x, f, tx).Some? && (if x.connected then Answers(XReceive(x, f, tx).value.1, f)
                                      else XReceive(x, f, tx).value.1 == [])
    ensures CmdOf(f) == Some(Pong) ==>
      Receive(t, f).Some? && Receive(t, f).value.1 == [] && XReceive(x, f, tx) == Some((x, []))
    ensures CmdOf(f) == Some(Ping) || CmdOf(f) == Some(Pong) || CmdOf(f) == Some(UdpX) ==>
      && Receive(t, f).value.0 == t.(busy := t.busy + |f| - 2)
      && (XReceive(x, f, tx).Some? ==> XReceive(x, f, tx).value.0 == x)
  {
  }

  /** A message from the UDP side goes there, without its length and command. */
  lemma UdpIsHandedOn(t: TunState, f: seq<u8>)
    requires CmdOf(f) == Some(UdpX)
    ensures Receive(t, f).Some? && Receive(t, f).value.1 == [ToUdp(f[3..])]
  {
  }
}
