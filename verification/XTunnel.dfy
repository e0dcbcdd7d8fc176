/** The peer role of a tunnel: `XReqq` slots are created, re-created and closed
    at the other end's word, while `req_count` mirrors them without a guard. */
module XTunnels {
  import opened Bytes
  import opened Framing
  import opened Outbound
  import opened Wire
  import opened Slots
  import opened Tunnels
  import opened ReqServ
  import E = EndToEnd

  const REQ_CAP := 128

  datatype XSlot = XSlot(tag: u16, isInused: bool, tx: Option<Channel>)

  datatype XState = XState(
    slots: seq<XSlot>, reqCount: u16, connected: bool, needReconnect: bool, discarded: bool)

  function NewX(): XState {
    XState(seq(REQ_CAP, _ => XSlot(0, false, None)), 0, false, false, false)
  }

  // ----- XReqq on values

  function XClean(s: XSlot): XSlot {
    s.(isInused := false, tx := None)
  }

  function XAlloc(slots: seq<XSlot>, h: Handle): (r: seq<XSlot>)
    ensures |r| == |slots|
  {
    if h.idx >= |slots| then slots else slots[h.idx := XSlot(h.tag, true, None)]
  }

  /** `check_req_valid`, and the two guards of `XReqq::free` */
  predicate IsValidReq(slots: seq<XSlot>, h: Handle) {
    h.idx < |slots| && slots[h.idx].isInused && slots[h.idx].tag == h.tag
  }

  function XFree(slots: seq<XSlot>, h: Handle): (r: (seq<XSlot>, bool))
    ensures |r.0| == |slots|
  {
    if IsValidReq(slots, h) then (slots[h.idx := XClean(slots[h.idx])], true) else (slots, false)
  }

  function XClearAll(slots: seq<XSlot>): (r: seq<XSlot>)
    ensures |r| == |slots| && forall i | 0 <= i < |r| :: r[i] == XClean(slots[i])
  {
    seq(|slots|, i requires 0 <= i < |slots| => XClean(slots[i]))
  }

  function XLookup(slots: seq<XSlot>, h: Handle): Option<Channel> {
    if h.idx < |slots| && slots[h.idx].tag == h.tag then slots[h.idx].tx else None
  }

  function XDropTx(slots: seq<XSlot>, h: Handle): seq<XSlot> {
    if XLookup(slots, h).Some? then slots[h.idx := slots[h.idx].(tx := None)] else slots
  }

  // ----- the handlers on values

  /** `save_request_tx`; `None` is an error. */
  function SaveTx(x: XState, tx: Channel, h: Handle): Option<XState> {
    if x.discarded || h.idx >= |x.slots| || x.slots[h.idx].tag != h.tag then None
    else Some(x.(slots := x.slots[h.idx := x.slots[h.idx].(tx := Some(tx))]))
  }

  /** A create message: the slot is taken over, whatever it held, and counted
      unless the request's channel cannot be stored. */
  function Create(x: XState, tx: Channel, h: Handle): XState {
    var taken := x.(slots := XAlloc(x.slots, h));
    var saved := SaveTx(taken, tx, h);
    if saved.None? then taken else saved.value.(reqCount := Truncate16(x.reqCount + 1))
  }

  /** A close message: here the decrement is guarded. */
  function ClientClosed(x: XState, h: Handle): XState {
    var (slots, ok) := XFree(x.slots, h);
    x.(slots := slots, reqCount := if ok && x.reqCount > 0 then x.reqCount - 1 else x.reqCount)
  }

  /** `on_tunnel_proxy_msg`; `tx` is the channel a create message gives its
      request. `None` is a panic. */
  function XProxy(x: XState, cmd: Cmd, f: seq<u8>, tx: Channel): (r: Option<(XState, seq<Effect>)>) {
    if HandleOf(f).None? then None
    else
      var h := HandleOf(f).value;
      match cmd
      case ReqData =>
        var c := XLookup(x.slots, h);
        Some((x, if c.None? then [] else [ToRequest(c.value, Packet(f, PREFIX))]))
      case ReqClientFinished => Some((x.(slots := XDropTx(x.slots, h)), []))
      case ReqClientClosed => Some((ClientClosed(x, h), []))
      case ReqCreated => if |f| < PREFIX + 2 then None else Some((Create(x, tx, h), []))
      case _ => Some((x, []))
  }

  /** `on_tunnel_msg` */
  function XReceive(x: XState, f: seq<u8>, tx: Channel): (r: Option<(XState, seq<Effect>)>) {
    if CmdOf(f).None? then None
    else if CmdOf(f) == Some(Ping) then
      Some((x, if x.connected then [ToPeer(Packet(f[2 := CmdNumber(Pong)], 0))] else []))
    else if CmdOf(f) == Some(Pong) then Some((x, []))
    else XProxy(x, CmdOf(f).value, f, tx)
  }

  /** `on_request_closed`: here the decrement is not guarded. */
  function XRequestClosed(x: XState, h: Handle): (r: (XState, seq<Effect>)) {
    if !IsValidReq(x.slots, h) || !x.connected then (x, [])
    else (x.(slots := XFree(x.slots, h).0, reqCount := Decrement(x.reqCount)),
          [ToPeer(Packet(Encode(ReqServerClosed, h, []), 0))])
  }

  /** `on_request_msg` on a chunk */
  function XRequestMsg(x: XState, h: Handle, chunk: seq<u8>): seq<Effect> {
    if IsValidReq(x.slots, h) && x.connected then [ToPeer(DataPacket(h, chunk))] else []
  }

  /** `on_request_recv_finished` */
  function XRequestFinished(x: XState, h: Handle): seq<Effect> {
    if IsValidReq(x.slots, h) && x.connected then [ToPeer(Packet(Encode(ReqServerFinished, h, []), 0))] else []
  }

  function XTunnelCreated(x: XState): XState {
    if x.discarded then x else x.(connected := true)
  }

  function XTunnelClosed(x: XState): XState {
    var closed := x.(connected := false);
    if x.connected && x.discarded then closed
    else closed.(needReconnect := x.needReconnect || x.connected, slots := XClearAll(x.slots))
  }

  function XBuildError(x: XState): XState {
    if x.discarded then x else x.(needReconnect := true)
  }

  function XKeepalive(x: XState): XState {
    if x.discarded then x else x.(needReconnect := false)
  }

  function XStop(x: XState): XState {
    x.(discarded := true)
  }

  // ----- runs

  datatype XEvent =
    | Message(f: seq<u8>, tx: Channel)
    | RequestClosed(h: Handle)
    | RequestMsg(h: Handle, chunk: seq<u8>)
    | RequestFinished(h: Handle)
    | TunnelCreated
    | TunnelClosed
    | BuildError
    | Timer
    | Discard

  /** `None` when the handler panics. */
  function XNext(x: XState, e: XEvent): Option<(XState, seq<Effect>)> {
    match e
    case Message(f, tx) => XReceive(x, f, tx)
    case RequestClosed(h) => Some(XRequestClosed(x, h))
    case RequestMsg(h, chunk) => Some((x, XRequestMsg(x, h, chunk)))
    case RequestFinished(h) => Some((x, XRequestFinished(x, h)))
    case TunnelCreated => Some((XTunnelCreated(x), []))
    case TunnelClosed => Some((XTunnelClosed(x), []))
    case BuildError => Some((XBuildError(x), []))
    case Timer => Some((XKeepalive(x), []))
    case Discard => Some((XStop(x), []))
  }

  /** State and effects after a run; `None` after a panic. */
  function XRun(x: XState, log: seq<Effect>, events: seq<XEvent>): (r: Option<(XState, seq<Effect>)>)
    decreases |events|
  {
    if events == [] then Some((x, log))
    else match XNext(x, events[0])
      case None => None
      case Some((x', effects)) => XRun(x', log + effects, events[1..])
  }

  // ----- the counter

  function InUseCount(slots: seq<XSlot>): nat {
    if slots == [] then 0
    else (if slots[0].isInused then 1 else 0) + InUseCount(slots[1..])
  }

  lemma {:induction false} CountUpdate(slots: seq<XSlot>, i: nat, s: XSlot)
    requires i < |slots|
    ensures InUseCount(slots[i := s]) ==
            InUseCount(slots) - (if slots[i].isInused then 1 else 0) + if s.isInused then 1 else 0
  {
    if i == 0 {
      assert slots[0 := s][1..] == slots[1..];
    } else {
      CountUpdate(slots[1..], i - 1, s);
      assert slots[i := s][1..] == slots[1..][i - 1 := s];
    }
  }

  lemma {:induction false} CountOfNone(slots: seq<XSlot>)
    requires forall s | s in slots :: !s.isInused
    ensures InUseCount(slots) == 0
  {
    if slots != [] {
      assert slots[0] in slots;
      CountOfNone(slots[1..]);
    }
  }

  predicate IsCreate(e: XEvent) {
    e.Message? && CmdOf(e.f) == Some(ReqCreated)
  }

  function Creations(events: seq<XEvent>): nat {
    if events == [] then 0 else (if IsCreate(events[0]) then 1 else 0) + Creations(events[1..])
  }

  /** The step decrements `req_count` when it is zero. */
  predicate Underflows(x: XState, e: XEvent) {
    e.RequestClosed? && IsValidReq(x.slots, e.h) && x.connected && x.reqCount == 0
  }

  /** No more slots in use than counted, and no more counted than created. */
  ghost predicate Covered(x: XState, created: nat) {
    !x.discarded && InUseCount(x.slots) <= x.reqCount <= created
  }

  lemma CreateStaysCovered(x: XState, tx: Channel, h: Handle, created: nat)
    requires Covered(x, created) && created + 1 < 0x1_0000
    ensures Covered(Create(x, tx, h), created + 1)
  {
    if h.idx < |x.slots| {
      CountUpdate(x.slots, h.idx, XSlot(h.tag, true, Some(tx)));
      assert Create(x, tx, h).slots == x.slots[h.idx := XSlot(h.tag, true, Some(tx))];
    }
  }

  lemma FreeLowersCount(slots: seq<XSlot>, h: Handle)
    ensures InUseCount(XFree(slots, h).0) == InUseCount(slots) - if XFree(slots, h).1 then 1 else 0
    ensures InUseCount(XDropTx(slots, h)) == InUseCount(slots)
  {
    if h.idx < |slots| {
      CountUpdate(slots, h.idx, XClean(slots[h.idx]));
      CountUpdate(slots, h.idx, slots[h.idx].(tx := None));
    }
  }

  lemma MessageStaysCovered(x: XState, f: seq<u8>, tx: Channel, created: nat)
    requires Covered(x, created) && XReceive(x, f, tx).Some?
    requires created + (if CmdOf(f) == Some(ReqCreated) then 1 else 0) < 0x1_0000
    ensures Covered(XReceive(x, f, tx).value.0, created + if CmdOf(f) == Some(ReqCreated) then 1 else 0)
  {
    if |f| >= PREFIX {
      FreeLowersCount(x.slots, HandleOf(f).value);
      if CmdOf(f) == Some(ReqCreated) {
        CreateStaysCovered(x, tx, HandleOf(f).value, created);
      }
    }
  }

  lemma ClosedStaysCovered(x: XState, h: Handle, created: nat)
    requires Covered(x, created)
    ensures Covered(XRequestClosed(x, h).0, created)
    ensures IsValidReq(x.slots, h) ==> x.reqCount > 0
  {
    FreeLowersCount(x.slots, h);
  }

  lemma TunnelClosedStaysCovered(x: XState, created: nat)
    requires Covered(x, created)
    ensures Covered(XTunnelClosed(x), created)
  {
    CountOfNone(XClearAll(x.slots));
  }

  lemma StepStaysCovered(x: XState, e: XEvent, created: nat)
    requires Covered(x, created) && XNext(x, e).Some? && !e.Discard?
    requires created + (if IsCreate(e) then 1 else 0) < 0x1_0000
    ensures Covered(XNext(x, e).value.0, created + if IsCreate(e) then 1 else 0)
    ensures !Underflows(x, e)
  {
    if e.Message? {
      MessageStaysCovered(x, e.f, e.tx, created);
    } else if e.RequestClosed? {
      ClosedStaysCovered(x, e.h, created);
    } else {
      TunnelClosedStaysCovered(x, created);
    }
  }

  /** Peer-side counter safety: whatever messages arrive, with fewer than 65536
      create messages and before `stop`, no decrement of `req_count` underflows,
      and the slots in use never outnumber it. */
  lemma {:induction false} CounterNeverUnderflows(x: XState, log: seq<Effect>, events: seq<XEvent>, created: nat, k: nat)
    requires Covered(x, created) && created + Creations(events) < 0x1_0000
    requires XRun(x, log, events).Some? && (forall e | e in events :: !e.Discard?)
    requires k <= |events|
    ensures XRun(x, log, events[..k]).Some?
    ensures var x' := XRun(x, log, events[..k]).value.0;
            InUseCount(x'.slots) <= x'.reqCount && (k < |events| ==> !Underflows(x', events[k]))
    decreases k
  {
    if events != [] {
      assert events[0] in events;
      StepStaysCovered(x, events[0], created);
    }
    if k > 0 {
      var (x', effects) := XNext(x, events[0]).value;
      CounterNeverUnderflows(x', log + effects, events[1..], created + (if IsCreate(events[0]) then 1 else 0), k - 1);
      assert events[..k][1..] == events[1..][..k - 1];
    }
  }

  lemma NewIsCovered()
    ensures Covered(NewX(), 0) && |NewX().slots| == 128 && !NewX().connected && !NewX().needReconnect
  {
    CountOfNone(NewX().slots);
  }

  // ----- both conditions are needed

  function CreateMsg(h: Handle, port: seq<u8>): XEvent {
    XEvent.Message(Encode(ReqCreated, h, port), 0)
  }

  lemma CreateMsgCreates(x: XState, h: Handle, port: seq<u8>)
    requires |port| == 2
    ensures IsCreate(CreateMsg(h, port)) && XNext(x, CreateMsg(h, port)) == Some((Create(x, 0, h), []))
  {
    EncodeRoundTrip(ReqCreated, h, port);
  }

  lemma SilentStep(x: XState, log: seq<Effect>, events: seq<XEvent>, x': XState)
    requires events != [] && XNext(x, events[0]) == Some((x', []))
    ensures XRun(x, log, events) == XRun(x', log, events[1..])
  {
    assert log + [] == log;
  }

  /** A slot that is created after `stop` is not counted, so that closing its
      request takes `req_count` below zero. */
  lemma UnderflowAfterStop(h: Handle, port: seq<u8>)
    requires h.idx < REQ_CAP && |port| == 2
    ensures var r := XRun(NewX(), [], [TunnelCreated, Discard, CreateMsg(h, port)]);
      r.Some? && Underflows(r.value.0, RequestClosed(h))
  {
    hide XReceive, Encode, Create;
    var create := CreateMsg(h, port);
    var x1 := XTunnelCreated(NewX());
    var x2 := XStop(x1);
    UncountedRequest(x2, h, port);
    SilentStep(NewX(), [], [TunnelCreated, Discard, create], x1);
    SilentStep(x1, [], [Discard, create], x2);
    SilentStep(x2, [], [create], Create(x2, 0, h));
    assert [TunnelCreated, Discard, create][1..] == [Discard, create] && [Discard, create][1..] == [create];
    assert [create][1..] == [];
  }

  /** The link is down for good. */
  predicate IsDown(x: XState) {
    x.discarded && !x.connected
  }

  lemma {:induction false} DownStaysDown(x: XState, log: seq<Effect>, events: seq<XEvent>)
    requires IsDown(x) && XRun(x, log, events).Some?
    ensures IsDown(XRun(x, log, events).value.0)
    decreases |events|
  {
    if events != [] {
      var (x', effects) := XNext(x, events[0]).value;
      DownStaysDown(x', log + effects, events[1..]);
    }
  }

  /** After `stop` a create message takes its slot without being counted, so
      closing that request lowers the count by one. */
  lemma UncountedRequest(x: XState, h: Handle, port: seq<u8>)
    requires x.discarded && x.connected && h.idx < |x.slots| && |port| == 2
    ensures var x' := Create(x, 0, h); var (x'', _) := XRequestClosed(x', h);
      && XNext(x, CreateMsg(h, port)) == Some((x', [])) && IsValidReq(x'.slots, h)
      && x'.reqCount == x.reqCount && x'.discarded && x'.connected
      && x''.reqCount == Decrement(x.reqCount) && x''.discarded && x''.connected && |x''.slots| == |x.slots|
  {
    hide Encode;
    CreateMsgCreates(x, h, port);
  }

  /** Repeated, that brings the count to zero, and one more close below it. */
  lemma {:induction false} CountRunsOut(x: XState, log: seq<Effect>, h: Handle, port: seq<u8>)
    returns (events: seq<XEvent>)
    requires x.discarded && x.connected && h.idx < |x.slots| && |port| == 2
    ensures XRun(x, log, events).Some? && Underflows(XRun(x, log, events).value.0, RequestClosed(h))
    decreases x.reqCount
  {
    hide XReceive, Create, CreateMsg, XRequestClosed, IsValidReq;
    var create := CreateMsg(h, port);
    var x' := Create(x, 0, h);
    UncountedRequest(x, h, port);
    if x.reqCount == 0 {
      events := [create];
      SilentStep(x, log, events, x');
      assert events[1..] == [];
    } else {
      var (x'', effects) := XRequestClosed(x', h);
      var rest := CountRunsOut(x'', log + effects, h, port);
      events := [create, RequestClosed(h)] + rest;
      SilentStep(x, log, events, x');
      assert events[1..] == [RequestClosed(h)] + rest && events[1..][1..] == rest;
    }
  }

  /** So after `stop` some run takes the counter below zero exactly as long as the
      link is up. */
  lemma AfterStopIff(x: XState)
    requires x.discarded && 0 < |x.slots|
    ensures (exists events, e :: XRun(x, [], events).Some? && Underflows(XRun(x, [], events).value.0, e)) <==> x.connected
  {
    if x.connected {
      var events := CountRunsOut(x, [], Handle(0, 1), [0, 0]);
      assert Underflows(XRun(x, [], events).value.0, RequestClosed(Handle(0, 1)));
    } else {
      forall events | XRun(x, [], events).Some?
        ensures !XRun(x, [], events).value.0.connected
      {
        DownStaysDown(x, [], events);
      }
    }
  }

  function Repeat(e: XEvent, n: nat): (events: seq<XEvent>)
    ensures |events| == n && forall i | 0 <= i < n :: events[i] == e
  {
    seq(n, _ => e)
  }

  lemma Recreate(x: XState, h: Handle)
    requires h.idx < |x.slots| && !x.discarded && x.slots[h.idx] == XSlot(h.tag, true, Some(0))
    ensures Create(x, 0, h) == x.(reqCount := Truncate16(x.reqCount + 1))
  {
    assert Create(x, 0, h).slots == x.slots;
  }

  lemma TruncateSum(a: nat, b: nat)
    ensures Truncate16(Truncate16(a) + b) == Truncate16(a + b)
  {
  }

  lemma NothingRuns(x: XState, log: seq<Effect>)
    ensures XRun(x, log, []) == Some((x, log)) && Truncate16(x.reqCount) == x.reqCount
  {
  }

  lemma {:induction false} CreatesWrap(x: XState, log: seq<Effect>, h: Handle, port: seq<u8>, n: nat)
    requires h.idx < |x.slots| && !x.discarded && x.slots[h.idx] == XSlot(h.tag, true, Some(0)) && |port| == 2
    ensures XRun(x, log, Repeat(CreateMsg(h, port), n)) == Some((x.(reqCount := Truncate16(x.reqCount + n)), log))
    decreases n
  {
    hide XRun, XNext, Create, CreateMsg, Truncate16;
    if n == 0 {
      NothingRuns(x, log);
      assert Repeat(CreateMsg(h, port), n) == [];
    } else {
      var events := Repeat(CreateMsg(h, port), n);
      CreateMsgCreates(x, h, port);
      var x' := Create(x, 0, h);
      Recreate(x, h);
      TruncateSum(x.reqCount + 1, n - 1);
      SilentStep(x, log, events, x');
      CreatesWrap(x', log, h, port, n - 1);
      assert events[1..] == Repeat(CreateMsg(h, port), n - 1);
    }
  }

  /** A new tunnel, connected, and one slot created `n` times. */
  function ManyCreates(h: Handle, port: seq<u8>, n: nat): seq<XEvent> {
    [TunnelCreated] + Repeat(CreateMsg(h, port), n)
  }

  lemma RunOfCreates(h: Handle, port: seq<u8>, n: nat)
    requires h.idx < REQ_CAP && |port| == 2 && n > 0
    ensures XRun(NewX(), [], ManyCreates(h, port, n)).Some?
    ensures var x := XRun(NewX(), [], ManyCreates(h, port, n)).value.0;
      IsValidReq(x.slots, h) && x.connected && x.reqCount == Truncate16(n)
  {
    hide XRun, XNext, CreateMsg, Truncate16;
    var x0 := XTunnelCreated(NewX());
    var x1 := Create(x0, 0, h);
    var creates := Repeat(CreateMsg(h, port), n);
    assert ManyCreates(h, port, n)[1..] == creates && creates[1..] == Repeat(CreateMsg(h, port), n - 1);
    FirstSteps(h, port);
    SilentStep(NewX(), [], ManyCreates(h, port, n), x0);
    SilentStep(x0, [], creates, x1);
    CreatesWrap(x1, [], h, port, n - 1);
  }

  lemma FirstSteps(h: Handle, port: seq<u8>)
    requires h.idx < REQ_CAP && |port| == 2
    ensures var x0 := XTunnelCreated(NewX()); var x1 := Create(x0, 0, h);
      && XNext(NewX(), TunnelCreated) == Some((x0, [])) && XNext(x0, CreateMsg(h, port)) == Some((x1, []))
      && x1.slots[h.idx] == XSlot(h.tag, true, Some(0)) && x1.reqCount == 1 && x1.connected && !x1.discarded
  {
    hide CreateMsg, Encode, XReceive, Truncate16;
    CreateMsgCreates(XTunnelCreated(NewX()), h, port);
    FirstCreate(h);
  }

  lemma FirstCreate(h: Handle)
    requires h.idx < REQ_CAP
    ensures var x := Create(XTunnelCreated(NewX()), 0, h);
      x.slots[h.idx] == XSlot(h.tag, true, Some(0)) && x.reqCount == 1 && x.connected && !x.discarded
  {
  }

  /** Creating one busy slot 65536 times wraps the counter to zero. */
  lemma UnderflowAfterManyCreates(h: Handle, port: seq<u8>)
    requires h.idx < REQ_CAP && |port| == 2
    ensures var r := XRun(NewX(), [], ManyCreates(h, port, 0x1_0000));
            r.Some? && Underflows(r.value.0, RequestClosed(h))
  {
    hide XRun, ManyCreates;
    RunOfCreates(h, port, 0x1_0000);
  }

  lemma {:induction false} CreationsOfRepeat(h: Handle, port: seq<u8>, n: nat)
    requires |port| == 2
    ensures Creations(Repeat(CreateMsg(h, port), n)) == n
  {
    if n > 0 {
      CreateMsgCreates(NewX(), h, port);
      CreationsOfRepeat(h, port, n - 1);
      assert Repeat(CreateMsg(h, port), n)[1..] == Repeat(CreateMsg(h, port), n - 1);
    }
  }

  /** No run of a new tunnel before `stop` with at most `n` creations reaches a
      state in which the next event takes the counter below zero. */
  ghost predicate IsSafeUpTo(n: nat) {
    forall events: seq<XEvent>, e: XEvent |
        Creations(events) <= n && (forall d | d in events :: !d.Discard?) && XRun(NewX(), [], events).Some? ::
      !Underflows(XRun(NewX(), [], events).value.0, e)
  }

  /** The bound is exact. */
  lemma SafeIffFewCreations(n: nat)
    ensures IsSafeUpTo(n) <==> n < 0x1_0000
  {
    if n < 0x1_0000 {
      forall events: seq<XEvent>, e: XEvent |
        Creations(events) <= n && (forall d | d in events :: !d.Discard?) && XRun(NewX(), [], events).Some?
        ensures !Underflows(XRun(NewX(), [], events).value.0, e)
      {
        RunIsSafe(events, e);
      }
    } else {
      var h, port := Handle(0, 1), [0, 0];
      var events := ManyCreates(h, port, 0x1_0000);
      UnderflowAfterManyCreates(h, port);
      CreationsOfRepeat(h, port, 0x1_0000);
      assert events[1..] == Repeat(CreateMsg(h, port), 0x1_0000);
      assert Underflows(XRun(NewX(), [], events).value.0, RequestClosed(h));
    }
  }

  lemma RunIsSafe(events: seq<XEvent>, e: XEvent)
    requires Creations(events) < 0x1_0000 && (forall d | d in events :: !d.Discard?) && XRun(NewX(), [], events).Some?
    ensures !Underflows(XRun(NewX(), [], events).value.0, e)
  {
    NewIsCovered();
    RunStaysCovered(NewX(), [], events, 0);
    if e.RequestClosed? {
      ClosedStaysCovered(XRun(NewX(), [], events).value.0, e.h, Creations(events));
    }
  }

  lemma {:induction false} RunStaysCovered(x: XState, log: seq<Effect>, events: seq<XEvent>, created: nat)
    requires Covered(x, created) && created + Creations(events) < 0x1_0000
    requires XRun(x, log, events).Some? && (forall e | e in events :: !e.Discard?)
    ensures Covered(XRun(x, log, events).value.0, created + Creations(events))
    decreases |events|
  {
    if events != [] {
      assert events[0] in events;
      StepStaysCovered(x, events[0], created);
      var (x', effects) := XNext(x, events[0]).value;
      RunStaysCovered(x', log + effects, events[1..], created + if IsCreate(events[0]) then 1 else 0);
    }
  }

  // ----- delivery, peer side

  /** The slot of `h` is in use with channel `c`, and no other slot has it. */
  predicate XCarries(slots: seq<XSlot>, h: Handle, c: Channel) {
    && XLookup(slots, h) == Some(c)
    && (forall j | 0 <= j < |slots| && j != h.idx :: slots[j].tx != Some(c))
  }

  /** An event that neither ends the handle nor takes its slot or channel. */
  predicate XSpares(e: XEvent, h: Handle, c: Channel) {
    match e
    case Message(f, tx) =>
      && !(CmdOf(f) == Some(ReqClientFinished) && HandleOf(f) == Some(h))
      && !(CmdOf(f) == Some(ReqClientClosed) && HandleOf(f) == Some(h))
      && !(CmdOf(f) == Some(ReqCreated) && HandleOf(f).Some? && (HandleOf(f).value.idx == h.idx || tx == c))
    case RequestClosed(g) => g != h
    case TunnelClosed => false
    case _ => true
  }

  function XReceived(events: seq<XEvent>): seq<seq<u8>> {
    if events == [] then []
    else (if events[0].Message? then [events[0].f] else []) + XReceived(events[1..])
  }

  lemma XStepCarries(x: XState, e: XEvent, h: Handle, c: Channel)
    requires XCarries(x.slots, h, c) && XSpares(e, h, c) && XNext(x, e).Some?
    ensures XCarries(XNext(x, e).value.0.slots, h, c)
  {
  }

  lemma XStepDelivers(x: XState, e: XEvent, h: Handle, c: Channel)
    requires XCarries(x.slots, h, c) && XSpares(e, h, c) && XNext(x, e).Some?
    ensures XCarries(XNext(x, e).value.0.slots, h, c)
    ensures E.Delivered(XNext(x, e).value.1, c) ==
            E.AsPackets(E.DataFrames(if e.Message? then [e.f] else [], h))
  {
    hide Create, ClientClosed, XClearAll, XFree, XDropTx, Encode, DataPacket;
    XStepCarries(x, e, h, c);
  }

  /** Chunks that arrive at the peer role are delivered in order as well. */
  lemma {:induction false} XRunDelivers(x: XState, log: seq<Effect>, events: seq<XEvent>, h: Handle, c: Channel)
    requires XCarries(x.slots, h, c) && (forall e | e in events :: XSpares(e, h, c))
    requires XRun(x, log, events).Some?
    ensures XCarries(XRun(x, log, events).value.0.slots, h, c)
    ensures E.Delivered(XRun(x, log, events).value.1, c) ==
            E.Delivered(log, c) + E.AsPackets(E.DataFrames(XReceived(events), h))
    decreases |events|
  {
    if events == [] {
      assert E.Delivered(log, c) + E.AsPackets([]) == E.Delivered(log, c);
    } else {
      var e := events[0];
      assert e in events;
      var (x', effects) := XNext(x, e).value;
      XStepDelivers(x, e, h, c);
      XRunDelivers(x', log + effects, events[1..], h, c);
      var fs := if e.Message? then [e.f] else [];
      E.DeliveredSplit(log, effects, c);
      E.DataFramesSplit(fs, XReceived(events[1..]), h);
      E.AsPacketsSplit(E.DataFrames(fs, h), E.DataFrames(XReceived(events[1..]), h));
      Assoc(E.Delivered(log, c), E.AsPackets(E.DataFrames(fs, h)), E.AsPackets(E.DataFrames(XReceived(events[1..]), h)));
    }
  }

  /** From a client's request to its peer: of the chunks of request `j`, sent over
      a shared link in any interleaving and any chunking, the first `n` have
      reached its channel in order, and all of them once all its data was received. */
  lemma UpstreamTransparency(
      x: XState, log: seq<Effect>, events: seq<XEvent>, queue: seq<Packet>, parts: seq<seq<seq<u8>>>,
      j: nat, h: Handle, chunks: seq<seq<u8>>, c: Channel)
    requires XCarries(x.slots, h, c) && (forall e | e in events :: XSpares(e, h, c))
    requires XRun(x, log, events).Some? && E.Shared(queue, parts, j, h, chunks)
    requires XReceived(events) <= Parse(Tails(queue)).frames
    ensures var n := |E.DataFrames(XReceived(events), h)|;
      && n <= |chunks| && XReceived(events) <= E.Frames(queue)
      && (n == |chunks| <==> E.DataFrames(E.Frames(queue)[|XReceived(events)|..], h) == [])
      && Tails(E.Delivered(XRun(x, log, events).value.1, c)) == Tails(E.Delivered(log, c)) + Concat(chunks[..n])
  {
    E.SharedFrames(queue, parts, j, h, chunks);
    E.ReceivedChunks(XReceived(events), E.Frames(queue), h, chunks);
    XRunDelivers(x, log, events, h, c);
    E.TailsSplit(E.Delivered(log, c), E.AsPackets(E.DataFrames(XReceived(events), h)));
  }

  // ----- what the peer sends

  /** The messages for the tunnel. */
  function Sent(log: seq<Effect>): seq<Packet> {
    if log == [] then [] else (if log[0].ToPeer? then [log[0].packet] else []) + Sent(log[1..])
  }

  lemma SentStep(e: Effect, rest: seq<Effect>)
    ensures Sent([e] + rest) == Sent([e]) + Sent(rest)
  {
    assert ([e] + rest)[1..] == rest;
  }

  lemma {:induction false} SentSplit(a: seq<Effect>, b: seq<Effect>)
    ensures Sent(a + b) == Sent(a) + Sent(b)
  {
    if a == [] {
      assert a + b == b;
    } else {
      hide Sent;
      SentSplit(a[1..], b);
      HeadTail(a, b);
      SentStep(a[0], a[1..]);
      SentStep(a[0], a[1..] + b);
      Assoc(Sent([a[0]]), Sent(a[1..]), Sent(b));
    }
  }

  /** The chunk that an event adds to what is sent for `h`, if it is accepted. */
  function AcceptedNow(x: XState, e: XEvent, h: Handle): seq<seq<u8>> {
    if e.RequestMsg? && e.h == h && IsValidReq(x.slots, h) && x.connected then [e.chunk] else []
  }

  function Accepted(x: XState, events: seq<XEvent>, h: Handle): seq<seq<u8>>
    decreases |events|
  {
    if events == [] then []
    else match XNext(x, events[0])
      case None => []
      case Some((x', _)) => AcceptedNow(x, events[0], h) + Accepted(x', events[1..], h)
  }

  function DataOf(log: seq<Effect>, h: Handle): seq<seq<u8>> {
    E.DataFrames(E.Frames(Sent(log)), h)
  }

  lemma DataOfSplit(a: seq<Effect>, b: seq<Effect>, h: Handle)
    ensures DataOf(a + b, h) == DataOf(a, h) + DataOf(b, h)
  {
    SentSplit(a, b);
    assert E.Frames(Sent(a) + Sent(b)) == E.Frames(Sent(a)) + E.Frames(Sent(b));
    E.DataFramesSplit(E.Frames(Sent(a)), E.Frames(Sent(b)), h);
  }

  lemma OneSent(p: Packet, h: Handle)
    ensures DataOf([ToPeer(p)], h) == if E.IsDataFor(p.buf, h) then [p.buf] else []
    ensures DataOf([], h) == []
  {
    assert [ToPeer(p)][1..] == [] && Sent([ToPeer(p)]) == [p];
    assert E.Frames([p]) == [p.buf] && [p.buf][1..] == [] && E.Frames(Sent([])) == [];
    if E.IsDataFor(p.buf, h) {
      E.OnlyDataFrames([p.buf], h, h);
    } else {
      E.NoDataFrame(p.buf, h);
    }
  }

  lemma OneChunk(h: Handle, chunk: seq<u8>, other: Handle)
    ensures E.IsDataFor(Encode(ReqData, h, chunk), other) <==> h == other
    ensures E.Frames(DataPackets(h, [chunk])) == [Encode(ReqData, h, chunk)] && E.Frames(DataPackets(h, [])) == []
  {
    EncodeRoundTrip(ReqData, h, chunk);
  }

  lemma NoData(cmd: Cmd, g: Handle, h: Handle)
    requires cmd != ReqData
    ensures !E.IsDataFor(Encode(cmd, g, []), h)
  {
    EncodeRoundTrip(cmd, g, []);
  }

  /** One event sends data for `h` exactly if it is an accepted chunk of it. */
  lemma XStepSends(x: XState, e: XEvent, h: Handle)
    requires XNext(x, e).Some?
    ensures DataOf(XNext(x, e).value.1, h) == E.Frames(DataPackets(h, AcceptedNow(x, e, h)))
  {
    hide DataOf, Encode, DataPackets, XProxy;
    OneChunk(h, [], h);
    OneSent(Packet([], 0), h);
    match e {
      case RequestMsg(g, chunk) =>
        OneChunk(g, chunk, h);
        OneSent(DataPacket(g, chunk), h);
      case RequestClosed(g) =>
        NoData(ReqServerClosed, g, h);
        OneSent(Packet(Encode(ReqServerClosed, g, []), 0), h);
      case RequestFinished(g) =>
        NoData(ReqServerFinished, g, h);
        OneSent(Packet(Encode(ReqServerFinished, g, []), 0), h);
      case Message(f, tx) =>
        MessageSends(x, f, tx, h);
      case _ =>
    }
  }

  lemma MessageSends(x: XState, f: seq<u8>, tx: Channel, h: Handle)
    requires XReceive(x, f, tx).Some?
    ensures DataOf(XReceive(x, f, tx).value.1, h) == []
  {
    hide Create, ClientClosed, XDropTx;
    var effects := XReceive(x, f, tx).value.1;
    if CmdOf(f) == Some(Ping) {
      OneSent(Packet(f[2 := CmdNumber(Pong)], 0), h);
    } else {
      OneSent(Packet([], 0), h);
      assert effects == [] || (|effects| == 1 && effects[0].ToRequest? && effects[1..] == []);
      assert Sent(effects) == [] == Sent([]);
    }
  }

  /** The data frames for a handle among the messages of a run are its accepted
      chunks, in order. */
  lemma {:induction false} XRunSends(x: XState, log: seq<Effect>, events: seq<XEvent>, h: Handle)
    requires XRun(x, log, events).Some?
    ensures DataOf(XRun(x, log, events).value.1, h) ==
            DataOf(log, h) + E.Frames(DataPackets(h, Accepted(x, events, h)))
    decreases |events|
  {
    hide DataOf, XNext, AcceptedNow, DataPacket;
    if events == [] {
      OneChunk(h, [], h);
      assert DataOf(log, h) + [] == DataOf(log, h);
    } else {
      var (x', effects) := XNext(x, events[0]).value;
      var now, later := AcceptedNow(x, events[0], h), Accepted(x', events[1..], h);
      XStepSends(x, events[0], h);
      DataOfSplit(log, effects, h);
      XRunSends(x', log + effects, events[1..], h);
      assert E.Frames(DataPackets(h, now + later)) == E.Frames(DataPackets(h, now)) + E.Frames(DataPackets(h, later));
      Assoc(DataOf(log, h), E.Frames(DataPackets(h, now)), E.Frames(DataPackets(h, later)));
    }
  }

  /** Messages that arrive are frames, and chunks are as they were read. */
  predicate IsRegular(e: XEvent) {
    match e
    case Message(f, _) => IsFrame(f)
    case RequestMsg(_, chunk) => IsChunk(chunk)
    case _ => true
  }

  ghost predicate AreSendable(queue: seq<Packet>) {
    forall p | p in queue :: p.cursor == 0 && IsFrame(p.buf)
  }

  lemma XStepIsSendable(x: XState, e: XEvent)
    requires IsRegular(e) && XNext(x, e).Some?
    ensures AreSendable(Sent(XNext(x, e).value.1))
  {
    hide Create, ClientClosed, XDropTx, Encode, XLookup;
    match e {
      case RequestMsg(g, chunk) => EncodeRoundTrip(ReqData, g, chunk);
      case RequestClosed(g) => EncodeRoundTrip(ReqServerClosed, g, []);
      case RequestFinished(g) => EncodeRoundTrip(ReqServerFinished, g, []);
      case Message(f, _) => assert IsFrame(f) && |f| > 2 ==> IsFrame(f[2 := CmdNumber(Pong)]);
      case _ =>
    }
  }

  lemma {:induction false} XRunIsSendable(x: XState, log: seq<Effect>, events: seq<XEvent>)
    requires XRun(x, log, events).Some? && (forall e | e in events :: IsRegular(e)) && AreSendable(Sent(log))
    ensures AreSendable(Sent(XRun(x, log, events).value.1))
    decreases |events|
  {
    hide XNext, IsRegular;
    if events != [] {
      assert events[0] in events;
      var (x', effects) := XNext(x, events[0]).value;
      XStepIsSendable(x, events[0]);
      SentSplit(log, effects);
      XRunIsSendable(x', log + effects, events[1..]);
    }
  }

  lemma {:induction false} AcceptedAreChunks(x: XState, events: seq<XEvent>, h: Handle)
    requires forall e | e in events :: IsRegular(e)
    ensures forall c | c in Accepted(x, events, h) :: IsChunk(c)
    decreases |events|
  {
    hide XNext, XReceive;
    if events != [] && XNext(x, events[0]).Some? {
      assert events[0] in events;
      AcceptedAreChunks(XNext(x, events[0]).value.0, events[1..], h);
    }
  }

  lemma {:induction false} ShufflesAlone(all: seq<seq<u8>>)
    ensures E.Shuffles(all, [all])
  {
    if all != [] {
      ShufflesAlone(all[1..]);
      assert [all][0 := [all][0][1..]] == [all[1..]];
      assert [all][0] != [] && [all][0][0] == all[0];
    }
  }

  /** From the peer back to the client: what a run sends is a link that the
      accepted chunks of `h` share with everything else, so that
      `EndToEndTransparency` and `Relay` apply to it. */
  lemma XRunShares(x: XState, events: seq<XEvent>, h: Handle)
    requires XRun(x, [], events).Some? && (forall e | e in events :: IsRegular(e))
    ensures var queue := Sent(XRun(x, [], events).value.1);
      E.Shared(queue, [E.Frames(queue)], 0, h, Accepted(x, events, h))
  {
    hide XRun, Accepted;
    var queue := Sent(XRun(x, [], events).value.1);
    XRunSends(x, [], events, h);
    OneSent(Packet([], 0), h);
    XRunIsSendable(x, [], events);
    AcceptedAreChunks(x, events, h);
    ShufflesAlone(E.Frames(queue));
    assert [] + E.Frames(DataPackets(h, Accepted(x, events, h))) == E.Frames(DataPackets(h, Accepted(x, events, h)));
  }

  // ----- the classes

  class XReqq {
    var elements: seq<XSlot>

    constructor (size: nat)
      ensures elements == seq(size, _ => XSlot(0, false, None))
    {
      elements := [];
      new;
      for n := 0 to size
        invariant elements == seq(n, _ => XSlot(0, false, None))
      {
        elements := elements + [XSlot(0, false, None)];
      }
    }

    method AllocSlot(h: Handle)
      modifies this
      ensures elements == XAlloc(old(elements), h)
    {
      if h.idx >= |elements| {
        return;
      }
      elements := elements[h.idx := XClean(elements[h.idx])];
      elements := elements[h.idx := XSlot(h.tag, true, None)];
    }

    method FreeSlot(h: Handle) returns (ok: bool)
      modifies this
      ensures (elements, ok) == XFree(old(elements), h)
    {
      if h.idx >= |elements| {
        return false;
      }
      if elements[h.idx].tag != h.tag {
        return false;
      }
      if !elements[h.idx].isInused {
        return false;
      }
      elements := elements[h.idx := XClean(elements[h.idx])];
      return true;
    }

    method ClearSlots()
      modifies this
      ensures elements == XClearAll(old(elements))
    {
      var n := 0;
      while n < |elements|
        invariant n <= |elements| == |old(elements)|
        invariant forall i | 0 <= i < n :: elements[i] == XClean(old(elements)[i])
        invariant forall i | n <= i < |elements| :: elements[i] == old(elements)[i]
      {
        elements := elements[n := XClean(elements[n])];
        n := n + 1;
      }
      assert elements == XClearAll(old(elements));
    }
  }

  class XTunnel {
    const requests: XReqq
    var reqCount: u16
    var connected: bool
    var needReconnect: bool
    var discarded: bool
    var outbox: seq<Effect>

    constructor ()
      ensures fresh(requests) && Value() == NewX() && outbox == []
    {
      requests := new XReqq(REQ_CAP);
      reqCount, connected, needReconnect, discarded, outbox := 0, false, false, false, [];
    }

    ghost function Value(): XState
      reads this, requests
    {
      XState(requests.elements, reqCount, connected, needReconnect, discarded)
    }

    method SaveRequestTx(tx: Channel, h: Handle) returns (ok: bool)
      modifies requests
      ensures ok <==> SaveTx(old(Value()), tx, h).Some?
      ensures Value() == if ok then SaveTx(old(Value()), tx, h).value else old(Value())
    {
      if discarded {
        return false;
      }
      if h.idx >= |requests.elements| {
        return false;
      }
      var req := requests.elements[h.idx];
      if req.tag != h.tag {
        return false;
      }
      requests.elements := requests.elements[h.idx := req.(tx := Some(tx))];
      return true;
    }

    method OnTunnelProxyMsg(cmd: Cmd, f: seq<u8>, tx: Channel) returns (ok: bool)
      modifies this, requests
      ensures ok <==> XProxy(old(Value()), cmd, f, tx).Some?
      ensures ok ==> Value() == XProxy(old(Value()), cmd, f, tx).value.0
      ensures ok ==> outbox == old(outbox) + XProxy(old(Value()), cmd, f, tx).value.1
    {
      if |f| < PREFIX {
        return false;
      }
      assert outbox + [] == outbox;
      var h := ReadHandle(f[3..]);
      ok := true;
      match cmd
      case ReqData =>
        var c := XLookup(requests.elements, h);
        if c.Some? {
          outbox := outbox + [ToRequest(c.value, Packet(f, PREFIX))];
        }
      case ReqClientFinished =>
        requests.elements := XDropTx(requests.elements, h);
      case ReqClientClosed =>
        var r := requests.FreeSlot(h);
        if r && reqCount > 0 {
          reqCount := reqCount - 1;
        }
      case ReqCreated =>
        if |f| < PREFIX + 2 {
          return false;
        }
        requests.AllocSlot(h);
        var saved := SaveRequestTx(tx, h);
        if saved {
          reqCount := Truncate16(reqCount + 1);
        }
      case _ =>
    }

    method OnTunnelMsg(f: seq<u8>, tx: Channel) returns (ok: bool)
      modifies this, requests
      ensures ok <==> XReceive(old(Value()), f, tx).Some?
      ensures ok ==> Value() == XReceive(old(Value()), f, tx).value.0
      ensures ok ==> outbox == old(outbox) + XReceive(old(Value()), f, tx).value.1
    {
      assert outbox + [] == outbox;
      var cmd := CmdOf(f);
      if cmd.None? {
        return false;
      }
      ok := true;
      match cmd.value
      case Ping =>
        if connected {
          outbox := outbox + [ToPeer(Packet(f[2 := CmdNumber(Pong)], 0))];
        }
      case Pong =>
      case other =>
        ok := OnTunnelProxyMsg(other, f, tx);
    }

    method OnRequestClosed(h: Handle)
      modifies this, requests
      ensures Value() == XRequestClosed(old(Value()), h).0
      ensures outbox == old(outbox) + XRequestClosed(old(Value()), h).1
    {
      assert outbox + [] == outbox;
      if !IsValidReq(requests.elements, h) {
        return;
      }
      if !connected {
        return;
      }
      var r := requests.FreeSlot(h);
      if r {
        reqCount := Decrement(reqCount);
        outbox := outbox + [ToPeer(Packet(Encode(ReqServerClosed, h, []), 0))];
      }
    }

    method OnRequestRecvFinished(h: Handle)
      modifies this`outbox
      ensures outbox == old(outbox) + XRequestFinished(Value(), h)
    {
      assert outbox + [] == outbox;
      if !IsValidReq(requests.elements, h) {
        return;
      }
      if !connected {
        return;
      }
      outbox := outbox + [ToPeer(Packet(Encode(ReqServerFinished, h, []), 0))];
    }

    /** The chunk is stamped in the buffer it was read into. */
    method OnRequestMsg(vec: array<u8>, h: Handle) returns (ok: bool)
      requires PREFIX <= vec.Length
      modifies this, vec
      ensures Value() == old(Value())
      ensures outbox == old(outbox) + XRequestMsg(old(Value()), h, old(vec[PREFIX..]))
      ensures ok <==> IsValidReq(requests.elements, h) && connected
    {
      assert outbox + [] == outbox;
      if !IsValidReq(requests.elements, h) {
        return false;
      }
      if !connected {
        return false;
      }
      StampData(vec, h);
      outbox := outbox + [ToPeer(Packet(vec[..], 0))];
      return true;
    }

    method OnTunnelCreated() returns (ok: bool)
      modifies this
      ensures Value() == XTunnelCreated(old(Value())) && ok == !discarded
    {
      if discarded {
        return false;
      }
      connected := true;
      return true;
    }

    method OnTunnelClosed()
      modifies this, requests
      ensures Value() == XTunnelClosed(old(Value()))
    {
      var t := connected;
      connected := false;
      if t {
        if discarded {
          return;
        }
        needReconnect := true;
      }
      requests.ClearSlots();
    }

    method OnTunnelBuildError()
      modifies this
      ensures Value() == XBuildError(old(Value()))
    {
      if discarded {
        return;
      }
      needReconnect := true;
    }

    /** True when a reconnect is started. */
    method OnKeepalive() returns (connect: bool)
      modifies this
      ensures Value() == XKeepalive(old(Value())) && connect == (!discarded && old(needReconnect))
    {
      if discarded {
        return false;
      }
      connect := needReconnect;
      needReconnect := false;
    }

    method Stop()
      modifies this
      ensures Value() == XStop(old(Value()))
    {
      discarded := true;
    }
  }
}
