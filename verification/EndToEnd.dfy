/** From one request's socket to the other end of it: chunks of several requests
    share one tunnel, and each request gets its own bytes back, in order. */
module EndToEnd {
  import opened Bytes
  import opened Counting
  import opened Transport
  import opened Framing
  import opened Outbound
  import opened Wire
  import opened ReqServ
  import opened Slots
  import opened Tunnels
  import opened TunnelRuns

  // ----- what was sent for a handle

  predicate IsDataFor(f: seq<u8>, h: Handle) {
    CmdOf(f) == Some(ReqData) && HandleOf(f) == Some(h)
  }

  /** The data frames of one handle, in order. */
  function DataFrames(frames: seq<seq<u8>>, h: Handle): (r: seq<seq<u8>>)
    ensures forall f | f in r :: IsDataFor(f, h)
  {
    if frames == [] then []
    else (if IsDataFor(frames[0], h) then [frames[0]] else []) + DataFrames(frames[1..], h)
  }

  function Frames(queue: seq<Packet>): (r: seq<seq<u8>>)
    ensures |r| == |queue| && forall i | 0 <= i < |queue| :: r[i] == queue[i].buf
  {
    seq(|queue|, i requires 0 <= i < |queue| => queue[i].buf)
  }

  function Payloads(frames: seq<seq<u8>>): (r: seq<seq<u8>>)
    requires forall f | f in frames :: |f| >= PREFIX
    ensures |r| == |frames| && forall i | 0 <= i < |frames| :: r[i] == frames[i][PREFIX..]
  {
    seq(|frames|, i requires 0 <= i < |frames| => frames[i][PREFIX..])
  }

  lemma DataFramesStep(f: seq<u8>, rest: seq<seq<u8>>, h: Handle)
    ensures DataFrames([f] + rest, h) == DataFrames([f], h) + DataFrames(rest, h)
  {
    assert ([f] + rest)[1..] == rest;
  }

  lemma {:induction false} DataFramesSplit(a: seq<seq<u8>>, b: seq<seq<u8>>, h: Handle)
    ensures DataFrames(a + b, h) == DataFrames(a, h) + DataFrames(b, h)
  {
    if a == [] {
      assert a + b == b;
    } else {
      hide DataFrames, IsDataFor;
      DataFramesSplit(a[1..], b, h);
      HeadTail(a, b);
      DataFramesStep(a[0], a[1..], h);
      DataFramesStep(a[0], a[1..] + b, h);
      Assoc(DataFrames([a[0]], h), DataFrames(a[1..], h), DataFrames(b, h));
    }
  }

  lemma {:induction false} OnlyDataFrames(frames: seq<seq<u8>>, h: Handle, other: Handle)
    requires forall f | f in frames :: IsDataFor(f, h)
    ensures DataFrames(frames, other) == if other == h then frames else []
  {
    if frames != [] {
      OnlyDataFrames(frames[1..], h, other);
      assert frames[0] in frames && frames == [frames[0]] + frames[1..];
    }
  }

  lemma NoDataFrame(f: seq<u8>, h: Handle)
    requires !IsDataFor(f, h)
    ensures DataFrames([f], h) == []
  {
  }

  /** The queue that a request's pump fills holds its chunks as frames the
      decoder accepts, and nothing for any other handle. */
  lemma PumpedFrames(h: Handle, chunks: seq<seq<u8>>, other: Handle)
    requires forall c | c in chunks :: IsChunk(c)
    ensures var fs := Frames(DataPackets(h, chunks));
      && (forall f | f in fs :: IsFrame(f) && |f| >= PREFIX) && Payloads(fs) == chunks
      && DataFrames(fs, other) == (if other == h then fs else [])
      && DataFrames(fs + [FinishPacket(h).buf], other) == DataFrames(fs, other)
  {
    hide Encode, IsFrame, CmdOf, HandleOf, DataFrames;
    var fs := Frames(DataPackets(h, chunks));
    var end := FinishPacket(h).buf;
    forall i | 0 <= i < |fs|
      ensures IsFrame(fs[i]) && |fs[i]| >= PREFIX && IsDataFor(fs[i], h) && fs[i][PREFIX..] == chunks[i]
    {
      assert chunks[i] in chunks;
      EncodeRoundTrip(ReqData, h, chunks[i]);
    }
    OnlyDataFrames(fs, h, other);
    EncodeRoundTrip(ReqClientFinished, h, []);
    NoDataFrame(end, other);
    DataFramesSplit(fs, [end], other);
  }

  /** `all` takes from the fronts of `parts`, in any order, until they are empty. */
  ghost predicate Shuffles(all: seq<seq<u8>>, parts: seq<seq<seq<u8>>>) {
    if all == [] then forall p | p in parts :: p == []
    else exists i :: 0 <= i < |parts| && parts[i] != [] && parts[i][0] == all[0]
                     && Shuffles(all[1..], parts[i := parts[i][1..]])
  }

  /** However the requests' queues are interleaved, a handle's data frames stay
      what its own request queued. */
  lemma {:induction false} ShuffleKeeps(all: seq<seq<u8>>, parts: seq<seq<seq<u8>>>, j: nat, h: Handle)
    requires Shuffles(all, parts) && j < |parts|
    requires forall i | 0 <= i < |parts| && i != j :: DataFrames(parts[i], h) == []
    ensures DataFrames(all, h) == DataFrames(parts[j], h)
    decreases |all|
  {
    if all == [] {
      assert parts[j] in parts;
    } else {
      var i :| 0 <= i < |parts| && parts[i] != [] && parts[i][0] == all[0]
               && Shuffles(all[1..], parts[i := parts[i][1..]]);
      ShuffleKeeps(all[1..], parts[i := parts[i][1..]], j, h);
    }
  }

  // ----- what is delivered to a channel

  function Delivered(log: seq<Effect>, c: Channel): seq<Packet> {
    if log == [] then []
    else (if log[0].ToRequest? && log[0].tx == c then [log[0].packet] else []) + Delivered(log[1..], c)
  }

  lemma DeliveredStep(e: Effect, rest: seq<Effect>, c: Channel)
    ensures Delivered([e] + rest, c) == Delivered([e], c) + Delivered(rest, c)
  {
    assert ([e] + rest)[1..] == rest;
  }

  lemma {:induction false} DeliveredSplit(a: seq<Effect>, b: seq<Effect>, c: Channel)
    ensures Delivered(a + b, c) == Delivered(a, c) + Delivered(b, c)
  {
    if a == [] {
      assert a + b == b;
    } else {
      hide Delivered;
      DeliveredSplit(a[1..], b, c);
      HeadTail(a, b);
      DeliveredStep(a[0], a[1..], c);
      DeliveredStep(a[0], a[1..] + b, c);
      Assoc(Delivered([a[0]], c), Delivered(a[1..], c), Delivered(b, c));
    }
  }

  lemma TailsStep(p: Packet, rest: seq<Packet>)
    ensures Tails([p] + rest) == p.Tail() + Tails(rest)
  {
    assert ([p] + rest)[1..] == rest;
  }

  lemma {:induction false} TailsSplit(a: seq<Packet>, b: seq<Packet>)
    ensures Tails(a + b) == Tails(a) + Tails(b)
  {
    if a == [] {
      assert a + b == b;
    } else {
      hide Tails;
      TailsSplit(a[1..], b);
      HeadTail(a, b);
      TailsStep(a[0], a[1..]);
      TailsStep(a[0], a[1..] + b);
      Assoc(a[0].Tail(), Tails(a[1..]), Tails(b));
    }
  }

  /** The channel belongs to the handle, and to no other slot. */
  ghost predicate Carries(p: Pool, h: Handle, c: Channel) {
    && Lookup(p, h) == Some(c)
    && (forall j | 0 <= j < |p.elements| && j != h.idx :: p.elements[j].tx != Some(c))
  }

  /** A step that neither ends the handle nor gives its channel to someone else. */
  predicate Spares(s: Step, h: Handle, c: Channel) {
    && Closes(s) != Some(h)
    && (s.Message? ==> !(CmdOf(s.frame) == Some(ReqServerFinished) && HandleOf(s.frame) == Some(h)))
    && (s.Open? ==> s.tx != c)
  }

  function StepFrames(s: Step): seq<seq<u8>> {
    if s.Message? then [s.frame] else []
  }

  function Received(steps: seq<Step>): seq<seq<u8>> {
    if steps == [] then [] else StepFrames(steps[0]) + Received(steps[1..])
  }

  /** What a sequence of data frames delivers. */
  function AsPackets(frames: seq<seq<u8>>): (r: seq<Packet>)
    ensures |r| == |frames| && forall i | 0 <= i < |frames| :: r[i] == Packet(frames[i], PREFIX)
  {
    seq(|frames|, i requires 0 <= i < |frames| => Packet(frames[i], PREFIX))
  }

  lemma AsPacketsSplit(a: seq<seq<u8>>, b: seq<seq<u8>>)
    ensures AsPackets(a + b) == AsPackets(a) + AsPackets(b)
  {
  }

  /** The channel is not in use, and nothing has been delivered to it. */
  ghost predicate IsNew(tr: Trace, c: Channel) {
    Delivered(tr.log, c) == [] && forall i | 0 <= i < |tr.t.pool.elements| :: tr.t.pool.elements[i].tx != Some(c)
  }

  /** A request that is opened with a new channel gets a handle that carries it,
      with nothing delivered so far: from here on the theorems below apply. */
  lemma OpenCarries(tr: Trace, c: Channel, target: seq<u8>)
    requires Inv(tr) && IsNew(tr, c) && OpenRequest(tr.t, c, target).1.Some?
    ensures var tr', h := Next(tr, Step.Open(c, target)).value, OpenRequest(tr.t, c, target).1.value;
      Carries(tr'.t.pool, h, c) && Delivered(tr'.log, c) == []
  {
    hide Encode;
    AllocKeeps(tr.t.pool, c);
    DeliveredSplit(tr.log, OpenRequest(tr.t, c, target).2, c);
  }

  /** So they apply to a new tunnel's first request, for one. */
  lemma FirstRequestCarries(capacity: u16, c: Channel, target: seq<u8>) returns (h: Handle)
    requires capacity > 0
    ensures Run(capacity, [Step.Open(c, target)]).Some?
    ensures var tr := Run(capacity, [Step.Open(c, target)]).value;
      Carries(tr.t.pool, h, c) && Delivered(tr.log, c) == []
  {
    hide Encode, Carries, Tagged, ReleasedOnce;
    var tr, s := Start(capacity), Step.Open(c, target);
    StartIsInv(capacity);
    StartIsOpen(capacity, c, target);
    OpenCarries(tr, c, target);
    h := OpenRequest(tr.t, c, target).1.value;
    StepKeepsInv(tr, s);
    assert [s][1..] == [];
    assert RunFrom(Next(tr, s).value, []) == Some(Next(tr, s).value);
  }

  lemma StartIsOpen(capacity: u16, c: Channel, target: seq<u8>)
    requires capacity > 0
    ensures Inv(Start(capacity)) && IsNew(Start(capacity), c)
    ensures OpenRequest(Start(capacity).t, c, target).1.Some?
  {
    StartIsInv(capacity);
    OpenKeeps(Start(capacity).t, c, target);
  }

  lemma StepCarries(tr: Trace, s: Step, h: Handle, c: Channel)
    requires Inv(tr) && Honest(tr, s) && Next(tr, s).Some?
    requires Carries(tr.t.pool, h, c) && Spares(s, h, c)
    ensures Carries(Next(tr, s).value.t.pool, h, c)
  {
    if s.Open? {
      AllocKeeps(tr.t.pool, s.tx);
    }
  }

  /** A message reaches the channel exactly if it is data for its handle. */
  lemma MessageDelivers(t: TunState, f: seq<u8>, h: Handle, c: Channel)
    requires Carries(t.pool, h, c) && Receive(t, f).Some?
    ensures Delivered(Receive(t, f).value.1, c) == AsPackets(DataFrames([f], h))
  {
    hide Release, DropTx;
    assert [f][1..] == [];
    if IsDataFor(f, h) {
      assert Receive(t, f).value.1 == [ToRequest(c, Packet(f, PREFIX))];
    }
  }

  lemma StepDelivers(tr: Trace, s: Step, h: Handle, c: Channel)
    requires Inv(tr) && Honest(tr, s) && Next(tr, s).Some? && Carries(tr.t.pool, h, c)
    ensures Delivered(Next(tr, s).value.log, c) ==
            Delivered(tr.log, c) + AsPackets(DataFrames(StepFrames(s), h))
  {
    hide Honest, Receive, Encode, Alloc, Free, Bump, NoDup, InUse, Tagged, ReleasedOnce;
    match s
    case Open(tx, target) =>
      DeliveredSplit(tr.log, OpenRequest(tr.t, tx, target).2, c);
    case Close(g) =>
      DeliveredSplit(tr.log, CloseRequest(tr.t, g).1, c);
    case Message(f) =>
      DeliveredSplit(tr.log, Receive(tr.t, f).value.1, c);
      MessageDelivers(tr.t, f, h, c);
  }

  lemma {:induction false} RunDelivers(tr: Trace, steps: seq<Step>, h: Handle, c: Channel)
    requires Inv(tr) && RunFrom(tr, steps).Some? && Carries(tr.t.pool, h, c)
    requires forall s | s in steps :: Spares(s, h, c)
    ensures Carries(RunFrom(tr, steps).value.t.pool, h, c)
    ensures Delivered(RunFrom(tr, steps).value.log, c) ==
            Delivered(tr.log, c) + AsPackets(DataFrames(Received(steps), h))
    decreases |steps|
  {
    if steps == [] {
      assert Delivered(tr.log, c) + AsPackets([]) == Delivered(tr.log, c);
    } else {
      var s, tr' := steps[0], Next(tr, steps[0]).value;
      assert s in steps;
      StepCarries(tr, s, h, c);
      StepDelivers(tr, s, h, c);
      StepKeepsInv(tr, s);
      RunDelivers(tr', steps[1..], h, c);
      var a, b := DataFrames(StepFrames(s), h), DataFrames(Received(steps[1..]), h);
      DataFramesSplit(StepFrames(s), Received(steps[1..]), h);
      AsPacketsSplit(a, b);
      Assoc(Delivered(tr.log, c), AsPackets(a), AsPackets(b));
    }
  }

  lemma {:induction false} PacketBytes(frames: seq<seq<u8>>)
    requires forall f | f in frames :: |f| >= PREFIX
    ensures Tails(AsPackets(frames)) == Concat(Payloads(frames))
  {
    if frames != [] {
      PacketBytes(frames[1..]);
      assert AsPackets(frames)[1..] == AsPackets(frames[1..]);
      assert Payloads(frames)[1..] == Payloads(frames[1..]);
    }
  }

  lemma {:induction false} QueueBytes(queue: seq<Packet>)
    requires forall p | p in queue :: p.cursor == 0
    ensures Tails(queue) == Concat(Frames(queue))
  {
    if queue != [] {
      assert queue[0] in queue && queue[0].buf[0..] == queue[0].buf;
      QueueBytes(queue[1..]);
      assert Frames(queue)[1..] == Frames(queue[1..]);
    }
  }

  // ----- the theorem

  /** Several requests share a link: the data of `h` in `parts[j]` is what the
      pump of request `j` queued, no other part has data of `h`, and `queue` is
      any interleaving of the parts. */
  ghost predicate Shared(queue: seq<Packet>, parts: seq<seq<seq<u8>>>, j: nat, h: Handle, chunks: seq<seq<u8>>) {
    && (forall p | p in queue :: p.cursor == 0 && IsFrame(p.buf))
    && Shuffles(Frames(queue), parts) && j < |parts|
    && DataFrames(parts[j], h) == Frames(DataPackets(h, chunks)) && (forall x | x in chunks :: IsChunk(x))
    && (forall i | 0 <= i < |parts| && i != j :: DataFrames(parts[i], h) == [])
  }

  /** The decoder yields the shared queue, and the data of `h` in it is what
      request `j` queued. */
  lemma SharedFrames(queue: seq<Packet>, parts: seq<seq<seq<u8>>>, j: nat, h: Handle, chunks: seq<seq<u8>>)
    requires Shared(queue, parts, j, h, chunks)
    ensures Parse(Tails(queue)) == Parsed(Frames(queue), NeedMore)
    ensures DataFrames(Frames(queue), h) == Frames(DataPackets(h, chunks))
  {
    QueueIsParsed(queue);
    ShuffleKeeps(Frames(queue), parts, j, h);
  }

  /** What the pump of one request was given and has queued. */
  datatype Pumped = Pumped(handle: Handle, chunks: seq<seq<u8>>, ended: bool)

  function PumpFrames(p: Pumped): seq<seq<u8>> {
    Frames(PumpQueue(p.handle, p.chunks, p.ended))
  }

  /** A message that the tunnel itself sends: a create, a close, a ping. */
  predicate IsControl(f: seq<u8>) {
    IsFrame(f) && CmdOf(f) != Some(ReqData)
  }

  /** The queues of all requests, and the tunnel's own messages. */
  function AllParts(pumps: seq<Pumped>, control: seq<seq<u8>>): (parts: seq<seq<seq<u8>>>)
    ensures |parts| == |pumps| + 1 && parts[|pumps|] == control
    ensures forall i | 0 <= i < |pumps| :: parts[i] == PumpFrames(pumps[i])
  {
    seq(|pumps|, i requires 0 <= i < |pumps| => PumpFrames(pumps[i])) + [control]
  }

  lemma {:induction false} ShuffledIsFromAPart(all: seq<seq<u8>>, parts: seq<seq<seq<u8>>>, f: seq<u8>) returns (i: nat)
    requires Shuffles(all, parts) && f in all
    ensures i < |parts| && f in parts[i]
    decreases |all|
  {
    var k :| 0 <= k < |parts| && parts[k] != [] && parts[k][0] == all[0]
             && Shuffles(all[1..], parts[k := parts[k][1..]]);
    if f == all[0] {
      return k;
    }
    i := ShuffledIsFromAPart(all[1..], parts[k := parts[k][1..]], f);
  }

  lemma PumpedPart(p: Pumped, other: Handle)
    requires forall c | c in p.chunks :: IsChunk(c)
    ensures forall f | f in PumpFrames(p) :: IsFrame(f)
    ensures DataFrames(PumpFrames(p), other) == if other == p.handle then Frames(DataPackets(p.handle, p.chunks)) else []
  {
    hide Encode, IsFrame, IsDataFor, DataFrames;
    var fs, end := Frames(DataPackets(p.handle, p.chunks)), FinishPacket(p.handle).buf;
    PumpedFrames(p.handle, p.chunks, other);
    EncodeRoundTrip(ReqClientFinished, p.handle, []);
    assert PumpFrames(p) == if p.ended then fs + [end] else fs;
  }

  lemma {:induction false} ControlHasNoData(control: seq<seq<u8>>, h: Handle)
    requires forall f | f in control :: IsControl(f)
    ensures DataFrames(control, h) == []
  {
    if control != [] {
      assert control[0] in control;
      ControlHasNoData(control[1..], h);
    }
  }

  /** Requests with different handles that pump into one tunnel, in any
      interleaving among each other and with the tunnel's own messages, share it:
      the theorem below holds for each of them. */
  lemma PumpsShare(queue: seq<Packet>, pumps: seq<Pumped>, control: seq<seq<u8>>, j: nat)
    requires forall p | p in queue :: p.cursor == 0
    requires forall p | p in pumps :: forall c | c in p.chunks :: IsChunk(c)
    requires forall i, k | 0 <= i < k < |pumps| :: pumps[i].handle != pumps[k].handle
    requires forall f | f in control :: IsControl(f)
    requires Shuffles(Frames(queue), AllParts(pumps, control)) && j < |pumps|
    ensures Shared(queue, AllParts(pumps, control), j, pumps[j].handle, pumps[j].chunks)
  {
    hide IsFrame, CmdOf, DataFrames, PumpFrames, Shuffles;
    var parts, h := AllParts(pumps, control), pumps[j].handle;
    forall i | 0 <= i < |parts|
      ensures forall f | f in parts[i] :: IsFrame(f)
      ensures DataFrames(parts[i], h) == if i == j then Frames(DataPackets(h, pumps[j].chunks)) else []
    {
      if i < |pumps| {
        assert pumps[i] in pumps;
        PumpedPart(pumps[i], h);
      } else {
        ControlHasNoData(control, h);
      }
    }
    forall p | p in queue
      ensures IsFrame(p.buf)
    {
      var k :| 0 <= k < |queue| && queue[k] == p;
      assert Frames(queue)[k] in Frames(queue);
      var i := ShuffledIsFromAPart(Frames(queue), parts, p.buf);
    }
    assert pumps[j] in pumps;
  }

  /** What has been received of a handle's data stands for its first chunks. */
  lemma ReceivedChunks(received: seq<seq<u8>>, all: seq<seq<u8>>, h: Handle, chunks: seq<seq<u8>>)
    requires received <= all && DataFrames(all, h) == Frames(DataPackets(h, chunks))
    requires forall x | x in chunks :: IsChunk(x)
    ensures var n := |DataFrames(received, h)|;
      && n <= |chunks| && (n == |chunks| <==> DataFrames(all[|received|..], h) == [])
      && DataFrames(received, h) == Frames(DataPackets(h, chunks[..n]))
      && Tails(AsPackets(DataFrames(received, h))) == Concat(chunks[..n])
  {
    var rest := all[|received|..];
    assert all == received + rest;
    DataFramesSplit(received, rest, h);
    var n := |DataFrames(received, h)|;
    assert DataFrames(received, h) == DataFrames(all, h)[..n];
    assert DataFrames(received, h) == Frames(DataPackets(h, chunks[..n]));
    PumpedFrames(h, chunks[..n], h);
    PacketBytes(DataFrames(received, h));
  }

  /** The link's decoder saw the shared queue's bytes in any chunking, so that by
      the contract of `ReceiveAll` it yields `Parse` of them, of which `steps`
      has received a part, among any other honest steps that spare the handle of
      request `j`. Then the bytes delivered to that request's channel are the
      first `n` of its chunks, and all of them once all its data was received. */
  lemma EndToEndTransparency(
      tr: Trace, steps: seq<Step>, queue: seq<Packet>, parts: seq<seq<seq<u8>>>,
      j: nat, h: Handle, chunks: seq<seq<u8>>, c: Channel)
    requires Inv(tr) && RunFrom(tr, steps).Some?
    requires Carries(tr.t.pool, h, c) && (forall s | s in steps :: Spares(s, h, c))
    requires Shared(queue, parts, j, h, chunks)
    requires Received(steps) <= Parse(Tails(queue)).frames
    ensures var n := |DataFrames(Received(steps), h)|;
      && n <= |chunks| && Received(steps) <= Frames(queue)
      && (n == |chunks| <==> DataFrames(Frames(queue)[|Received(steps)|..], h) == [])
      && Delivered(RunFrom(tr, steps).value.log, c) ==
           Delivered(tr.log, c) + AsPackets(Frames(DataPackets(h, chunks[..n])))
      && Tails(Delivered(RunFrom(tr, steps).value.log, c)) == Tails(Delivered(tr.log, c)) + Concat(chunks[..n])
  {
    SharedFrames(queue, parts, j, h, chunks);
    ReceivedChunks(Received(steps), Frames(queue), h, chunks);
    RunDelivers(tr, steps, h, c);
    TailsSplit(Delivered(tr.log, c), AsPackets(DataFrames(Received(steps), h)));
  }

  function AsMessages(frames: seq<seq<u8>>): (steps: seq<Step>)
    ensures |steps| == |frames| && forall i | 0 <= i < |frames| :: steps[i] == Step.Message(frames[i])
  {
    seq(|frames|, i requires 0 <= i < |frames| => Step.Message(frames[i]))
  }

  lemma {:induction false} MessagesAreReceived(frames: seq<seq<u8>>)
    ensures Received(AsMessages(frames)) == frames
  {
    if frames != [] {
      MessagesAreReceived(frames[1..]);
      assert AsMessages(frames)[1..] == AsMessages(frames[1..]);
    }
  }

  lemma DeliveredFrom(log: seq<Effect>, i: nat, c: Channel)
    requires i < |log|
    ensures Delivered(log[i..], c) ==
            if log[i].ToRequest? && log[i].tx == c then [log[i].packet] + Delivered(log[i + 1..], c)
            else Delivered(log[i + 1..], c)
  {
    assert log[i..][1..] == log[i + 1..];
  }

  /** The messages that wait for one channel. */
  method Collect(log: seq<Effect>, c: Channel) returns (packets: seq<Packet>)
    ensures packets == Delivered(log, c)
  {
    hide Delivered;
    packets := [];
    assert [] + Delivered(log, c) == Delivered(log, c);
    var i := 0;
    assert log[0..] == log;
    while i < |log|
      invariant i <= |log| && packets + Delivered(log[i..], c) == Delivered(log, c)
    {
      DeliveredFrom(log, i, c);
      if log[i].ToRequest? && log[i].tx == c {
        Assoc(packets, [log[i].packet], Delivered(log[i + 1..], c));
        packets := packets + [log[i].packet];
      }
      i := i + 1;
    }
    NothingYet(Handle(0, 0), c);
    assert log[i..] == [] && packets + [] == packets;
  }

  /** The receive loop of `tunbuilder`: every frame in turn to the tunnel. */
  method Dispatch(tunnel: Tunnel, frames: seq<seq<u8>>, ghost tr: Trace)
    requires tunnel.Valid() && tunnel.Value() == tr.t && tunnel.outbox == tr.log
    requires Inv(tr) && RunFrom(tr, AsMessages(frames)).Some?
    requires forall f | f in frames :: |f| >= 2
    modifies tunnel, tunnel.requests
    ensures tunnel.outbox == RunFrom(tr, AsMessages(frames)).value.log
    ensures tunnel.Valid() && tunnel.Value() == RunFrom(tr, AsMessages(frames)).value.t
  {
    ghost var steps, now := AsMessages(frames), tr;
    assert steps[0..] == steps;
    for i := 0 to |frames|
      invariant tunnel.Valid() && Inv(now) && tunnel.Value() == now.t && tunnel.outbox == now.log
      invariant RunFrom(now, steps[i..]) == RunFrom(tr, steps)
    {
      assert steps[i..][0] == Step.Message(frames[i]) && steps[i..][1..] == steps[i + 1..];
      StepKeepsInv(now, steps[i]);
      now := Next(now, steps[i]).value;
      var ok := tunnel.OnTunnelMsg(frames[i]);
    }
  }

  /** The whole path in one go: the shared queue is drained onto the wire, the
      wire's bytes arrive at the other end in any chunking, are framed and
      dispatched, and the request's messages are drained onto its socket. */
  method Relay(
      queue: seq<Packet>, wire: Destination, arriving: Source, tunnel: Tunnel, c: Channel, socket: Destination,
      ghost tr: Trace, ghost parts: seq<seq<seq<u8>>>, ghost j: nat, ghost h: Handle, ghost chunks: seq<seq<u8>>)
    returns (complete: bool)
    requires wire != socket && wire.written == socket.written == []
    requires tunnel.Valid() && tunnel.Value() == tr.t && tunnel.outbox == tr.log && Delivered(tr.log, c) == []
    requires Inv(tr) && RunFrom(tr, AsMessages(Frames(queue))).Some? && Carries(tr.t.pool, h, c)
    requires forall s | s in AsMessages(Frames(queue)) :: Spares(s, h, c)
    requires Shared(queue, parts, j, h, chunks)
    requires Stream(arriving.script) == Tails(queue)
    modifies wire, arriving, tunnel, tunnel.requests, socket
    ensures complete ==> wire.written == Stream(old(arriving.script)) && socket.written == Concat(chunks)
    ensures complete <==>
              FateOfAll(old(wire.script), Lengths(queue)) == AllTaken
              && FateOfAll(old(socket.script), Sizes(chunks)) == AllTaken
  {
    var sent := Emit(queue, wire);
    var link := new LwsFramed(arriving, None);
    var frames, verdict := link.ReceiveAll();
    QueueIsParsed(queue);
    Dispatch(tunnel, frames, tr);
    var packets := Collect(tunnel.outbox, c);
    Dispatched(tr, queue, parts, j, h, chunks, c);
    var got := Emit(packets, socket);
    complete := sent && got;
  }

  lemma Dispatched(tr: Trace, queue: seq<Packet>, parts: seq<seq<seq<u8>>>, j: nat, h: Handle,
                   chunks: seq<seq<u8>>, c: Channel)
    requires Inv(tr) && RunFrom(tr, AsMessages(Frames(queue))).Some? && Carries(tr.t.pool, h, c)
    requires Delivered(tr.log, c) == []
    requires forall s | s in AsMessages(Frames(queue)) :: Spares(s, h, c)
    requires Shared(queue, parts, j, h, chunks)
    ensures var packets := Delivered(RunFrom(tr, AsMessages(Frames(queue))).value.log, c);
            Tails(packets) == Concat(chunks) && Lengths(packets) == Sizes(chunks) && forall p | p in packets :: p.Fits()
  {
    hide Delivered, DataFrames, Inv, RunFrom, Parse, Carries, Spares, Shuffles, IsFrame, IsChunk;
    hide Frames, Tails, AsPackets, DataPackets, AsMessages, Received, Concat;
    var frames, sent := Frames(queue), Frames(DataPackets(h, chunks));
    QueueIsParsed(queue);
    MessagesAreReceived(frames);
    EndToEndTransparency(tr, AsMessages(frames), queue, parts, j, h, chunks, c);
    PumpedFrames(h, chunks, h);
    NothingYet(h, c);
    assert frames[|frames|..] == [] && chunks[..|chunks|] == chunks;
    assert [] + AsPackets(sent) == AsPackets(sent) && [] + Concat(chunks) == Concat(chunks);
    DataFits(sent);
    DataSizes(h, chunks);
  }

  function Sizes(chunks: seq<seq<u8>>): (sizes: seq<nat>)
    ensures |sizes| == |chunks| && forall i | 0 <= i < |chunks| :: sizes[i] == |chunks[i]|
  {
    seq(|chunks|, i requires 0 <= i < |chunks| => |chunks[i]|)
  }

  lemma DataSizes(h: Handle, chunks: seq<seq<u8>>)
    ensures Lengths(AsPackets(Frames(DataPackets(h, chunks)))) == Sizes(chunks)
  {
  }

  lemma NothingYet(h: Handle, c: Channel)
    ensures DataFrames([], h) == [] && Delivered([], c) == [] && Tails([]) == []
  {
  }

  lemma DataFits(frames: seq<seq<u8>>)
    requires forall f | f in frames :: IsFrame(f) && |f| >= PREFIX
    ensures forall p | p in AsPackets(frames) :: p.Fits()
  {
    forall p | p in AsPackets(frames)
      ensures p.Fits()
    {
      var i :| 0 <= i < |frames| && AsPackets(frames)[i] == p;
      assert frames[i] in frames;
    }
  }

  /** Drain messages onto an untouched socket. */
  method Emit(queue: seq<Packet>, io: Destination) returns (whole: bool)
    requires io.written == [] && (forall p | p in queue :: p.Fits())
    modifies io
    ensures whole ==> io.written == Tails(queue)
    ensures whole <==> FateOfAll(old(io.script), Lengths(queue)) == AllTaken
  {
    assert [] + Lengths(queue) == Lengths(queue);
    var sink := new FramedSink(io);
    var r, left := sink.Forward(queue);
    assert [] + [] + Tails(queue) == Tails(queue);
    whole := r.Flushed?;
  }

  lemma QueueIsParsed(queue: seq<Packet>)
    requires forall p | p in queue :: p.cursor == 0 && IsFrame(p.buf)
    ensures Parse(Tails(queue)) == Parsed(Frames(queue), NeedMore)
    ensures forall f | f in Frames(queue) :: IsFrame(f)
  {
    QueueBytes(queue);
    assert Tails(queue) + [] == Tails(queue);
    forall f | f in Frames(queue)
      ensures IsFrame(f)
    {
      var i :| 0 <= i < |queue| && Frames(queue)[i] == f;
      assert queue[i] in queue;
    }
    ParseOfConcat(Frames(queue), []);
    assert Frames(queue) + [] == Frames(queue);
  }
}
