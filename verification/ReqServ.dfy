/** A request's socket on its way into the tunnel: `TcpFramed` cuts it into
    chunks with room for a header in front, `on_request_msg` stamps them, and the
    end of the socket is announced behind them. */
module ReqServ {
  import opened Bytes
  import opened Transport
  import opened Framing
  import opened Outbound
  import opened Wire

  datatype ChunkPoll = ChunkPending | Chunk(vec: array<u8>) | ChunkError | ChunkEnd

  class TcpFramed {
    const io: Source
    var hasFinished: bool

    constructor (io: Source)
      ensures this.io == io && !hasFinished
    {
      this.io, hasFinished := io, false;
    }

    method PollNext() returns (p: ChunkPoll)
      modifies this, io
      ensures EndingOf(io.script) == EndingOf(old(io.script))
      ensures hasFinished == (old(hasFinished) || p.ChunkError? || p.ChunkEnd?)
      ensures p.Chunk? ==> fresh(p.vec) && PREFIX < p.vec.Length <= DEFAULT_CAP
      ensures io.script == ReadOf(old(io.script), CHUNK_MAX).1
      ensures p.ChunkPending? <==> ReadOf(old(io.script), CHUNK_MAX).0 == NotReady
      ensures p.ChunkError? <==> ReadOf(old(io.script), CHUNK_MAX).0 == ReadFailed
      ensures p.ChunkEnd? <==> ReadOf(old(io.script), CHUNK_MAX).0 == Got([])
      ensures p.Chunk? ==> ReadOf(old(io.script), CHUNK_MAX).0 == Got(p.vec[PREFIX..])
      ensures p.Chunk? ==> Stream(old(io.script)) == p.vec[PREFIX..] + Stream(io.script)
      ensures p.Chunk? ==> Work(io.script) < Work(old(io.script))
      ensures p.ChunkPending? ==> Stream(io.script) == Stream(old(io.script))
      ensures p.ChunkPending? ==> Work(io.script) < Work(old(io.script)) || io.script == []
      ensures p.ChunkError? ==> Stream(old(io.script)) == [] == Stream(io.script) && EndingOf(io.script) == AtError
      ensures p.ChunkEnd? ==> Stream(old(io.script)) == [] == Stream(io.script) && EndingOf(io.script) == AtEof
    {
      var r := io.Read(CHUNK_MAX);
      match r
      case NotReady => return ChunkPending;
      case ReadFailed =>
        hasFinished := true;
        return ChunkError;
      case Got(bytes) =>
        if |bytes| <= 0 {
          hasFinished := true;
          return ChunkEnd;
        }
        var vec := new u8[PREFIX + |bytes|](i requires 0 <= i < PREFIX + |bytes| =>
          if i < PREFIX then 0 else bytes[i - PREFIX]);
        assert vec[PREFIX..] == bytes;
        return Chunk(vec);
    }
  }

  function DataPacket(h: Handle, chunk: seq<u8>): Packet {
    Packet(Encode(ReqData, h, chunk), 0)
  }

  function DataPackets(h: Handle, chunks: seq<seq<u8>>): (q: seq<Packet>)
    ensures |q| == |chunks|
    ensures forall i | 0 <= i < |chunks| :: q[i] == DataPacket(h, chunks[i])
  {
    seq(|chunks|, i requires 0 <= i < |chunks| => DataPacket(h, chunks[i]))
  }

  function FinishPacket(h: Handle): Packet {
    Packet(Encode(ReqClientFinished, h, []), 0)
  }

  /** What a request queues for its tunnel: its chunks, and a finish message once
      its receive loop has ended. */
  function PumpQueue(h: Handle, chunks: seq<seq<u8>>, ended: bool): seq<Packet> {
    DataPackets(h, chunks) + if ended then [FinishPacket(h)] else []
  }

  predicate IsChunk(c: seq<u8>) {
    0 < |c| <= CHUNK_MAX
  }

  lemma PacketsMore(h: Handle, chunks: seq<seq<u8>>, chunk: seq<u8>)
    ensures DataPackets(h, chunks + [chunk]) == DataPackets(h, chunks) + [DataPacket(h, chunk)]
  {
  }

  lemma FitsInChunk(chunk: seq<u8>)
    requires 0 < |chunk| <= CHUNK_MAX
    ensures IsChunk(chunk)
  {
  }

  lemma NothingYet(h: Handle)
    ensures Concat([]) == [] && DataPackets(h, []) == [] && Stream([]) == [] && EndingOf([]) == Open
  {
  }

  /** The chunks that at most `polls` polls yield, one for each read that gives bytes,
      and whether the loop has ended: with the socket, or because the tripwire went
      off before the next poll. */
  function Pumping(script: seq<ReadEvent>, polls: Option<nat>): (r: (seq<seq<u8>>, bool))
    decreases Work(script)
  {
    if polls == Some(0) then ([], true)
    else
      var (r, rest) := ReadOf(script, CHUNK_MAX);
      ReadUsesUp(script, CHUNK_MAX);
      var fewer := Fewer(polls, 1);
      match r
      case NotReady => if rest == [] then ([], false) else Pumping(rest, fewer)
      case ReadFailed => ([], true)
      case Got(bytes) =>
        if bytes == [] then ([], true)
        else
          var (chunks, ended) := Pumping(rest, fewer);
          ([bytes] + chunks, ended)
  }

  function Fewer(polls: Option<nat>, n: nat): Option<nat>
    requires polls.Some? ==> n <= polls.value
  {
    if polls.None? then None else Some(polls.value - n)
  }

  lemma PumpingStep(done: seq<seq<u8>>, script: seq<ReadEvent>, polls: Option<nat>)
    ensures polls == Some(0) ==> Pumping(script, polls) == ([], true)
    ensures polls != Some(0) ==> var (r, rest) := ReadOf(script, CHUNK_MAX);
      && (r.NotReady? ==> Pumping(script, polls) == if rest == [] then ([], false) else Pumping(rest, Fewer(polls, 1)))
      && (r.ReadFailed? || r == Got([]) ==> Pumping(script, polls) == ([], true))
      && (r.Got? && r.bytes != [] ==>
            Ahead(done, Pumping(script, polls)) == Ahead(done + [r.bytes], Pumping(rest, Fewer(polls, 1))))
  {
    if polls != Some(0) {
      var (r, rest) := ReadOf(script, CHUNK_MAX);
      if r.Got? && r.bytes != [] {
        Assoc(done, [r.bytes], Pumping(rest, Fewer(polls, 1)).0);
      }
    }
  }

  function Ahead(chunks: seq<seq<u8>>, more: (seq<seq<u8>>, bool)): (seq<seq<u8>>, bool) {
    (chunks + more.0, more.1)
  }

  lemma ReadUsesUp(script: seq<ReadEvent>, room: nat)
    requires room > 0
    ensures var (r, rest) := ReadOf(script, room);
      (r.NotReady? && rest != []) || (r.Got? && r.bytes != []) ==> Work(rest) < Work(script)
  {
    if script != [] && script[0].Arrived? && room < |script[0].bytes| {
      var rest: Chunk := script[0].bytes[room..];
      assert ([Arrived(rest)] + script[1..])[1..] == script[1..];
    }
  }

  /** The receive loop of a request: what it queues for the tunnel is the front of
      its socket's bytes, cut into frames the decoder accepts, then one finish
      message once the loop has ended: at the end of the socket, or before the
      poll at which the tripwire has gone off. */
  method Pump(io: Source, h: Handle, trip: Option<nat>)
    returns (queue: seq<Packet>, chunks: seq<seq<u8>>, ended: bool)
    modifies io
    ensures Concat(chunks) + Stream(io.script) == Stream(old(io.script)) && (forall c | c in chunks :: IsChunk(c))
    ensures queue == PumpQueue(h, chunks, ended) && (chunks, ended) == Pumping(old(io.script), trip)
    ensures trip.None? ==> Concat(chunks) == Stream(old(io.script)) && (ended <==> !EndingOf(old(io.script)).Open?)
    ensures !ended ==> Concat(chunks) == Stream(old(io.script)) && EndingOf(old(io.script)).Open?
  {
    hide Stream, EndingOf, Work, Concat, Encode, IsChunk, Pumping, ReadOf;
    NothingYet(h);
    ghost var whole, ending := Stream(io.script), EndingOf(io.script);
    ghost var goal := Pumping(io.script, trip);
    assert [] + goal.0 == goal.0;
    assert [] + whole == whole;
    var framed := new TcpFramed(io);
    queue, chunks, ended := [], [], false;
    var polls := 0;
    while trip != Some(polls)
      invariant EndingOf(io.script) == ending && Concat(chunks) + Stream(io.script) == whole
      invariant forall c | c in chunks :: IsChunk(c)
      invariant queue == DataPackets(h, chunks)
      invariant trip.Some? ==> polls <= trip.value
      invariant goal == Ahead(chunks, Pumping(io.script, Fewer(trip, polls)))
      decreases Work(io.script)
    {
      PumpingStep(chunks, io.script, Fewer(trip, polls));
      polls := polls + 1;
      var p := framed.PollNext();
      assert chunks + [] == chunks;
      assert Concat(chunks) + [] == Concat(chunks);
      match p
      case ChunkPending =>
        if io.script == [] {
          assert queue + [] == queue;
          return;
        }
      case Chunk(vec) =>
        var chunk := vec[PREFIX..];
        StampData(vec, h);
        ConcatMore(chunks, chunk, Stream(io.script));
        PacketsMore(h, chunks, chunk);
        FitsInChunk(chunk);
        queue := queue + [Packet(vec[..], 0)];
        chunks := chunks + [chunk];
      case ChunkError =>
        queue, ended := queue + [FinishPacket(h)], true;
        return;
      case ChunkEnd =>
        queue, ended := queue + [FinishPacket(h)], true;
        return;
    }
    PumpingStep(chunks, io.script, Fewer(trip, polls));
    assert chunks + [] == chunks;
    queue, ended := queue + [FinishPacket(h)], true;
  }
}
