/** The byte stream under the framing layers. What the environment does is a
    script of events, so that "for every script" means every way to split the
    bytes, every would-block in between, and every kind of ending. */
module Transport {
  import opened Bytes

  type Chunk = s: seq<u8> | |s| > 0 witness [0]
  type Positive = n: nat | n > 0 witness 1

  datatype ReadEvent = Blocked | Arrived(bytes: Chunk) | Eof | Broken
  datatype ReadResult = NotReady | Got(bytes: seq<u8>) | ReadFailed

  /** How the readable side ends: still open, closed by the peer, or broken. */
  datatype Ending = Open | AtEof | AtError

  /** Every byte the script delivers, whatever its splitting. */
  function Stream(script: seq<ReadEvent>): (bs: seq<u8>) {
    if script == [] then []
    else match script[0]
      case Blocked => Stream(script[1..])
      case Arrived(bytes) => bytes + Stream(script[1..])
      case Eof => []
      case Broken => []
  }

  function EndingOf(script: seq<ReadEvent>): Ending {
    if script == [] then Open
    else match script[0]
      case Blocked => EndingOf(script[1..])
      case Arrived(_) => EndingOf(script[1..])
      case Eof => AtEof
      case Broken => AtError
  }

  /** What is left to happen; every read but one at the very end uses some of it up. */
  ghost function Work(script: seq<ReadEvent>): nat {
    |Stream(script)| + |script|
  }

  /** How often the reader has to wait. */
  function Waits(script: seq<ReadEvent>): nat {
    if script == [] then 0 else (if script[0].Blocked? then 1 else 0) + Waits(script[1..])
  }

  /** One read into `room` free bytes, and the script behind it. */
  function ReadOf(script: seq<ReadEvent>, room: nat): (r: (ReadResult, seq<ReadEvent>)) {
    if room == 0 then (Got([]), script)
    else if script == [] then (NotReady, [])
    else match script[0]
      case Blocked => (NotReady, script[1..])
      case Arrived(bytes) =>
        if room >= |bytes| then (Got(bytes), script[1..])
        else (var rest: Chunk := bytes[room..]; (Got(bytes[..room]), [Arrived(rest)] + script[1..]))
      case Eof => (Got([]), script)
      case Broken => (ReadFailed, script)
  }

  class Source {
    var script: seq<ReadEvent>

    constructor (s: seq<ReadEvent>)
      ensures script == s
    {
      script := s;
    }

    /** `poll_read_buf` into a buffer with `room` free bytes: reads into a full
        buffer, and reads at the end of the stream, give zero bytes. */
    method Read(room: nat) returns (r: ReadResult)
      modifies this
      ensures (r, script) == ReadOf(old(script), room) && (old(script) == [] ==> script == [])
      ensures Waits(old(script)) == Waits(script) + if r.NotReady? && old(script) != [] then 1 else 0
      ensures EndingOf(script) == EndingOf(old(script))
      ensures r.NotReady? ==> room > 0 && Stream(script) == Stream(old(script))
      ensures r.NotReady? ==> Work(script) < Work(old(script)) || script == old(script) == []
      ensures r.Got? ==> |r.bytes| <= room && Stream(old(script)) == r.bytes + Stream(script)
      ensures r.Got? && r.bytes != [] ==> Work(script) < Work(old(script))
      ensures r.Got? && r.bytes == [] && room > 0 ==> Stream(script) == [] && EndingOf(script) == AtEof
      ensures r.ReadFailed? ==> Stream(script) == [] == Stream(old(script)) && EndingOf(script) == AtError
    {
      if room == 0 {
        return Got([]);
      }
      if script == [] {
        return NotReady;
      }
      match script[0]
      case Blocked =>
        script := script[1..];
        return NotReady;
      case Arrived(bytes) =>
        var n := Min(room, |bytes|);
        if n == |bytes| {
          script := script[1..];
          return Got(bytes);
        }
        var rest: Chunk := bytes[n..];
        script := [Arrived(rest)] + script[1..];
        assert script[1..] == old(script)[1..];
        assert bytes == bytes[..n] + rest;
        return Got(bytes[..n]);
      case Eof =>
        return Got([]);
      case Broken =>
        return ReadFailed;
    }
  }

  datatype WriteEvent = WriteBlocked | Accepts(room: Positive) | WriteBroken
  datatype WriteResult = WriteNotReady | Wrote(count: nat) | WriteFailed

  /** How often the writer has to wait. */
  function WriteWaits(script: seq<WriteEvent>): nat {
    if script == [] then 0 else (if script[0].WriteBlocked? then 1 else 0) + WriteWaits(script[1..])
  }

  /** What becomes of `n` bytes that are offered until they are gone. */
  datatype Fate = AllTaken | Stuck | Fails

  function FateOf(script: seq<WriteEvent>, n: nat): Fate {
    if n == 0 then AllTaken
    else if script == [] then Stuck
    else match script[0]
      case WriteBlocked => FateOf(script[1..], n)
      case Accepts(room) => FateOf(script[1..], n - Min(room, n))
      case WriteBroken => Fails
  }

  /** The script that is left once they are taken. */
  function Left(script: seq<WriteEvent>, n: nat): seq<WriteEvent> {
    if n == 0 || script == [] then script
    else match script[0]
      case WriteBlocked => Left(script[1..], n)
      case Accepts(room) => Left(script[1..], n - Min(room, n))
      case WriteBroken => script
  }

  /** How much the socket takes before it breaks or falls silent. */
  function Capacity(script: seq<WriteEvent>): nat {
    if script == [] then 0
    else match script[0]
      case WriteBlocked => Capacity(script[1..])
      case Accepts(room) => room + Capacity(script[1..])
      case WriteBroken => 0
  }

  /** What becomes of the bytes is a matter of how many there are, and of whether
      the socket breaks; it does not matter how often it makes the writer wait. */
  lemma {:induction false} FateIff(script: seq<WriteEvent>, n: nat)
    ensures FateOf(script, n) == AllTaken <==> n <= Capacity(script)
    ensures FateOf(script, n) == Fails <==> n > Capacity(script) && WriteBroken in script
    decreases |script|
  {
    if script != [] {
      assert script == [script[0]] + script[1..];
      match script[0]
      case WriteBlocked => FateIff(script[1..], n);
      case Accepts(room) => FateIff(script[1..], n - Min(room, n));
      case WriteBroken =>
    }
  }

  datatype Flush = FlushPending | Flushed | FlushFailed

  class Destination {
    var script: seq<WriteEvent>
    var written: seq<u8>

    constructor (s: seq<WriteEvent>)
      ensures script == s && written == []
    {
      script, written := s, [];
    }

    /** `poll_write_buf`: some non-empty prefix of the bytes is taken, zero
        bytes only when none were offered. */
    method Write(bytes: seq<u8>) returns (r: WriteResult)
      modifies this
      ensures !r.Wrote? ==> written == old(written)
      ensures r.Wrote? ==> r.count <= |bytes| && written == old(written) + bytes[..r.count]
      ensures r.Wrote? && bytes != [] ==> 0 < r.count
      ensures FateOf(script, |bytes| - if r.Wrote? then r.count else 0) == FateOf(old(script), |bytes|)
      ensures WriteWaits(old(script)) == WriteWaits(script) + if r.WriteNotReady? && old(script) != [] then 1 else 0
      ensures Left(script, |bytes| - if r.Wrote? then r.count else 0) == Left(old(script), |bytes|)
      ensures r.WriteFailed? ==> FateOf(script, |bytes|) == Fails
      ensures if bytes == [] then r.Wrote? && script == old(script)
              else |script| < |old(script)| || (script == old(script) && !r.Wrote? && (r.WriteNotReady? ==> script == []))
    {
      if bytes == [] {
        return Wrote(0);
      }
      if script == [] {
        return WriteNotReady;
      }
      match script[0]
      case WriteBlocked =>
        script := script[1..];
        return WriteNotReady;
      case Accepts(room) =>
        var n := Min(room, |bytes|);
        script := script[1..];
        written := written + bytes[..n];
        return Wrote(n);
      case WriteBroken =>
        return WriteFailed;
    }

    /** `poll_flush` of the socket: it moves no byte of ours, but may have to wait. */
    method Flush() returns (r: Flush)
      modifies this
      ensures written == old(written)
      ensures match r
              case FlushPending => old(script) == [WriteBlocked] + script
              case Flushed => script == old(script) && (script != [] ==> script[0].Accepts?)
              case FlushFailed => script == old(script) && script != [] && script[0].WriteBroken?
      ensures WriteWaits(old(script)) == WriteWaits(script) + if r.FlushPending? then 1 else 0
    {
      if script == [] {
        return Flushed;
      }
      match script[0]
      case WriteBlocked =>
        script := script[1..];
        return FlushPending;
      case Accepts(_) =>
        return Flushed;
      case WriteBroken =>
        return FlushFailed;
    }
  }
}
