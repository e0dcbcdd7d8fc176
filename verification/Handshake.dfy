/** The client handshake: send the upgrade request, read until the first blank
    line, and hand the bytes behind it on as the tail of the link. */
module Handshake {
  import opened Bytes
  import opened Transport
  import opened Outbound
  import opened Framing

  const NEEDLE: seq<u8> := [13, 10, 13, 10]

  // ----- reference

  predicate NeedleAt(s: seq<u8>, i: nat) {
    i + 4 <= |s| && s[i..i + 4] == NEEDLE
  }

  /** The first position at or after `from` where the blank line stands. */
  function FirstNeedle(s: seq<u8>, from: nat): (r: Option<nat>)
    ensures r.Some? ==> from <= r.value && NeedleAt(s, r.value)
    ensures forall i | from <= i < (if r.Some? then r.value else |s|) :: !NeedleAt(s, i)
    decreases |s| - from
  {
    if from >= |s| then None
    else if NeedleAt(s, from) then Some(from)
    else FirstNeedle(s, from + 1)
  }

  /** The bytes behind the first blank line. */
  function AfterHeader(s: seq<u8>): (r: Option<seq<u8>>) {
    match FirstNeedle(s, 0)
    case None => None
    case Some(pos) => Some(s[pos + 4..])
  }

  /** Later bytes do not move the first blank line. */
  lemma AfterHeaderIsStable(s: seq<u8>, more: seq<u8>)
    ensures AfterHeader(s).Some? ==> AfterHeader(s + more) == Some(AfterHeader(s).value + more)
  {
    var a, b := FirstNeedle(s, 0), FirstNeedle(s + more, 0);
    if a.Some? {
      var p := a.value;
      assert (s + more)[p..p + 4] == s[p..p + 4];
      assert NeedleAt(s + more, p);
      assert b.Some? && b.value <= p;
      var q := b.value;
      assert (s + more)[q..q + 4] == s[q..q + 4];
      assert NeedleAt(s, q);
      assert (s + more)[p + 4..] == s[p + 4..] + more;
    }
  }

  /** CR LF CR LF with `a` in front of it and `b` behind it. */
  predicate Divides(s: seq<u8>, a: seq<u8>, b: seq<u8>) {
    s == a + [13, 10, 13, 10] + b
  }

  /** A header without its blank line: once that is appended it stands nowhere
      further in front. */
  ghost predicate IsHeader(a: seq<u8>) {
    forall x, y | Divides(a + [13, 10, 13, 10], x, y) :: |x| >= |a|
  }

  lemma NeedleDivides(s: seq<u8>, a: seq<u8>, b: seq<u8>)
    ensures Divides(s, a, b) ==> NeedleAt(s, |a|) && s[|a| + 4..] == b
    ensures NeedleAt(s, |a|) && a == s[..|a|] && b == s[|a| + 4..] ==> Divides(s, a, b)
  {
    if Divides(s, a, b) {
      assert s[|a|..|a| + 4] == [13, 10, 13, 10];
    }
    if NeedleAt(s, |a|) {
      assert s == s[..|a|] + s[|a|..|a| + 4] + s[|a| + 4..];
    }
  }

  /** What lies behind the first blank line is what was put behind it. */
  lemma BehindBlankLine(a: seq<u8>, b: seq<u8>)
    requires IsHeader(a)
    ensures AfterHeader(a + [13, 10, 13, 10] + b) == Some(b)
  {
    var s := a + [13, 10, 13, 10];
    assert s + [] == s;
    NeedleDivides(s, a, []);
    var n := FirstNeedle(s, 0).value;
    NeedleDivides(s, s[..n], s[n + 4..]);
    AfterHeaderIsStable(s, b);
    assert [] + b == b;
  }

  /** The bytes divide in one way, or there is no blank line. */
  lemma AfterHeaderIff(s: seq<u8>, b: seq<u8>)
    ensures AfterHeader(s) == Some(b) <==> exists a :: IsHeader(a) && Divides(s, a, b)
    ensures AfterHeader(s).None? <==> forall a, b :: !Divides(s, a, b)
  {
    forall x, y | Divides(s, x, y)
      ensures AfterHeader(s).Some?
    {
      NeedleDivides(s, x, y);
    }
    forall a | IsHeader(a) && Divides(s, a, b)
      ensures AfterHeader(s) == Some(b)
    {
      BehindBlankLine(a, b);
    }
    var n := FirstNeedle(s, 0);
    if n.Some? {
      var a := s[..n.value];
      NeedleDivides(s, a, s[n.value + 4..]);
      assert a + [13, 10, 13, 10] == s[..n.value + 4];
      forall x, y | Divides(a + [13, 10, 13, 10], x, y)
        ensures |x| >= |a|
      {
        NeedleDivides(a + [13, 10, 13, 10], x, y);
        assert s[|x|..|x| + 4] == s[..n.value + 4][|x|..|x| + 4];
        assert NeedleAt(s, |x|);
      }
      assert IsHeader(a) && Divides(s, a, s[n.value + 4..]);
    }
  }

  // ----- CHandshake

  datatype State = WritingHeader | ReadingResponse | Done
  datatype Outcome =
    | Waiting
    | Connected(tail: Option<seq<u8>>)
    | WriteError
    | ReadError
    | Truncated      // "can't read completed response"

  class CHandshake {
    const input: Source
    const output: Destination
    var readBuf: seq<u8>
    var capacity: nat    // of `readBuf`, which grows when it is full
    const wmsg: WMessage
    var state: State

    constructor (input: Source, output: Destination, request: seq<u8>)
      requires |request| < 0x1_0000
      ensures this.input == input && this.output == output && fresh(wmsg)
      ensures Valid() && state == WritingHeader && readBuf == [] && wmsg.Bytes() == request
    {
      this.input, this.output := input, output;
      readBuf, capacity, state := [], 1024, WritingHeader;
      wmsg := new WMessage(request, 0);
    }

    ghost predicate Valid()
      reads this, wmsg
    {
      && wmsg.Valid() && |wmsg.buf| < 0x1_0000 && |readBuf| <= capacity
      && (state.WritingHeader? ==> readBuf == [])
      && (state.ReadingResponse? ==> AfterHeader(readBuf).None?)
      && (!state.WritingHeader? ==> wmsg.Bytes() == [])
    }

    /** What has been read and what will be. */
    ghost function Incoming(): seq<u8>
      reads this, input
    {
      readBuf + Stream(input.script)
    }

    /** What will become of the rest of the request. */
    ghost function Prospect(): Fate
      requires wmsg.Valid()
      reads this, wmsg, output
    {
      FateOf(output.script, |wmsg.Bytes()|)
    }

    /** `parse_response`: drop everything up to the blank line. */
    method ParseResponse() returns (found: bool)
      modifies this`readBuf
      ensures found == AfterHeader(old(readBuf)).Some? && |readBuf| <= |old(readBuf)|
      ensures readBuf == if found then AfterHeader(old(readBuf)).value else old(readBuf)
    {
      var pos := 0;
      while pos + 4 <= |readBuf|
        invariant readBuf == old(readBuf)
        invariant pos <= |readBuf| && FirstNeedle(readBuf, 0) == FirstNeedle(readBuf, pos)
        decreases |readBuf| - pos
      {
        if readBuf[pos..pos + 4] == NEEDLE {
          readBuf := readBuf[pos + 4..];
          return true;
        }
        pos := pos + 1;
      }
      assert FirstNeedle(readBuf, pos).None?;
      return false;
    }

    /** One partial write of the request. */
    method WriteSome() returns (r: WriteResult)
      requires wmsg.Valid() && |wmsg.buf| < 0x1_0000
      modifies wmsg, output
      ensures wmsg.Valid()
      ensures output.written + wmsg.Bytes() == old(output.written + wmsg.Bytes()) && old(output.written) <= output.written
      ensures wmsg.IsCompleted() && r.Wrote? ==> wmsg.Bytes() == []
      ensures r.Wrote? ==> |output.script| < |old(output.script)| || (wmsg.IsCompleted() && output.script == old(output.script))
      ensures !r.Wrote? ==> wmsg.cursor == old(wmsg.cursor) && |output.script| <= |old(output.script)|
      ensures r.WriteNotReady? ==> |output.script| < |old(output.script)| || output.script == []
      ensures r.WriteNotReady? ==> wmsg.Bytes() != []
      ensures WriteWaits(old(output.script)) ==
              WriteWaits(output.script) + if r.WriteNotReady? && old(output.script) != [] then 1 else 0
      ensures Prospect() == old(Prospect()) && (r.WriteFailed? ==> Prospect() == Fails)
    {
      var bytes := wmsg.Bytes();
      r := output.Write(bytes);
      if r.Wrote? {
        assert bytes == bytes[..r.count] + bytes[r.count..];
        Assoc(old(output.written), bytes[..r.count], bytes[r.count..]);
        wmsg.Advance(r.count);
        assert wmsg.Bytes() == bytes[r.count..];
      }
    }

    /** One read of the response, and the search in all that has been read. */
    method ReadSome() returns (r: ReadResult, found: bool)
      requires |readBuf| <= capacity && AfterHeader(readBuf).None?
      modifies this`readBuf, this`capacity, input
      ensures |readBuf| <= capacity && EndingOf(input.script) == EndingOf(old(input.script))
      ensures Waits(old(input.script)) == Waits(input.script) + if r.NotReady? && old(input.script) != [] then 1 else 0
      ensures old(input.script) == [] ==> input.script == []
      ensures found ==> r.Got? && AfterHeader(old(Incoming())) == Some(Incoming())
      ensures !found ==> Incoming() == old(Incoming()) && AfterHeader(readBuf).None?
      ensures r.Got? && r.bytes != [] ==> Work(input.script) < Work(old(input.script))
      ensures r.Got? && r.bytes == [] ==> !found && AfterHeader(old(Incoming())).None? && EndingOf(input.script) == AtEof
      ensures r.ReadFailed? ==> AfterHeader(old(Incoming())).None? && EndingOf(input.script) == AtError
      ensures r.NotReady? ==> Work(input.script) < Work(old(input.script)) || input.script == []
    {
      if |readBuf| == capacity {
        capacity := capacity + 64;
      }
      r := input.Read(capacity - |readBuf|);
      found := false;
      if r.Got? && r.bytes != [] {
        Assoc(readBuf, r.bytes, Stream(input.script));
        readBuf := readBuf + r.bytes;
        AfterHeaderIsStable(readBuf, Stream(input.script));
        found := ParseResponse();
      } else if Stream(input.script) == [] {
        assert readBuf + [] == readBuf;
      }
    }

    ghost function Budget(): nat
      reads this, input, output
    {
      Work(input.script) + |output.script|
    }

    /** The script of the side that is waited for has come to its end. */
    predicate AwaitedIsOver()
      reads this, input, output
    {
      if state.WritingHeader? then output.script == [] else input.script == []
    }

    /** How often either side of the socket will still make the handshake wait. */
    ghost function Patience(): nat
      reads this, input, output
    {
      Waits(input.script) + WriteWaits(output.script)
    }

    /** A poll waits exactly when the socket has made it wait, or the side it waits for
        has nothing more to say; otherwise nobody would wake it. */
    ghost predicate HasWaited(before: nat, after: nat, waiting: bool)
      reads this, input, output
    {
      if waiting then before == after + 1 || (before == after && AwaitedIsOver()) else before == after
    }

    /** One `poll` of the handshake: it ends with exactly the bytes behind the
        first blank line, part of them in the tail and the rest still unread. */
    method Poll() returns (r: Outcome)
      requires Valid() && !state.Done?
      modifies this, wmsg, output, input
      ensures EndingOf(input.script) == EndingOf(old(input.script))
      ensures wmsg.Valid() && output.written + wmsg.Bytes() == old(output.written + wmsg.Bytes())
      ensures old(output.written) <= output.written
      ensures r.Waiting? ==> Valid() && !state.Done? && Incoming() == old(Incoming())
      ensures r.Waiting? ==> Budget() < old(Budget()) || AwaitedIsOver()
      ensures HasWaited(old(Patience()), Patience(), r.Waiting?)
      ensures r.Waiting? ==> (wmsg.Bytes() != [] <==> state.WritingHeader?)
      ensures Prospect() == old(Prospect()) && (r.WriteError? ==> Prospect() == Fails)
      ensures !r.Waiting? && !r.WriteError? ==> wmsg.Bytes() == []
      ensures r.Connected? ==> output.written == old(output.written + wmsg.Bytes())
      ensures r.Connected? ==> (r.tail.Some? ==> r.tail.value != [])
      ensures r.Connected? ==> AfterHeader(old(Incoming())) == Some(Onward(r.tail, input.script))
      ensures r.Truncated? ==> AfterHeader(old(Incoming())).None? && EndingOf(input.script) == AtEof
      ensures r.ReadError? ==> AfterHeader(old(Incoming())).None? && EndingOf(input.script) == AtError
    {
      hide FateOf, Stream, Work, EndingOf;
      while true
        invariant wmsg.Valid() && Valid() && EndingOf(input.script) == EndingOf(old(input.script))
        invariant output.written + wmsg.Bytes() == old(output.written + wmsg.Bytes()) && Prospect() == old(Prospect())
        invariant old(output.written) <= output.written
        invariant if state.Done? then AfterHeader(old(Incoming())) == Some(Incoming())
                  else Incoming() == old(Incoming())
        invariant Budget() <= old(Budget()) && Patience() == old(Patience())
        decreases state.WritingHeader?, !state.Done?, Budget()
      {
        match state
        case WritingHeader =>
          var w := WriteSome();
          match w {
            case WriteNotReady => return Waiting;
            case WriteFailed => return WriteError;
            case Wrote(_) =>
              if wmsg.IsCompleted() {
                state := ReadingResponse;
              }
          }
        case ReadingResponse =>
          var n, found := ReadSome();
          match n {
            case NotReady => return Waiting;
            case ReadFailed => return ReadError;
            case Got(bytes) =>
              if |bytes| == 0 {
                return Truncated;
              }
              if found {
                state := Done;
              }
          }
        case Done =>
          assert output.written + [] == output.written;
          if |readBuf| > 0 {
            return Connected(Some(readBuf));
          }
          assert [] + Stream(input.script) == Stream(input.script);
          return Connected(None);
      }
    }
  }

  /** What a link that starts with `tail` will read. */
  ghost function Onward(tail: Option<seq<u8>>, script: seq<ReadEvent>): seq<u8> {
    if tail.None? then Stream(script) else tail.value + Stream(script)
  }

  datatype SessionEnd = NotConnected(why: Outcome) | Linked(decoded: Decoded)

  /** How a whole connection ends, as a function of what is to be written, of the
      bytes that arrive and of how they end. */
  function SessionOf(fate: Fate, arriving: seq<u8>, ending: Ending): SessionEnd {
    match fate
    case Stuck => NotConnected(Waiting)
    case Fails => NotConnected(WriteError)
    case AllTaken =>
      match AfterHeader(arriving)
      case Some(rest) => Linked(Decode(rest, ending))
      case None =>
        NotConnected(match ending case Open => Waiting case AtEof => Truncated case AtError => ReadError)
  }

  /** A socket that takes the request and then delivers a header, a blank line and
      frames is linked, and the link yields the frames. */
  lemma SessionLinks(header: seq<u8>, frames: seq<seq<u8>>, ending: Ending)
    requires IsHeader(header) && (forall f | f in frames :: IsFrame(f))
    ensures SessionOf(AllTaken, header + [13, 10, 13, 10] + Concat(frames), ending) ==
            Linked(Decoded(frames, AtTheEnd(ending)))
  {
    BehindBlankLine(header, Concat(frames));
    NothingAhead();
    ParseOfConcat(frames, []);
    assert Concat(frames) + [] == Concat(frames) && frames + [] == frames;
  }

  ghost predicate HasBlankLine(s: seq<u8>) {
    exists a, b :: Divides(s, a, b)
  }

  /** In general, a session is linked exactly if the request is taken and a blank
      line arrives, and yields the decoding of what comes behind the first one. */
  lemma SessionLinksIff(fate: Fate, arriving: seq<u8>, ending: Ending, d: Decoded)
    ensures SessionOf(fate, arriving, ending) == Linked(d) <==>
            fate == AllTaken && exists a, b :: IsHeader(a) && Divides(arriving, a, b) && d == Decode(b, ending)
  {
    var after := AfterHeader(arriving);
    AfterHeaderIff(arriving, if after.Some? then after.value else []);
    forall a, b | IsHeader(a) && Divides(arriving, a, b)
      ensures after == Some(b)
    {
      BehindBlankLine(a, b);
    }
  }

  /** If not, it tells why. */
  lemma SessionFailsIff(fate: Fate, arriving: seq<u8>, ending: Ending)
    ensures var r, blank := SessionOf(fate, arriving, ending), HasBlankLine(arriving);
      && (r == NotConnected(WriteError) <==> fate == Fails)
      && (r == NotConnected(Truncated) <==> fate == AllTaken && !blank && ending == AtEof)
      && (r == NotConnected(ReadError) <==> fate == AllTaken && !blank && ending == AtError)
      && (r == NotConnected(Waiting) <==> fate == Stuck || (fate == AllTaken && !blank && ending == Open))
  {
    AfterHeaderIff(arriving, []);
  }

  /** A whole connection: the handshake, polled until it ends or the side it waits
      for has nothing more to say, then the link on the same socket. However the
      reads split header, tail and frames, and however they interleave with the
      writes, it ends as `SessionOf` says. */
  method Session(input: Source, output: Destination, request: seq<u8>) returns (r: SessionEnd)
    requires |request| < 0x1_0000
    modifies input, output
    ensures r == SessionOf(FateOf(old(output.script), |request|), Stream(old(input.script)), EndingOf(old(input.script)))
    ensures r.Linked? ==> output.written == old(output.written) + request
    ensures old(output.written) <= output.written <= old(output.written) + request
  {
    var hs, o := Connect(input, output, request);
    if !o.Connected? {
      return NotConnected(o);
    }
    var link := new LwsFramed(input, o.tail);
    var frames, verdict := link.ReceiveAll();
    return Linked(Decoded(frames, verdict));
  }

  /** The handshake of a connection. */
  method Connect(input: Source, output: Destination, request: seq<u8>) returns (hs: CHandshake, o: Outcome)
    requires |request| < 0x1_0000
    modifies input, output
    ensures fresh(hs) && EndingOf(input.script) == EndingOf(old(input.script))
    ensures old(output.written) <= output.written <= old(output.written) + request
    ensures o.Connected? ==>
      && output.written == old(output.written) + request && FateOf(old(output.script), |request|) == AllTaken
      && AfterHeader(Stream(old(input.script))) == Some(Onward(o.tail, input.script))
    ensures var end := SessionOf(FateOf(old(output.script), |request|), Stream(old(input.script)),
                                 EndingOf(old(input.script)));
            !o.Connected? ==> end == NotConnected(o)
  {
    hs := new CHandshake(input, output, request);
    assert [] + Stream(input.script) == Stream(input.script);
    o := hs.Poll();
    while o.Waiting? && !hs.AwaitedIsOver()
      invariant hs.wmsg.Valid() && EndingOf(input.script) == EndingOf(old(input.script))
      invariant hs.Prospect() == FateOf(old(output.script), |request|) && (o.WriteError? ==> hs.Prospect() == Fails)
      invariant o.Waiting? ==> hs.Valid() && !hs.state.Done? && hs.Incoming() == Stream(old(input.script))
      invariant output.written + hs.wmsg.Bytes() == old(output.written) + request && old(output.written) <= output.written
      invariant o.Connected? ==> AfterHeader(Stream(old(input.script))) == Some(Onward(o.tail, input.script))
      invariant o.Truncated? ==> AfterHeader(Stream(old(input.script))).None? && EndingOf(old(input.script)) == AtEof
      invariant o.ReadError? ==> AfterHeader(Stream(old(input.script))).None? && EndingOf(old(input.script)) == AtError
      invariant if o.Waiting? then hs.wmsg.Bytes() != [] <==> hs.state.WritingHeader?
                else !o.WriteError? ==> hs.wmsg.Bytes() == []
      decreases o.Waiting? && !hs.AwaitedIsOver(), hs.Budget()
    {
      o := hs.Poll();
    }
    if o.Waiting? && hs.state.ReadingResponse? {
      assert hs.readBuf + [] == hs.readBuf;
    }
  }
}
