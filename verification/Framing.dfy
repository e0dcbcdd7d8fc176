/** The receiving half of a tunnel link: `RMessage` grows one frame in place and
    `LwsFramed::poll_next` feeds it from the handshake tail first and from the
    socket afterwards. The reference is `Parse`, a plain recursive length-prefix
    parse of the whole byte stream. */
module Framing {
  import opened Bytes
  import opened Transport

  const DEFAULT_CAP := 8096
  const HEAD_SIZE := 2

  // ----- reference parse

  /** What the front of a byte stream is. */
  datatype Head =
    | NeedMore          // not yet a whole frame
    | Rejected          // a length of 0 or above 8096
    | TooShort          // a length of 1, shorter than its own length field
    | Whole(size: nat)  // a frame of `size` bytes, length field included

  /** The length that stands in front. */
  function LengthOf(s: seq<u8>): u16 {
    if |s| < HEAD_SIZE then 0 else FromLe16(s[0], s[1])
  }

  lemma LengthIsStable(s: seq<u8>, more: seq<u8>)
    ensures |s| >= HEAD_SIZE ==> LengthOf(s + more) == LengthOf(s)
  {
  }

  predicate IsRejected(length: u16) {
    length == 0 || length > DEFAULT_CAP
  }

  function HeadOf(s: seq<u8>): (h: Head)
    ensures h.Whole? ==> HEAD_SIZE <= h.size <= DEFAULT_CAP && h.size <= |s|
  {
    if |s| < HEAD_SIZE then NeedMore
    else
      var length := FromLe16(s[0], s[1]);
      if IsRejected(length) then Rejected
      else if length < HEAD_SIZE then TooShort
      else if |s| < length then NeedMore
      else Whole(length)
  }

  datatype Parsed = Parsed(frames: seq<seq<u8>>, stop: Head)

  /** Cut a stream into frames, up to the first front that is not a frame. */
  function Parse(s: seq<u8>): (p: Parsed)
    ensures !p.stop.Whole?
    decreases |s|
  {
    match HeadOf(s)
    case Whole(size) =>
      var rest := Parse(s[size..]);
      Parsed([s[..size]] + rest.frames, rest.stop)
    case other => Parsed([], other)
  }

  /** More bytes never change a front that is already decided. */
  lemma HeadIsStable(s: seq<u8>, more: seq<u8>)
    ensures HeadOf(s) != NeedMore ==> HeadOf(s + more) == HeadOf(s)
  {
    if |s| >= HEAD_SIZE {
      assert (s + more)[0] == s[0] && (s + more)[1] == s[1];
    }
  }

  lemma ParseStep(before: seq<u8>, frame: seq<u8>, after: seq<u8>)
    requires HeadOf(before) == Whole(|frame|) && before == frame + after
    ensures Parse(before) == Parsed([frame] + Parse(after).frames, Parse(after).stop)
  {
    assert before[..|frame|] == frame && before[|frame|..] == after;
  }

  lemma ParseStops(s: seq<u8>)
    ensures !HeadOf(s).Whole? ==> Parse(s) == Parsed([], HeadOf(s))
  {
  }

  lemma NothingAhead()
    ensures HeadOf([]) == NeedMore && Stream([]) == [] && EndingOf([]) == Open
  {
  }

  predicate IsFrame(f: seq<u8>) {
    HeadOf(f) == Whole(|f|)
  }

  /** In terms of the bytes: a frame starts with its own length, the little end
      first, from 2 to 8096. */
  lemma IsFrameIff(f: seq<u8>)
    ensures IsFrame(f) <==> 2 <= |f| <= 8096 && f[0] == |f| % 256 && f[1] == |f| / 256
  {
  }

  /** And what the front of a stream is, is told by the two bytes there. */
  lemma FrontIs(s: seq<u8>, length: nat)
    requires |s| >= 2 && s[0] == length % 256 && s[1] == length / 256
    ensures
      && (HeadOf(s) == Rejected <==> length == 0 || length > 8096) && (HeadOf(s) == TooShort <==> length == 1)
      && (HeadOf(s) == NeedMore <==> 2 <= length <= 8096 && |s| < length)
      && (HeadOf(s) == Whole(length) <==> 2 <= length <= 8096 && |s| >= length)
  {
  }

  /** What the parse cuts off, put together again, is the stream it read, and
      every piece is one frame. */
  lemma {:induction false} ParseIsExact(s: seq<u8>)
    ensures Concat(Parse(s).frames) <= s
    ensures HeadOf(s[|Concat(Parse(s).frames)|..]) == Parse(s).stop
    ensures forall f | f in Parse(s).frames :: IsFrame(f)
    decreases |s|
  {
    var h := HeadOf(s);
    if h.Whole? {
      var front, back := s[..h.size], s[h.size..];
      ParseIsExact(back);
      assert s == front + back;
      var used := |Concat(Parse(back).frames)|;
      assert Parse(s).frames[1..] == Parse(back).frames;
      assert s[h.size + used..] == back[used..];
      assert IsFrame(front);
    } else {
      assert s[0..] == s;
    }
  }

  /** Frames written one after the other are read back as they were, whatever
      follows them. */
  lemma {:induction false} ParseOfConcat(frames: seq<seq<u8>>, more: seq<u8>)
    requires forall f | f in frames :: IsFrame(f)
    ensures Parse(Concat(frames) + more).frames == frames + Parse(more).frames
    ensures Parse(Concat(frames) + more).stop == Parse(more).stop
  {
    if frames == [] {
      assert Concat(frames) + more == more;
      assert frames + Parse(more).frames == Parse(more).frames;
    } else {
      var f, rest := frames[0], Concat(frames[1..]);
      assert IsFrame(f);
      ParseOfConcat(frames[1..], more);
      Assoc(f, rest, more);
      HeadIsStable(f, rest + more);
      var s := f + (rest + more);
      assert s[..|f|] == f && s[|f|..] == rest + more;
      Assoc([f], frames[1..], Parse(more).frames);
      assert frames == [f] + frames[1..];
    }
  }

  /** `frames` leads `s` up to a front of kind `stop`. */
  ghost predicate LeadsTo(frames: seq<seq<u8>>, s: seq<u8>, stop: Head) {
    && (forall f | f in frames :: IsFrame(f))
    && Concat(frames) <= s
    && HeadOf(s[|Concat(frames)|..]) == stop
  }

  /** There is exactly one way to cut a stream into frames: the parse ends in a
      given way if and only if some frames lead there, and then they are the
      frames it returns. In particular the subtraction in `remaining_mut`
      underflows if and only if a length field of 1 follows whole frames. */
  lemma ParseIsUnique(s: seq<u8>, stop: Head)
    requires !stop.Whole?
    ensures Parse(s).stop == stop <==> exists frames :: LeadsTo(frames, s, stop)
    ensures forall frames | LeadsTo(frames, s, stop) :: frames == Parse(s).frames
  {
    ParseIsExact(s);
    assert LeadsTo(Parse(s).frames, s, Parse(s).stop);
    forall frames | LeadsTo(frames, s, stop)
      ensures frames == Parse(s).frames && Parse(s).stop == stop
    {
      var rest := s[|Concat(frames)|..];
      assert s == Concat(frames) + rest;
      ParseOfConcat(frames, rest);
      assert frames + [] == frames;
    }
  }

  /** The smallest stream on which the decoder crashes. */
  lemma LengthOneCrashes(ending: Ending)
    ensures Decode([1, 0], ending) == Decoded([], Crashed)
  {
    assert FromLe16([1, 0][0], [1, 0][1]) == 1;
  }

  // ----- RMessage

  class RMessage {
    var buf: seq<u8>
    var cachedLength: u16
    var error: bool

    constructor ()
      ensures buf == [] && cachedLength == 0 && !error && Valid() && HeadOf(buf) == NeedMore
    {
      buf, cachedLength, error := [], 0, false;
    }

    /** The cached length and the error are functions of the bytes held so far,
        and no more than one frame is ever held. */
    ghost predicate Valid()
      reads this
    {
      if |buf| < HEAD_SIZE then cachedLength == 0 && !error
      else
        && cachedLength == FromLe16(buf[0], buf[1])
        && error == IsRejected(cachedLength)
        && (HeadOf(buf) == NeedMore || |buf| == HEAD_SIZE || HeadOf(buf) == Whole(|buf|))
    }

    /** The error for a rejected length has been taken out, and reading goes on. */
    ghost predicate Spent()
      reads this
    {
      HeadOf(buf).Rejected? && cachedLength == LengthOf(buf) && !error && HEAD_SIZE <= |buf| <= DEFAULT_CAP
    }

    /** What `is_completed` looks at once bytes were stored; `late` tells whether
        the error has been taken out. */
    ghost predicate Stored(late: bool)
      reads this
    {
      if late then Spent() else Valid() && !Spent() && (HeadOf(buf).Whole? ==> HeadOf(buf) == Whole(|buf|))
    }

    method IsCompleted() returns (r: bool)
      requires Valid() || Spent()
      ensures Valid() ==> (r <==> HeadOf(buf).Rejected? || HeadOf(buf).Whole?) && (error <==> HeadOf(buf).Rejected?)
      ensures Spent() ==> !r
    {
      if error {
        return true;
      }
      return cachedLength > 0 && cachedLength == Truncate16(|buf|);
    }

    /** Free room of the frame. `None` is the subtraction below zero that a
        frame length of 1 leads to, and a length of 0 after its error. */
    method RemainingMut() returns (r: Option<nat>)
      requires Valid() || Spent()
      ensures r.None? <==> if Spent() then cachedLength == 0 else HeadOf(buf).TooShort?
      ensures Spent() && r.Some? ==> r.value == cachedLength - |buf| > 0
      ensures HeadOf(buf).NeedMore? ==> r == Some(Room(buf)) && r.value > 0
      ensures Valid() && (HeadOf(buf).Rejected? || HeadOf(buf).Whole?) ==> r == Some(0)
    {
      if error {
        return Some(0);
      }
      if |buf| < HEAD_SIZE {
        return Some(HEAD_SIZE - |buf|);
      }
      if cachedLength < |buf| {
        return None;
      }
      return Some(cachedLength - |buf|);
    }

    /** Store bytes behind those held, then `advance_mut`. */
    method Put(bytes: seq<u8>)
      requires |buf| + |bytes| <= DEFAULT_CAP
      requires (Valid() && HeadOf(buf) == NeedMore && |bytes| <= Room(buf)) || (Spent() && cachedLength > 0)
      modifies this
      ensures buf == old(buf) + bytes
      ensures Stored(old(Spent()))
    {
      buf := buf + bytes;
      if cachedLength == 0 && |buf| >= HEAD_SIZE {
        cachedLength := FromLe16(buf[0], buf[1]);
        if cachedLength == 0 || cachedLength > DEFAULT_CAP {
          error := true;
        }
      }
    }
  }

  /** Bytes still missing from an unfinished frame, or from its length field. */
  function Room(buf: seq<u8>): nat
    requires HeadOf(buf) == NeedMore
  {
    if |buf| < HEAD_SIZE then HEAD_SIZE - |buf| else FromLe16(buf[0], buf[1]) - |buf|
  }

  /** A poll is pending exactly when the socket has made it wait, or has nothing more
      to say; otherwise nobody would wake it. */
  ghost predicate HasWaited(before: seq<ReadEvent>, after: seq<ReadEvent>, pending: bool) {
    if pending then Waits(before) == Waits(after) + 1 || (Waits(before) == 0 && after == [])
    else Waits(before) == Waits(after)
  }

  // ----- LwsFramed, reading

  datatype Poll =
    | Pending
    | Message(bytes: seq<u8>)
    | LengthError   // Some(Err) for a rejected length
    | Underflow     // the subtraction in `remaining_mut` goes below zero
    | Overflow      // more bytes than the 8096 a message asks room for
    | IoError       // Some(Err) from the socket
    | Finished      // None

  datatype Verdict = StillOpen | PeerClosed | SocketError | BadLength | Crashed | Overrun
  datatype Decoded = Decoded(frames: seq<seq<u8>>, verdict: Verdict)

  /** The reference for a whole link. */
  function Decode(s: seq<u8>, ending: Ending): (d: Decoded) {
    var p := Parse(s);
    Decoded(p.frames,
            match p.stop
            case Rejected => BadLength
            case TooShort => Crashed
            case _ => AtTheEnd(ending))
  }

  function AtTheEnd(ending: Ending): Verdict {
    match ending
    case Open => StillOpen
    case AtEof => PeerClosed
    case AtError => SocketError
  }

  /** What comes of polling on after a rejected length in front of `s`. */
  function AfterError(s: seq<u8>, ending: Ending): Verdict {
    if LengthOf(s) == 0 then Crashed
    else if |s| > DEFAULT_CAP then Overrun
    else AtTheEnd(ending)
  }

  /** The reference for a link whose reader polls on after a rejected length. */
  function DecodeOn(s: seq<u8>, ending: Ending): Decoded {
    var d := Decode(s, ending);
    if d.verdict != BadLength then d
    else
      ParseIsExact(s);
      Decoded(d.frames, AfterError(s[|Concat(d.frames)|..], ending))
  }

  /** Frames and then something else: the frames are decoded, and the rest or the end
      of the socket is told. */
  lemma DecodeOfFrames(frames: seq<seq<u8>>, rest: seq<u8>, ending: Ending)
    requires (forall f | f in frames :: IsFrame(f)) && !HeadOf(rest).Whole?
    ensures Decode(Concat(frames) + rest, ending).frames == frames
    ensures var v := Decode(Concat(frames) + rest, ending).verdict;
      && (v == BadLength <==> HeadOf(rest) == Rejected) && (v == Crashed <==> HeadOf(rest) == TooShort)
      && (v == StillOpen <==> HeadOf(rest) == NeedMore && ending == Open)
      && (v == PeerClosed <==> HeadOf(rest) == NeedMore && ending == AtEof)
      && (v == SocketError <==> HeadOf(rest) == NeedMore && ending == AtError)
  {
    ParseOfConcat(frames, rest);
    assert frames + [] == frames;
  }

  /** Polling on after a rejected length brings no further message. It does no
      harm if and only if the length is not 0 and no more than 8096 bytes come
      from there on, the length included. */
  lemma PollingOnIsHarmlessIff(frames: seq<seq<u8>>, rest: seq<u8>, ending: Ending)
    requires (forall f | f in frames :: IsFrame(f)) && HeadOf(rest) == Rejected
    ensures DecodeOn(Concat(frames) + rest, ending).frames == frames
    ensures DecodeOn(Concat(frames) + rest, ending).verdict == AtTheEnd(ending) <==>
            LengthOf(rest) > 0 && |rest| <= DEFAULT_CAP
  {
    ParseOfConcat(frames, rest);
    assert frames + [] == frames;
    assert (Concat(frames) + rest)[|Concat(frames)|..] == rest;
  }

  /** What an answer tells about the unread bytes before and after the poll,
      and about how the socket ends. */
  ghost predicate Reports(p: Poll, before: seq<u8>, after: seq<u8>, ending: Ending) {
    match p
    case Pending => after == before
    case Message(bytes) => HeadOf(before) == Whole(|bytes|) && before == bytes + after
    case LengthError => HeadOf(before) == Rejected && after == before
    case Underflow => HeadOf(before) == TooShort
    case IoError => HeadOf(before) == NeedMore && after == before && ending == AtError
    case Finished => HeadOf(before) == NeedMore && after == before && ending == AtEof
    case Overflow => false
  }

  /** The same for a poll after the error for a rejected length, which still
      stands in front of the unread bytes. */
  ghost predicate ReportsLate(p: Poll, before: seq<u8>, after: seq<u8>, ending: Ending) {
    match p
    case Pending => LengthOf(before) > 0 && after == before
    case Underflow => LengthOf(before) == 0
    case Overflow => LengthOf(before) > 0 && |before| > DEFAULT_CAP
    case IoError => LengthOf(before) > 0 && |before| <= DEFAULT_CAP && after == before && ending == AtError
    case Finished => LengthOf(before) > 0 && |before| <= DEFAULT_CAP && after == before && ending == AtEof
    case _ => false
  }

  ghost predicate Tells(late: bool, p: Poll, before: seq<u8>, after: seq<u8>, ending: Ending) {
    if late then ReportsLate(p, before, after, ending) else Reports(p, before, after, ending)
  }

  /** `has_finished` is set on the way out. */
  predicate IsEnd(p: Poll) {
    p.LengthError? || p.IoError? || p.Finished?
  }

  class LwsFramed {
    const io: Source
    var reading: RMessage?
    var tail: Option<seq<u8>>
    var hasFinished: bool

    constructor (io: Source, tail: Option<seq<u8>>)
      ensures this.io == io && this.tail == tail && reading == null && !hasFinished
      ensures Valid()
    {
      this.io, this.tail := io, tail;
      reading, hasFinished := null, false;
    }

    /** Between two polls, a message that is being read is unfinished. */
    ghost predicate Valid()
      reads this, reading
    {
      reading != null ==> reading.Valid() && HeadOf(reading.buf) == NeedMore
    }

    /** Inside a poll it may also be one that can only underflow. */
    ghost predicate Unfinished()
      reads this, reading
    {
      reading != null ==> reading.Valid() && (HeadOf(reading.buf).NeedMore? || HeadOf(reading.buf).TooShort?)
    }

    /** The error for a rejected length has been reported. */
    ghost predicate IsSpent()
      reads this, reading
    {
      reading != null && reading.Spent()
    }

    /** The bytes behind those held: the handshake tail, then the socket's. */
    ghost function Ahead(): seq<u8>
      reads this, io
    {
      if tail.None? then Stream(io.script) else tail.value + Stream(io.script)
    }

    ghost function Rest(): seq<u8>
      reads this, reading, io
    {
      if reading == null then Ahead() else reading.buf + Ahead()
    }

    /** Reads that are still possible before the link has nothing left to say. */
    ghost function Budget(): nat
      reads this, io
    {
      Work(io.script) + if tail.None? then 0 else 1 + |tail.value|
    }

    /** The script is over and the tail used up. */
    ghost predicate Dry()
      reads this, io
    {
      tail.None? && io.script == []
    }

    /** `read_from_tail`, with the bookkeeping of its caller. */
    method ReadFromTail(room: nat) returns (bytes: seq<u8>)
      requires tail.Some?
      modifies this`tail
      ensures |bytes| <= room && old(Ahead()) == bytes + Ahead()
      ensures room > 0 ==> Budget() < old(Budget())
    {
      var n := Min(|tail.value|, room);
      bytes := tail.value[..n];
      var left := tail.value[n..];
      assert tail.value == bytes + left;
      Assoc(bytes, left, Stream(io.script));
      tail := if |left| < 1 then None else Some(left);
    }

    /** Store the next bytes into the unfinished message: from the tail while
        there is one, from the socket afterwards. `None` means bytes may have
        been stored and the loop goes on. */
    method Fill(msg: RMessage, room: nat) returns (p: Option<Poll>)
      requires if msg.Spent() then room == msg.cachedLength - |msg.buf| > 0
               else msg.Valid() && HeadOf(msg.buf) == NeedMore && room == Room(msg.buf)
      requires room > 0
      modifies this`tail, this`hasFinished, msg, io
      ensures EndingOf(io.script) == EndingOf(old(io.script)) && HasWaited(old(io.script), io.script, p == Some(Pending))
      ensures p != Some(Overflow) ==> msg.buf + Ahead() == old(msg.buf + Ahead())
      ensures p.None? ==> msg.Stored(old(msg.Spent()))
      ensures hasFinished <==> old(hasFinished) || (p.Some? && IsEnd(p.value))
      ensures p.None? ==> Budget() < old(Budget())
      ensures p.Some? ==> p.value.Pending? || p.value.IoError? || p.value.Finished? || p.value.Overflow?
      ensures p.Some? && !p.value.Overflow? ==> unchanged(msg)
      ensures p == Some(Pending) ==> Budget() < old(Budget()) || Dry()
      ensures p == Some(IoError) ==> Ahead() == [] && EndingOf(io.script) == AtError
      ensures p == Some(Finished) ==> Ahead() == [] && EndingOf(io.script) == AtEof
      ensures p == Some(Overflow) ==> old(msg.Spent()) && old(|msg.buf + Ahead()|) > DEFAULT_CAP
    {
      hide HeadOf, Stream, Work, EndingOf, ReadOf, Room, FromLe16, IsRejected;
      if tail.Some? {
        var bytes := ReadFromTail(room);
        p := Store(msg, bytes);
        return;
      }
      var r := io.Read(room);
      match r
      case NotReady =>
        return Some(Pending);
      case ReadFailed =>
        hasFinished := true;
        return Some(IoError);
      case Got(bytes) =>
        if |bytes| <= 0 {
          hasFinished := true;
          return Some(Finished);
        }
        p := Store(msg, bytes);
    }

    /** Bytes beyond the room that a message asks for can only come when a length
        that was rejected is used as if it were good. */
    method Store(msg: RMessage, bytes: seq<u8>) returns (p: Option<Poll>)
      requires if msg.Spent() then msg.cachedLength > 0
               else msg.Valid() && HeadOf(msg.buf) == NeedMore && |bytes| <= Room(msg.buf)
      modifies msg
      ensures p.None? || p == Some(Overflow)
      ensures p.Some? <==> |old(msg.buf) + bytes| > DEFAULT_CAP
      ensures p.Some? ==> old(msg.Spent())
      ensures p.None? ==> msg.buf == old(msg.buf) + bytes && msg.buf + Ahead() == old(msg.buf) + (bytes + Ahead())
      ensures p.None? ==> msg.Stored(old(msg.Spent()))
    {
      if |msg.buf| + |bytes| > DEFAULT_CAP {
        return Some(Overflow);
      }
      Assoc(msg.buf, bytes, Ahead());
      msg.Put(bytes);
      return None;
    }

    /** The message being read, a new one if there is none. */
    method Current() returns (msg: RMessage)
      requires Unfinished() || IsSpent()
      modifies this`reading
      ensures reading == msg && (reading == old(reading) || fresh(reading))
      ensures Rest() == old(Rest()) && (Unfinished() || IsSpent()) && (IsSpent() <==> old(IsSpent()))
    {
      if reading == null {
        reading := new RMessage();
        assert [] + Ahead() == Ahead();
      }
      return reading;
    }

    /** One turn of the loop in `poll_next`. */
    method Turn() returns (p: Option<Poll>)
      requires Unfinished() || IsSpent()
      modifies this, reading, io
      ensures EndingOf(io.script) == EndingOf(old(io.script)) && HasWaited(old(io.script), io.script, p == Some(Pending))
      ensures reading == old(reading) || reading == null || fresh(reading)
      ensures hasFinished <==> old(hasFinished) || (p.Some? && IsEnd(p.value))
      ensures p.None? ==> Rest() == old(Rest()) && Budget() < old(Budget())
      ensures p.None? ==> if old(IsSpent()) then IsSpent() else Unfinished()
      ensures p.Some? ==> Tells(old(IsSpent()), p.value, old(Rest()), Rest(), EndingOf(io.script))
      ensures p.Some? && !p.value.Underflow? && !p.value.Overflow? ==>
        if old(IsSpent()) || p.value.LengthError? then IsSpent() else Valid()
      ensures p.Some? && p.value.Message? ==> Budget() < old(Budget())
      ensures p == Some(Pending) ==> Budget() < old(Budget()) || Dry()
    {
      hide HeadOf, Stream, Work, EndingOf, Room, IsRejected, FromLe16, Truncate16, LengthOf;
      var msg := Current();
      LengthIsStable(msg.buf, Ahead());
      var room := msg.RemainingMut();
      if room.None? {
        HeadIsStable(msg.buf, Ahead());
        return Some(Underflow);
      }
      p := Advance(msg, room.value);
    }

    /** Once there is room: store what comes next, and look at the message. */
    method Advance(msg: RMessage, room: nat) returns (p: Option<Poll>)
      requires reading == msg
      requires if msg.Spent() then room == msg.cachedLength - |msg.buf| > 0
               else msg.Valid() && HeadOf(msg.buf) == NeedMore && room == Room(msg.buf)
      requires room > 0
      modifies this, msg, io
      ensures EndingOf(io.script) == EndingOf(old(io.script)) && HasWaited(old(io.script), io.script, p == Some(Pending))
      ensures reading == old(reading) || reading == null
      ensures hasFinished <==> old(hasFinished) || (p.Some? && IsEnd(p.value))
      ensures p.None? ==> Rest() == old(Rest()) && Budget() < old(Budget())
      ensures p.None? ==> if old(IsSpent()) then IsSpent() else Unfinished()
      ensures p.Some? ==> Tells(old(IsSpent()), p.value, old(Rest()), Rest(), EndingOf(io.script))
      ensures p.Some? && !p.value.Overflow? ==> if old(IsSpent()) || p.value.LengthError? then IsSpent() else Valid()
      ensures p.Some? && p.value.Message? ==> Budget() < old(Budget())
      ensures p == Some(Pending) ==> Budget() < old(Budget()) || Dry()
    {
      hide HeadOf, Stream, Work, EndingOf, Room, IsRejected, FromLe16, Truncate16, LengthOf;
      LengthIsStable(msg.buf, Ahead());
      p := Fill(msg, room);
      if p.Some? {
        if Ahead() == [] {
          assert Rest() == msg.buf;
        }
        return;
      }
      p := Judge(msg);
    }

    /** After bytes were stored: whether the message they belong to is complete.
        An error is taken out of the message. */
    method Judge(msg: RMessage) returns (p: Option<Poll>)
      requires reading == msg
      requires msg.Stored(msg.Spent())
      modifies this`reading, this`hasFinished, msg`error
      ensures reading == old(reading) || reading == null
      ensures hasFinished <==> old(hasFinished) || p == Some(LengthError)
      ensures p.None? ==> Rest() == old(Rest()) && if old(msg.Spent()) then IsSpent() else Unfinished()
      ensures p.Some? ==> !old(msg.Spent()) && (p.value.LengthError? || p.value.Message?)
      ensures p.Some? ==> Reports(p.value, old(Rest()), Rest(), EndingOf(io.script))
      ensures p.Some? ==> if p.value.LengthError? then IsSpent() else Valid()
    {
      hide HeadOf, Stream, EndingOf, IsRejected, FromLe16, Truncate16;
      var completed := msg.IsCompleted();
      if completed {
        HeadIsStable(msg.buf, Ahead());
        if msg.error {
          msg.error := false;
          hasFinished := true;
          return Some(LengthError);
        }
        reading := null;
        return Some(Message(msg.buf));
      }
      return None;
    }

    /** One `poll_next`. Whatever the splitting, it either waits or reports the
        front of the unread bytes; after the error for a rejected length, it reads
        on behind that length. */
    method PollNext() returns (p: Poll)
      requires Valid() || IsSpent()
      modifies this, reading, io
      ensures EndingOf(io.script) == EndingOf(old(io.script)) && HasWaited(old(io.script), io.script, p.Pending?)
      ensures reading == old(reading) || reading == null || fresh(reading)
      ensures hasFinished <==> old(hasFinished) || IsEnd(p)
      ensures Tells(old(IsSpent()), p, old(Rest()), Rest(), EndingOf(io.script))
      ensures !p.Underflow? && !p.Overflow? ==> if old(IsSpent()) || p.LengthError? then IsSpent() else Valid()
      ensures p.Message? ==> Budget() < old(Budget())
      ensures p.Pending? ==> Budget() < old(Budget()) || Dry()
    {
      while true
        invariant reading == old(reading) || reading == null || fresh(reading)
        invariant Rest() == old(Rest()) && (if old(IsSpent()) then IsSpent() else Unfinished())
        invariant EndingOf(io.script) == EndingOf(old(io.script)) && hasFinished == old(hasFinished)
        invariant Waits(io.script) == Waits(old(io.script))
        invariant Budget() <= old(Budget())
        decreases Budget()
      {
        var stop := Turn();
        if stop.Some? {
          return stop.value;
        }
      }
    }

    /** The receive loop of a link: every message of `stream.next()` in turn,
        until an error, the end, or nothing left to wait for. The result is
        fixed by the bytes and the ending alone. */
    method ReceiveAll() returns (frames: seq<seq<u8>>, verdict: Verdict)
      requires Valid()
      modifies this, reading, io
      ensures Decoded(frames, verdict) == Decode(old(Rest()), EndingOf(old(io.script)))
      ensures EndingOf(io.script) == EndingOf(old(io.script)) && (reading == old(reading) || reading == null || fresh(reading))
      ensures verdict.BadLength? ==> IsSpent() && old(Rest()) == Concat(frames) + Rest()
    {
      hide HeadOf, Parse, Stream, Work, EndingOf, FromLe16;
      frames := [];
      ghost var goal, ending := Parse(Rest()), EndingOf(io.script);
      assert [] + Rest() == Rest();
      assert [] + goal.frames == goal.frames;
      while true
        invariant Valid() && EndingOf(io.script) == ending
        invariant reading == old(reading) || reading == null || fresh(reading)
        invariant goal.frames == frames + Parse(Rest()).frames && goal.stop == Parse(Rest()).stop
        invariant old(Rest()) == Concat(frames) + Rest()
        decreases Budget()
      {
        ghost var before := Rest();
        var p := PollNext();
        ParseStops(before);
        assert frames + [] == frames;
        match p
        case Pending =>
          if io.script == [] && tail.None? {
            NothingAhead();
            assert reading != null ==> Rest() == reading.buf;
            return frames, StillOpen;
          }
        case Message(bytes) =>
          ParseStep(before, bytes, Rest());
          Assoc(frames, [bytes], Parse(Rest()).frames);
          ConcatMore(frames, bytes, Rest());
          frames := frames + [bytes];
        case LengthError => return frames, BadLength;
        case Underflow => return frames, Crashed;
        case IoError => return frames, SocketError;
        case Finished => return frames, PeerClosed;
      }
    }

    /** The receive loop of the peer, which logs an error and polls on, until the
        end, a broken socket, or nothing left to wait for. */
    method ReceiveOn() returns (frames: seq<seq<u8>>, verdict: Verdict)
      requires Valid()
      modifies this, reading, io
      ensures Decoded(frames, verdict) == DecodeOn(old(Rest()), EndingOf(old(io.script)))
    {
      hide Parse, Stream, Work, EndingOf, FromLe16;
      ghost var whole := Rest();
      frames, verdict := ReceiveAll();
      if verdict.BadLength? {
        assert whole[|Concat(frames)|..] == Rest();
        verdict := PollOn();
      }
    }

    /** Polls after the error for a rejected length. */
    method PollOn() returns (verdict: Verdict)
      requires IsSpent()
      modifies this, reading, io
      ensures verdict == AfterError(old(Rest()), EndingOf(old(io.script)))
    {
      hide HeadOf, Stream, Work, EndingOf, FromLe16, LengthOf;
      ghost var rest, ending := Rest(), EndingOf(io.script);
      while true
        invariant IsSpent() && Rest() == rest && EndingOf(io.script) == ending
        invariant reading == old(reading) || reading == null || fresh(reading)
        decreases Budget()
      {
        var p := PollNext();
        match p
        case Pending =>
          if io.script == [] && tail.None? {
            NothingAhead();
            assert Rest() == reading.buf;
            return StillOpen;
          }
        case Underflow => return Crashed;
        case Overflow => return Overrun;
        case IoError => return SocketError;
        case Finished => return PeerClosed;
      }
    }
  }
}
