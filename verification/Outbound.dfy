/** The sending half of a link: `WMessage` is a buffer with a 16-bit cursor, and
    the `Sink` of `LwsFramed` and `TcpFramed` drains one of them at a time
    through partial writes. */
module Outbound {
  import opened Bytes
  import opened Transport

  // ----- the cursor on its own

  /** `WMessage::is_completed`: the length is compared as 16 bits. */
  predicate IsDrained(length: nat, cursor: u16) {
    cursor == Truncate16(length)
  }

  /** The bytes a drain hands over when the socket takes `takes[0]`, then
      `takes[1]`, ... of them: after each write the cursor moves, wrapping at 16
      bits, and the drain ends when it meets the truncated length. */
  function Drain(length: nat, cursor: u16, takes: seq<Positive>): (sent: nat)
    requires cursor <= length
    decreases |takes|
  {
    if takes == [] then 0
    else
      var n := Min(takes[0], length - cursor);
      var next := Truncate16(cursor + n);
      if IsDrained(length, next) then n else n + Drain(length, next, takes[1..])
  }

  /** Whether a drain along `takes` has come to its end. */
  predicate Ends(length: nat, cursor: u16, takes: seq<Positive>)
    requires cursor <= length
    decreases |takes|
  {
    takes != [] &&
    var n := Min(takes[0], length - cursor);
    var next := Truncate16(cursor + n);
    IsDrained(length, next) || Ends(length, next, takes[1..])
  }

  /** A message of at most 65536 bytes is sent whole, however the socket takes it. */
  lemma {:induction false} ShortIsWhole(length: nat, cursor: u16, takes: seq<Positive>)
    requires cursor <= length <= 0x1_0000
    ensures Ends(length, cursor, takes) ==> Drain(length, cursor, takes) == length - cursor
    ensures !Ends(length, cursor, takes) && takes != [] ==> Drain(length, cursor, takes) < length - cursor
    decreases |takes|
  {
    if takes != [] {
      var n := Min(takes[0], length - cursor);
      var next := Truncate16(cursor + n);
      if cursor + n < length {
        assert next == cursor + n;
        ShortIsWhole(length, next, takes[1..]);
        assert !IsDrained(length, next);
      }
    }
  }

  /** A longer one is cut short by some way of taking it. */
  lemma LongIsCut(length: nat) returns (takes: seq<Positive>)
    requires length > 0x1_0000
    ensures Ends(length, 0, takes) && Drain(length, 0, takes) < length
  {
    var low := length % 0x1_0000;
    takes := if low > 0 then [low] else [0x1_0000];
  }

  /** Exactly the messages of at most 65536 bytes survive every way of taking them. */
  lemma WholeIffShort(length: nat)
    ensures length <= 0x1_0000 <==>
            forall takes: seq<Positive> | Ends(length, 0, takes) :: Drain(length, 0, takes) == length
  {
    if length <= 0x1_0000 {
      forall takes: seq<Positive> | Ends(length, 0, takes)
        ensures Drain(length, 0, takes) == length
      {
        ShortIsWhole(length, 0, takes);
      }
    } else {
      var takes := LongIsCut(length);
    }
  }

  lemma SmallStays(n: nat)
    requires n < 0x1_0000
    ensures Truncate16(n) == n
  {
  }

  /** Where the cursor stands after a write. */
  lemma NextCursor(length: nat, cursor: u16, count: nat)
    requires cursor <= length && count <= length - cursor
    ensures Truncate16(cursor + count) <= length
    ensures cursor == length ==> IsDrained(length, Truncate16(cursor + count))
    ensures length <= 0x1_0000 && !IsDrained(length, Truncate16(cursor + count)) ==>
              Truncate16(cursor + count) == cursor + count
    ensures length <= 0x1_0000 && IsDrained(length, Truncate16(cursor + count)) && count > 0 ==> cursor + count == length
  {
    hide Truncate16;
    if cursor + count < 0x1_0000 {
      SmallStays(cursor + count);
    }
    if length < 0x1_0000 {
      SmallStays(length);
    }
    assert Truncate16(0x1_0000) == 0 by {
      WrapsToZero();
    }
  }

  lemma WrapsToZero()
    ensures Truncate16(0x1_0000) == 0
  {
  }

  /** What a write leaves to be sent. */
  lemma LeftAfter(buf: seq<u8>, cursor: u16, count: nat)
    requires cursor <= |buf| && count <= |buf| - cursor
    ensures var next := Truncate16(cursor + count);
      && next <= |buf| && (cursor == |buf| ==> IsDrained(|buf|, next))
      && (|buf| <= 0x1_0000 && !IsDrained(|buf|, next) ==> buf[next..] == buf[cursor..][count..])
      && (|buf| <= 0x1_0000 && IsDrained(|buf|, next) && count > 0 ==> buf[cursor..][count..] == [])
  {
    hide Truncate16, IsDrained;
    NextCursor(|buf|, cursor, count);
  }

  lemma Moved(before: seq<u8>, bytes: seq<u8>, count: nat)
    requires count <= |bytes|
    ensures (before + bytes[..count]) + bytes[count..] == before + bytes
    ensures bytes[count..] == [] ==> (before + bytes[..count]) + [] == before + bytes
  {
  }

  // ----- what becomes of queued messages

  /** The flush behind a message, which waits at most once: the message is no longer
      in hand, so the next poll finds the sink ready. */
  function AfterFlush(script: seq<WriteEvent>): Option<seq<WriteEvent>> {
    if script == [] || script[0].Accepts? then Some(script)
    else if script[0].WriteBlocked? then Some(script[1..])
    else None
  }

  /** What becomes of messages of these sizes, each written and flushed in turn. */
  function FateOfAll(script: seq<WriteEvent>, sizes: seq<nat>): Fate
    decreases |sizes|
  {
    if sizes == [] then AllTaken
    else match FateOf(script, sizes[0])
      case AllTaken =>
        (match AfterFlush(Left(script, sizes[0]))
         case None => Fails
         case Some(rest) => FateOfAll(rest, sizes[1..]))
      case other => other
  }

  function Sum(sizes: seq<nat>): nat {
    if sizes == [] then 0 else sizes[0] + Sum(sizes[1..])
  }

  /** How often the socket takes something. */
  function Openings(script: seq<WriteEvent>): nat {
    if script == [] then 0 else (if script[0].Accepts? then 1 else 0) + Openings(script[1..])
  }

  lemma {:induction false} LeftIsHealthy(script: seq<WriteEvent>, n: nat)
    ensures WriteBroken in Left(script, n) ==> WriteBroken in script
    ensures FateOf(script, n) == Fails ==> WriteBroken in script
    ensures Openings(Left(script, n)) + n >= Openings(script) || WriteBroken in script
    ensures n <= Openings(script) && WriteBroken !in script ==> FateOf(script, n) == AllTaken
    decreases |script|
  {
    if n > 0 && script != [] {
      assert script == [script[0]] + script[1..];
      match script[0]
      case WriteBlocked => LeftIsHealthy(script[1..], n);
      case Accepts(room) => LeftIsHealthy(script[1..], n - Min(room, n));
      case WriteBroken =>
    }
  }

  lemma FlushIsHealthy(script: seq<WriteEvent>)
    ensures AfterFlush(script).None? ==> WriteBroken in script
    ensures AfterFlush(script).Some? ==> Openings(AfterFlush(script).value) == Openings(script)
    ensures AfterFlush(script).Some? && WriteBroken in AfterFlush(script).value ==> WriteBroken in script
  {
  }

  /** Only a broken socket makes a drain fail, and one that goes on taking bytes
      takes them all, however often it makes the sink wait. */
  lemma {:induction false} HealthySocketTakesAll(script: seq<WriteEvent>, sizes: seq<nat>)
    ensures FateOfAll(script, sizes) == Fails ==> WriteBroken in script
    ensures WriteBroken !in script && Openings(script) >= Sum(sizes) ==> FateOfAll(script, sizes) == AllTaken
    decreases |sizes|
  {
    if sizes != [] {
      var left := Left(script, sizes[0]);
      LeftIsHealthy(script, sizes[0]);
      FlushIsHealthy(left);
      if AfterFlush(left).Some? {
        HealthySocketTakesAll(AfterFlush(left).value, sizes[1..]);
      }
    }
  }

  /** How a drain reports it. */
  function Report(fate: Fate): Flush {
    match fate
    case AllTaken => Flushed
    case Stuck => FlushPending
    case Fails => FlushFailed
  }

  // ----- WMessage and the sink

  class WMessage {
    const buf: seq<u8>
    var cursor: u16

    constructor (buf: seq<u8>, cursor: u16)
      ensures this.buf == buf && this.cursor == cursor
    {
      this.buf, this.cursor := buf, cursor;
    }

    ghost predicate Valid()
      reads this
    {
      cursor <= |buf|
    }

    /** Short enough for the cursor, see `WholeIffShort`. */
    predicate Fits() {
      |buf| <= 0x1_0000
    }

    /** What is still to be sent. */
    function Bytes(): seq<u8>
      requires cursor <= |buf|
      reads this
    {
      buf[cursor..]
    }

    predicate IsCompleted()
      reads this
    {
      IsDrained(|buf|, cursor)
    }

    method Advance(count: nat)
      modifies this
      ensures cursor == Truncate16(old(cursor) + count)
    {
      cursor := Truncate16(cursor + count);
    }
  }

  class FramedSink {
    const io: Destination
    var writing: WMessage?

    constructor (io: Destination)
      ensures this.io == io && writing == null
    {
      this.io, writing := io, null;
    }

    ghost predicate Valid()
      reads this, writing
    {
      writing != null ==> writing.Valid()
    }

    ghost function Unsent(): seq<u8>
      requires Valid()
      reads this, writing
    {
      if writing == null then [] else writing.Bytes()
    }

    /** What will become of the message in hand, and what the socket has left then. */
    ghost function Prospect(): Fate
      requires Valid()
      reads this, writing, io
    {
      FateOf(io.script, |Unsent()|)
    }

    ghost function Remains(): seq<WriteEvent>
      requires Valid()
      reads this, writing, io
    {
      Left(io.script, |Unsent()|)
    }

    ghost predicate Fits()
      reads this
    {
      writing != null ==> writing.Fits()
    }

    /** A flush is pending exactly when the socket has made it wait, or takes nothing
        more; otherwise nobody would wake it. */
    ghost predicate HasWaited(before: seq<WriteEvent>, pending: bool)
      reads this, io
    {
      if pending then WriteWaits(before) == WriteWaits(io.script) + 1 || (WriteWaits(before) == 0 && io.script == [])
      else WriteWaits(before) == WriteWaits(io.script)
    }

    /** One turn of the loop: what the socket takes of the message in hand, and
        whether to stop. */
    method Turn() returns (stop: Option<Flush>)
      requires Valid() && writing != null
      modifies this, writing, io
      ensures Valid() && (writing == old(writing) || writing == null)
      ensures old(Fits()) ==> Fits() && io.written + Unsent() == old(io.written + Unsent())
      ensures stop.Some? ==> !stop.value.Flushed? && writing != null
      ensures old(Fits()) ==> Prospect() == old(Prospect()) && Remains() == old(Remains())
      ensures old(Fits()) && stop.Some? ==> Unsent() != []
      ensures HasWaited(old(io.script), stop == Some(FlushPending))
      ensures old(Fits()) && stop == Some(FlushFailed) ==> Prospect() == Fails
      ensures stop == Some(FlushPending) ==> |io.script| < |old(io.script)| || io.script == []
      ensures |io.script| <= |old(io.script)|
      ensures stop.None? ==> writing == null || |io.script| < |old(io.script)|
    {
      hide IsDrained, Truncate16;
      var bytes := writing.Bytes();
      ghost var before := io.written;
      var w := io.Write(bytes);
      match w
      case WriteNotReady => return Some(FlushPending);
      case WriteFailed => return Some(FlushFailed);
      case Wrote(count) =>
        Moved(before, bytes, count);
        LeftAfter(writing.buf, writing.cursor, count);
        writing.Advance(count);
        if writing.IsCompleted() {
          writing := null;
        }
        return None;
    }

    /** Bytes are only ever moved from the message in hand to the socket, and the
        socket is flushed when none is left in hand. */
    method PollFlush() returns (r: Flush)
      requires Valid()
      modifies this, writing, io
      ensures Valid() && (writing == old(writing) || writing == null)
      ensures old(Fits()) ==> Fits() && io.written + Unsent() == old(io.written + Unsent())
      ensures r.Flushed? ==> writing == null
      ensures |io.script| <= |old(io.script)|
      ensures r.FlushPending? ==> |io.script| < |old(io.script)| || io.script == []
      ensures HasWaited(old(io.script), r.FlushPending?)
      ensures old(Fits()) ==> Foretold(r, old(Prospect()), old(Remains()))
    {
      ghost var fits, all := Fits(), io.written + Unsent();
      while writing != null
        invariant Valid() && (writing == old(writing) || writing == null)
        invariant fits ==> Fits() && io.written + Unsent() == all
        invariant |io.script| <= |old(io.script)|
        invariant fits ==> Prospect() == old(Prospect()) && Remains() == old(Remains())
        invariant WriteWaits(io.script) == WriteWaits(old(io.script))
        decreases writing != null, |io.script|
      {
        var stop := Turn();
        if stop.Some? {
          return stop.value;
        }
      }
      r := io.Flush();
    }

    /** The answer of a flush is what was to be expected of the message in hand:
        after a wait it is either still in hand, or written with only the flush
        of the socket to come. */
    ghost predicate Foretold(r: Flush, fate: Fate, left: seq<WriteEvent>)
      requires Valid()
      reads this, writing, io
    {
      match r
      case Flushed => fate == AllTaken && AfterFlush(left) == Some(io.script)
      case FlushPending =>
        if writing == null then fate == AllTaken && AfterFlush(left) == Some(io.script)
        else Unsent() != [] && Prospect() == fate && Remains() == left
      case FlushFailed => fate == Fails || (fate == AllTaken && AfterFlush(left) == None)
    }

    method PollReady() returns (r: Flush)
      requires Valid()
      modifies this, writing, io
      ensures Valid() && (writing == old(writing) || writing == null)
      ensures old(Fits()) ==> io.written + Unsent() == old(io.written + Unsent())
      ensures r.Flushed? ==> writing == null
      ensures |io.script| <= |old(io.script)|
      ensures r.FlushPending? ==> |io.script| < |old(io.script)| || io.script == []
      ensures HasWaited(old(io.script), r.FlushPending?)
      ensures if old(writing) == null then r.Flushed? && io.script == old(io.script)
              else old(Fits()) ==> Foretold(r, old(Prospect()), old(Remains()))
    {
      if writing != null {
        r := PollFlush();
        return;
      }
      return Flushed;
    }

    /** A sink is only handed an item after it has reported to be ready. */
    method StartSend(item: WMessage)
      requires Valid() && writing == null && item.Valid()
      modifies this`writing
      ensures Valid() && writing == item
    {
      writing := item;
    }

    /** The executor polls a pending sink again whenever the socket moves. */
    method Settle() returns (r: Flush)
      requires Valid() && Fits()
      modifies this, writing, io
      ensures Valid() && Fits() && (writing == old(writing) || writing == null)
      ensures io.written + Unsent() == old(io.written + Unsent())
      ensures r.Flushed? ==> writing == null
      ensures r.FlushPending? ==> io.script == []
      ensures old(writing) != null ==> r == Report(FateOfAll(old(io.script), [|old(Unsent())|]))
      ensures old(writing) != null && r.Flushed? ==> AfterFlush(old(Remains())) == Some(io.script)
      ensures old(writing) == null ==> r.Flushed? && io.script == old(io.script)
    {
      ghost var held := writing != null;
      assert FateOfAll(io.script, [|Unsent()|][1..]) == AllTaken;
      r := PollReady();
      while r.FlushPending? && (io.script != [] || writing == null)
        invariant Valid() && Fits() && (writing == old(writing) || writing == null)
        invariant io.written + Unsent() == old(io.written + Unsent())
        invariant r.Flushed? ==> writing == null
        invariant if held then Foretold(r, old(Prospect()), old(Remains())) else r.Flushed? && io.script == old(io.script)
        decreases r.FlushPending?, writing != null, |io.script|
      {
        r := PollReady();
      }
    }

    /** One queued message: handed over once the sink is ready, and settled. */
    method SendNext(p: Packet) returns (r: Flush)
      requires Valid() && writing == null && p.Fits()
      modifies this, writing, io
      ensures Valid() && Fits() && (writing == null || fresh(writing))
      ensures io.written + Unsent() == old(io.written) + p.Tail()
      ensures r.Flushed? ==> writing == null && AfterFlush(Left(old(io.script), |p.Tail()|)) == Some(io.script)
      ensures r.FlushPending? ==> io.script == []
      ensures r == Report(FateOfAll(old(io.script), [|p.Tail()|]))
    {
      var item := new WMessage(p.buf, p.cursor);
      StartSend(item);
      r := Settle();
    }

    /** `rx.forward(sink)`: hand over the queued messages one at a time. At every
        point the bytes on the socket, in hand and still queued are those that
        were queued, in order; and how it ends is foretold by what the socket
        does. */
    method Forward(queue: seq<Packet>) returns (r: Flush, ghost left: seq<Packet>)
      requires Valid() && Fits() && (forall p | p in queue :: p.Fits())
      modifies this, writing, io
      ensures Valid() && Fits()
      ensures io.written + Unsent() + Tails(left) == old(io.written + Unsent()) + Tails(queue)
      ensures r.Flushed? ==> io.written == old(io.written + Unsent()) + Tails(queue)
      ensures r.FlushPending? ==> io.script == []
      ensures r == Report(FateOfAll(old(io.script), (if old(writing) == null then [] else [|old(Unsent())|]) + Lengths(queue)))
    {
      hide FateOfAll, AfterFlush, Left, FateOf, Lengths;
      ghost var start := io.written + Unsent();
      ghost var held := if writing == null then [] else [|Unsent()|];
      ghost var fate := FateOfAll(io.script, held + Lengths(queue));
      FateOfNext(io.script, held, Lengths(queue));
      var todo := queue;
      r := Settle();
      while r.Flushed? && todo != []
        invariant Valid() && Fits() && (writing == old(writing) || writing == null || fresh(writing))
        invariant forall p | p in todo :: p.Fits()
        invariant io.written + Unsent() + Tails(todo) == start + Tails(queue)
        invariant r.Flushed? ==> writing == null
        invariant r.FlushPending? ==> io.script == []
        invariant if r.Flushed? then fate == FateOfAll(io.script, Lengths(todo)) else r == Report(fate)
        decreases |todo|
      {
        var p := todo[0];
        assert p in todo && p.Fits();
        ghost var before := io.written;
        assert before + Unsent() == before;
        LengthsStep(todo);
        FateOfNext(io.script, [|p.Tail()|], Lengths(todo[1..]));
        Assoc(before, p.Tail(), Tails(todo[1..]));
        todo := todo[1..];
        r := SendNext(p);
      }
      left := todo;
      if r.Flushed? {
        assert io.written + Unsent() + Tails([]) == io.written;
        NothingLeft(io.script);
      }
    }
  }

  lemma FateOfNext(script: seq<WriteEvent>, first: seq<nat>, sizes: seq<nat>)
    requires |first| <= 1
    ensures first == [] ==> first + sizes == sizes
    ensures first != [] && FateOfAll(script, first) != AllTaken ==> FateOfAll(script, first + sizes) == FateOfAll(script, first)
    ensures first != [] && FateOfAll(script, first) == AllTaken ==>
      && AfterFlush(Left(script, first[0])).Some?
      && FateOfAll(script, first + sizes) == FateOfAll(AfterFlush(Left(script, first[0])).value, sizes)
  {
    if first != [] {
      assert (first + sizes)[1..] == sizes && first[1..] == [];
    }
  }

  lemma LengthsStep(queue: seq<Packet>)
    requires queue != []
    ensures Lengths(queue) == [|queue[0].Tail()|] + Lengths(queue[1..])
  {
  }

  lemma NothingLeft(script: seq<WriteEvent>)
    ensures FateOfAll(script, Lengths([])) == AllTaken
  {
  }

  /** A message as it waits in a channel. */
  datatype Packet = Packet(buf: seq<u8>, cursor: u16) {
    predicate Fits() {
      cursor <= |buf| <= 0x1_0000
    }

    function Tail(): seq<u8> {
      if cursor <= |buf| then buf[cursor..] else []
    }
  }

  function Lengths(queue: seq<Packet>): (sizes: seq<nat>)
    ensures |sizes| == |queue| && forall i | 0 <= i < |queue| :: sizes[i] == |queue[i].Tail()|
  {
    seq(|queue|, i requires 0 <= i < |queue| => |queue[i].Tail()|)
  }

  function Tails(queue: seq<Packet>): seq<u8> {
    if queue == [] then [] else queue[0].Tail() + Tails(queue[1..])
  }
}
