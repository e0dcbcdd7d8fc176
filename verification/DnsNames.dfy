/** Compressed names in a DNS message (section 4.1.4 of RFC 1035): the reference
    reading of a name, when reading it comes to an end, and the round trip with
    the uncompressed form that is written. */
module DnsNames {
  import opened Bytes
  import opened Counting
  import opened Names

  const SIZE := 512
  const LABEL_MAX := 0x34

  type Packet512 = s: seq<u8> | |s| == SIZE witness seq(512, _ => 0)

  // ----- one turn of the reading loop

  /** What stands at a position of a name. */
  datatype Piece =
    | Bad                          // outside the buffer
    | End                          // the empty label
    | Pointer(target: nat)
    | Part(text: Label, next: nat)

  function PieceAt(buf: Packet512, pos: nat): (p: Piece)
    ensures p.Part? ==> pos < p.next < SIZE && p.text != []
  {
    if pos >= SIZE then Bad
    else
      var len: nat := buf[pos];
      if len >= 0xC0 then
        if pos + 1 >= SIZE then Bad
        else
          var low: nat := buf[pos + 1];
          Pointer((len - 0xC0) * 256 + low)
      else if len == 0 then End
      else if pos + 1 + len >= SIZE then Bad
      else Part(Lower(buf[pos + 1..pos + 1 + len]), pos + 1 + len)
  }

  // ----- the reference

  datatype Labels = Endless | Broken | Labels(labels: seq<Label>)

  /** The labels of the name at `pos`, pointers expanded, in at most `fuel` pieces. */
  function LabelsAt(buf: Packet512, pos: nat, fuel: nat): (r: Labels)
    decreases fuel
  {
    if fuel == 0 then Endless
    else match PieceAt(buf, pos)
      case Bad => Broken
      case End => Labels([])
      case Pointer(target) => LabelsAt(buf, target, fuel - 1)
      case Part(text, next) =>
        match LabelsAt(buf, next, fuel - 1)
        case Labels(rest) => Labels([text] + rest)
        case other => other
  }

  /** The position behind the name: just past its zero byte or its first pointer. */
  function Behind(buf: Packet512, pos: nat): nat
    decreases SIZE - pos
  {
    match PieceAt(buf, pos)
    case Bad => pos
    case End => pos + 1
    case Pointer(_) => pos + 2
    case Part(_, next) => Behind(buf, next)
  }

  lemma {:induction false} MoreFuel(buf: Packet512, pos: nat, fuel: nat, more: nat)
    requires fuel <= more && LabelsAt(buf, pos, fuel) != Endless
    ensures LabelsAt(buf, pos, more) == LabelsAt(buf, pos, fuel)
    decreases fuel
  {
    var p := PieceAt(buf, pos);
    if p.Pointer? {
      MoreFuel(buf, p.target, fuel - 1, more - 1);
    } else if p.Part? {
      MoreFuel(buf, p.next, fuel - 1, more - 1);
    }
  }

  // ----- termination

  ghost predicate Terminates(buf: Packet512, pos: nat) {
    exists fuel :: LabelsAt(buf, pos, fuel) != Endless
  }

  /** Where the loop goes from `pos`, if it goes on. */
  function Onward(buf: Packet512, pos: nat): Option<nat> {
    match PieceAt(buf, pos)
    case Pointer(target) => Some(target)
    case Part(_, next) => Some(next)
    case _ => None
  }

  /** The first `n` positions the loop visits. */
  ghost predicate Visits(buf: Packet512, trail: seq<nat>) {
    forall i | 0 <= i < |trail| - 1 :: Onward(buf, trail[i]) == Some(trail[i + 1])
  }

  lemma {:induction false} EndlessTrail(buf: Packet512, pos: nat, fuel: nat) returns (trail: seq<nat>)
    requires LabelsAt(buf, pos, fuel) == Endless
    ensures |trail| == fuel + 1 && trail[0] == pos && Visits(buf, trail)
    ensures forall i | 0 <= i < fuel :: trail[i] < SIZE
    decreases fuel
  {
    if fuel == 0 {
      trail := [pos];
    } else {
      var next := Onward(buf, pos).value;
      var rest := EndlessTrail(buf, next, fuel - 1);
      trail := [pos] + rest;
      forall i | 0 <= i < |trail| - 1
        ensures Onward(buf, trail[i]) == Some(trail[i + 1])
      {
        if i > 0 {
          assert trail[i] == rest[i - 1] && trail[i + 1] == rest[i];
        }
      }
    }
  }

  lemma OneTurn(buf: Packet512, pos: nat, fuel: nat)
    requires Onward(buf, pos).Some?
    ensures LabelsAt(buf, pos, fuel + 1) == Endless <==> LabelsAt(buf, Onward(buf, pos).value, fuel) == Endless
  {
  }

  /** Along a trail the question whether the loop ends does not change. */
  lemma {:induction false} TrailShifts(buf: Packet512, trail: seq<nat>, i: nat, j: nat, fuel: nat)
    requires Visits(buf, trail) && i <= j < |trail|
    ensures LabelsAt(buf, trail[i], fuel + (j - i)) == Endless <==> LabelsAt(buf, trail[j], fuel) == Endless
    decreases j - i
  {
    hide LabelsAt, PieceAt;
    if i < j {
      assert Onward(buf, trail[i]) == Some(trail[i + 1]);
      OneTurn(buf, trail[i], fuel + (j - i - 1));
      TrailShifts(buf, trail, i + 1, j, fuel);
    }
  }

  /** A position that comes round again comes round for ever. */
  lemma {:induction false} CycleIsEndless(buf: Packet512, trail: seq<nat>, i: nat, j: nat, fuel: nat)
    requires Visits(buf, trail) && i < j < |trail| && trail[i] == trail[j]
    ensures LabelsAt(buf, trail[i], fuel) == Endless
    decreases fuel
  {
    var d := j - i;
    if fuel >= d {
      CycleIsEndless(buf, trail, i, j, fuel - d);
      TrailShifts(buf, trail, i, j, fuel - d);
    } else if LabelsAt(buf, trail[i], fuel) != Endless {
      MoreFuel(buf, trail[i], fuel, d);
      TrailShifts(buf, trail, i, j, 0);
    }
  }

  /** `read_qname` returns if and only if it does so within 513 turns: a longer
      walk has visited one of the 512 positions twice. */
  lemma TerminatesIff(buf: Packet512, pos: nat)
    ensures Terminates(buf, pos) <==> LabelsAt(buf, pos, |buf| + 1) != Endless
  {
    hide LabelsAt, Visits, Onward;
    if LabelsAt(buf, pos, |buf| + 1) == Endless {
      var trail := EndlessTrail(buf, pos, |buf| + 1);
      var walk := trail[..|buf| + 1];
      var i, j := Repeats(walk);
      assert trail[i] == trail[j];
      forall fuel: nat
        ensures LabelsAt(buf, pos, fuel) == Endless
      {
        CycleIsEndless(buf, trail, i, j, fuel);
        TrailShifts(buf, trail, 0, i, fuel);
        if LabelsAt(buf, pos, fuel) != Endless {
          MoreFuel(buf, pos, fuel, fuel + i);
        }
      }
    }
  }

  lemma Repeats(walk: seq<nat>) returns (i: nat, j: nat)
    requires |walk| == SIZE + 1 && forall k | 0 <= k < |walk| :: walk[k] < SIZE
    ensures i < j < |walk| && walk[i] == walk[j]
  {
    if NoDup(walk) {
      DistinctCount(walk);
      SubsetCount(Elems(walk), Below(SIZE));
      assert false;
    }
    i, j :| 0 <= i < j < |walk| && walk[i] == walk[j];
  }

  /** `p` is reached from `start` without following a pointer. */
  predicate InRun(buf: Packet512, start: nat, p: nat)
    decreases SIZE - start
  {
    start == p || (PieceAt(buf, start).Part? && InRun(buf, PieceAt(buf, start).next, p))
  }

  /** From each of `starts`, every pointer at the end of a run lands strictly
      before its start, on another of them. Bytes that no reading comes to may
      look like pointers anywhere. */
  ghost predicate Descends(buf: Packet512, starts: set<nat>) {
    forall start, p | start in starts && InRun(buf, start, p) && PieceAt(buf, p).Pointer? ::
      PieceAt(buf, p).target < start && PieceAt(buf, p).target in starts
  }

  lemma {:induction false} RunGoesOn(buf: Packet512, start: nat, p: nat)
    requires InRun(buf, start, p) && PieceAt(buf, p).Part?
    ensures InRun(buf, start, PieceAt(buf, p).next)
    decreases SIZE - start
  {
    if start != p {
      RunGoesOn(buf, PieceAt(buf, start).next, p);
    }
  }

  /** A name in such a run is always read to an end: the start of the run goes
      down at each pointer, and the position goes up in between. */
  lemma {:induction false} DescendingTerminates(buf: Packet512, starts: set<nat>, start: nat, pos: nat)
    requires Descends(buf, starts) && start in starts && InRun(buf, start, pos)
    ensures Terminates(buf, pos)
    decreases start, SIZE - pos
  {
    var p := PieceAt(buf, pos);
    match p
    case Pointer(target) =>
      DescendingTerminates(buf, starts, target, target);
      TerminatesLater(buf, pos);
    case Part(_, next) =>
      RunGoesOn(buf, start, pos);
      DescendingTerminates(buf, starts, start, next);
      TerminatesLater(buf, pos);
    case _ =>
      assert LabelsAt(buf, pos, 1) != Endless;
  }

  lemma TerminatesLater(buf: Packet512, pos: nat)
    requires Onward(buf, pos).Some? && Terminates(buf, Onward(buf, pos).value)
    ensures Terminates(buf, pos)
  {
    var fuel :| LabelsAt(buf, Onward(buf, pos).value, fuel) != Endless;
    OneTurn(buf, pos, fuel);
  }

  /** A pointer to itself is never read to an end. */
  lemma SelfPointerDiverges(buf: Packet512, pos: nat)
    requires PieceAt(buf, pos) == Pointer(pos)
    ensures !Terminates(buf, pos)
  {
    assert Visits(buf, [pos, pos]);
    forall fuel: nat
      ensures LabelsAt(buf, pos, fuel) == Endless
    {
      CycleIsEndless(buf, [pos, pos], 0, 1, fuel);
    }
  }

  // ----- reading and writing a name

  /** The outcome of reading something: it may never return, fail, or give a
      value and leave the cursor at `next`. */
  datatype Decoded<+T> = Diverges | Failed | Got(value: T, next: nat) {
    predicate IsFailure() {
      !Got?
    }

    function PropagateFailure<U>(): Decoded<U>
      requires IsFailure()
    {
      if Diverges? then Diverges else Failed
    }

    function Extract(): (T, nat)
      requires Got?
    {
      (value, next)
    }
  }

  function ReadName(buf: Packet512, pos: nat): (r: Decoded<Name>) {
    match LabelsAt(buf, pos, |buf| + 1)
    case Endless => Diverges
    case Broken => Failed
    case Labels(labels) => Got(Join(labels), Behind(buf, pos))
  }

  predicate AreWritable(labels: seq<Label>) {
    forall i | 0 <= i < |labels| :: |labels[i]| <= LABEL_MAX
  }

  /** The uncompressed form of section 3.1 of RFC 1035. */
  function EncodeLabels(labels: seq<Label>): (bs: seq<u8>)
    requires AreWritable(labels)
    ensures |bs| > |labels|
  {
    if labels == [] then [0]
    else [|labels[0]|] + labels[0] + EncodeLabels(labels[1..])
  }

  /** The written form of a name; `None` if a label is refused. */
  function NameBytes(name: Name): Option<seq<u8>> {
    if AreWritable(Split(name)) then Some(EncodeLabels(Split(name))) else None
  }

  /** `bs` stands in the buffer at `pos`. */
  predicate At(buf: Packet512, pos: nat, bs: seq<u8>) {
    pos + |bs| <= SIZE && forall i | 0 <= i < |bs| :: buf[pos + i] == bs[i]
  }

  lemma AtSplit(buf: Packet512, pos: nat, a: seq<u8>, b: seq<u8>)
    ensures At(buf, pos, a + b) <==> At(buf, pos, a) && At(buf, pos + |a|, b)
  {
    if At(buf, pos, a + b) {
      assert forall i | 0 <= i < |a| :: (a + b)[i] == a[i];
      forall i | 0 <= i < |b|
        ensures buf[pos + |a| + i] == b[i]
      {
        assert (a + b)[|a| + i] == b[i];
      }
    }
  }

  lemma AtThree(buf: Packet512, pos: nat, a: seq<u8>, b: seq<u8>, c: seq<u8>)
    requires At(buf, pos, a + b + c)
    ensures At(buf, pos, a) && At(buf, pos + |a|, b) && At(buf, pos + |a| + |b|, c)
  {
    AtSplit(buf, pos, a + b, c);
    AtSplit(buf, pos, a, b);
  }

  predicate HasEmpty(labels: seq<Label>) {
    [] in labels
  }

  lemma WrittenPiece(buf: Packet512, pos: nat, l: Label)
    requires |l| <= LABEL_MAX && At(buf, pos, [|l|]) && At(buf, pos + 1, l) && pos + 1 + |l| < SIZE
    ensures PieceAt(buf, pos) == if l == [] then End else Part(Lower(l), pos + 1 + |l|)
  {
    assert [|l|][0] == |l|;
    assert buf[pos + 1..pos + 1 + |l|] == l;
  }

  lemma EncodedParts(buf: Packet512, pos: nat, labels: seq<Label>)
    requires AreWritable(labels) && At(buf, pos, EncodeLabels(labels)) && labels != []
    ensures var l, rest := labels[0], EncodeLabels(labels[1..]);
      && |EncodeLabels(labels)| == 1 + |l| + |rest|
      && At(buf, pos, [|l|]) && At(buf, pos + 1, l) && At(buf, pos + 1 + |l|, rest)
  {
    hide At;
    var l, rest := labels[0], EncodeLabels(labels[1..]);
    AtThree(buf, pos, [|l|], l, rest);
  }

  lemma FirstPiece(buf: Packet512, pos: nat, labels: seq<Label>)
    requires AreWritable(labels) && At(buf, pos, EncodeLabels(labels)) && labels != []
    ensures var l := labels[0];
      && PieceAt(buf, pos) == (if l == [] then End else Part(Lower(l), pos + 1 + |l|))
      && At(buf, pos + 1 + |l|, EncodeLabels(labels[1..]))
      && |EncodeLabels(labels)| == 1 + |l| + |EncodeLabels(labels[1..])|
  {
    EncodedParts(buf, pos, labels);
    WrittenPiece(buf, pos, labels[0]);
  }

  lemma PartTurn(buf: Packet512, pos: nat, fuel: nat, text: Label, next: nat)
    requires PieceAt(buf, pos) == Part(text, next) && fuel > 0 && LabelsAt(buf, next, fuel - 1).Labels?
    ensures LabelsAt(buf, pos, fuel) == Labels([text] + LabelsAt(buf, next, fuel - 1).labels)
    ensures Behind(buf, pos) == Behind(buf, next)
  {
  }

  lemma EmptyLabels(buf: Packet512, pos: nat, fuel: nat)
    requires At(buf, pos, [0]) && fuel > 0
    ensures LabelsAt(buf, pos, fuel) == Labels([]) && Behind(buf, pos) == pos + 1
  {
    assert [0][0] == 0;
  }

  lemma NothingEncoded()
    ensures EncodeLabels([]) == [0] && !HasEmpty([]) && LowerAll([]) == []
  {
  }

  lemma HasEmptyStep(labels: seq<Label>)
    requires labels != []
    ensures HasEmpty(labels) <==> labels[0] == [] || HasEmpty(labels[1..])
    ensures LowerAll(labels) == [Lower(labels[0])] + LowerAll(labels[1..])
  {
    assert labels == [labels[0]] + labels[1..];
  }

  /** Written labels are read back in lower case up to the first empty one. */
  lemma {:induction false} ReadsWritten(buf: Packet512, pos: nat, labels: seq<Label>, fuel: nat)
    requires AreWritable(labels) && At(buf, pos, EncodeLabels(labels)) && fuel > |labels|
    ensures LabelsAt(buf, pos, fuel).Labels?
    ensures !HasEmpty(labels) ==> LabelsAt(buf, pos, fuel).labels == LowerAll(labels)
    ensures !HasEmpty(labels) ==> Behind(buf, pos) == pos + |EncodeLabels(labels)|
    ensures HasEmpty(labels) ==> Behind(buf, pos) < pos + |EncodeLabels(labels)|
    decreases |labels|
  {
    hide LabelsAt, PieceAt, Behind, At, HasEmpty, Lower, LowerAll, EncodeLabels;
    if labels == [] {
      NothingEncoded();
      EmptyLabels(buf, pos, fuel);
    } else {
      var l, rest := labels[0], labels[1..];
      EncodedParts(buf, pos, labels);
      HasEmptyStep(labels);
      if l == [] {
        EmptyLabels(buf, pos, fuel);
      } else {
        FirstPiece(buf, pos, labels);
        var next := pos + 1 + |l|;
        ReadsWritten(buf, next, rest, fuel - 1);
        PartTurn(buf, pos, fuel, Lower(l), next);
      }
    }
  }

  /** Exactly the names without empty labels and upper-case letters survive being
      written and read: only for them the same name comes back and the cursor
      stops at the end of what was written. */
  lemma NameRoundTripIff(buf: Packet512, pos: nat, name: Name)
    requires NameBytes(name).Some? && At(buf, pos, NameBytes(name).value)
    ensures ReadName(buf, pos) == Got(name, pos + |NameBytes(name).value|) <==>
            !HasEmpty(Split(name)) && Lower(name) == name
  {
    var labels := Split(name);
    ReadsWritten(buf, pos, labels, |buf| + 1);
    JoinOfLower(labels);
    JoinOfSplit(name);
  }
}
