/** `BytePacketBuffer`: a 512-byte message with a cursor, read and written in place. */
module DnsBuffer {
  import opened Bytes
  import opened Names
  import opened DnsNames

  // ----- what the primitive reads give

  function U8At(buf: Packet512, pos: nat): Decoded<u8> {
    if pos >= SIZE then Failed else Got(buf[pos], pos + 1)
  }

  function U16At(buf: Packet512, pos: nat): Decoded<u16> {
    if pos + 2 > SIZE then Failed else Got(FromBe16(buf[pos], buf[pos + 1]), pos + 2)
  }

  function U32At(buf: Packet512, pos: nat): Decoded<u32> {
    if pos + 4 > SIZE then Failed else Got(FromBe32(buf[pos], buf[pos + 1], buf[pos + 2], buf[pos + 3]), pos + 4)
  }

  /** What is written is what is read. */
  lemma U16RoundTrip(buf: Packet512, pos: nat, v: u16)
    requires At(buf, pos, Be16(v))
    ensures U16At(buf, pos) == Got(v, pos + 2)
  {
    assert buf[pos + 0] == Be16(v)[0] && buf[pos + 1] == Be16(v)[1];
  }

  lemma U32RoundTrip(buf: Packet512, pos: nat, v: u32)
    requires At(buf, pos, Be32(v))
    ensures U32At(buf, pos) == Got(v, pos + 4)
  {
    var bs := Be32(v);
    assert buf[pos + 0] == bs[0] && buf[pos + 1] == bs[1] && buf[pos + 2] == bs[2] && buf[pos + 3] == bs[3];
  }

  /** A method's answer agrees with the reference. */
  ghost predicate Answers<T>(d: Decoded<T>, r: Option<T>, pos: nat) {
    match d
    case Diverges => false
    case Failed => r.None?
    case Got(value, next) => r == Some(value) && pos == next
  }

  // ----- what a write leaves behind

  /** `bs` was written from `p` up to `q`, and nothing else changed. */
  ghost predicate Wrote(before: Packet512, p: nat, after: Packet512, q: nat, bs: seq<u8>) {
    && q == p + |bs| && At(after, p, bs)
    && (forall i | 0 <= i < SIZE && !(p <= i < q) :: after[i] == before[i])
  }

  /** Two bytes were overwritten, and no other. */
  ghost predicate IsSet16(before: Packet512, at: nat, v: u16, after: Packet512)
    requires at + 2 <= SIZE
  {
    after == before[at := v / 256][at + 1 := v % 256]
  }

  lemma WroteThen(a: Packet512, p: nat, b: Packet512, q: nat, x: seq<u8>, c: Packet512, r: nat, y: seq<u8>)
    requires Wrote(a, p, b, q, x) && Wrote(b, q, c, r, y)
    ensures Wrote(a, p, c, r, x + y)
  {
    AtSplit(c, p, x, y);
    forall i | 0 <= i < |x|
      ensures c[p + i] == x[i]
    {
      assert c[p + i] == b[p + i];
    }
    forall i | 0 <= i < SIZE && !(p <= i < r)
      ensures c[i] == a[i]
    {
      assert c[i] == b[i];
    }
  }

  /** A write of `bs` succeeds exactly when there is something to write and it
      fits, and then nothing but those bytes has changed. */
  ghost predicate Writes(before: Packet512, p: nat, after: Packet512, q: nat, bs: Option<seq<u8>>, ok: bool) {
    && q <= SIZE && (ok <==> bs.Some? && p + |bs.value| <= SIZE)
    && (ok ==> Wrote(before, p, after, q, bs.value))
  }

  /** One thing after the other; refused if either is. */
  function Cat(a: Option<seq<u8>>, b: Option<seq<u8>>): Option<seq<u8>> {
    if a.Some? && b.Some? then Some(a.value + b.value) else None
  }

  lemma WritesThen(before: Packet512, p: nat, mid: Packet512, m: nat, x: Option<seq<u8>>,
                   after: Packet512, q: nat, y: Option<seq<u8>>, ok: bool)
    requires x.Some? && Wrote(before, p, mid, m, x.value) && Writes(mid, m, after, q, y, ok)
    ensures Writes(before, p, after, q, Cat(x, y), ok)
  {
    if ok {
      WroteThen(before, p, mid, m, x.value, after, q, y.value);
    }
  }

  /** The labels of a name without the end, each behind its length. */
  function Prefixed(labels: seq<Label>): seq<u8> {
    if labels == [] || |labels[0]| > LABEL_MAX then [] else [|labels[0]|] + labels[0] + Prefixed(labels[1..])
  }

  lemma {:induction false} PrefixedAppend(labels: seq<Label>, l: Label)
    requires AreWritable(labels) && |l| <= LABEL_MAX
    ensures Prefixed(labels + [l]) == Prefixed(labels) + ([|l|] + l)
  {
    if labels == [] {
      assert [] + [l] == [l] && [l][1..] == [];
    } else {
      PrefixedAppend(labels[1..], l);
      assert (labels + [l])[1..] == labels[1..] + [l];
      Assoc([|labels[0]|] + labels[0], Prefixed(labels[1..]), [|l|] + l);
    }
  }

  /** What is written of a name by the time its label `i` comes, and after it. */
  lemma PrefixedSplit(labels: seq<Label>, i: nat)
    requires i < |labels| && AreWritable(labels[..i])
    ensures |labels[i]| > LABEL_MAX ==> !AreWritable(labels)
    ensures |labels[i]| <= LABEL_MAX ==>
      && AreWritable(labels[..i + 1])
      && Prefixed(labels[..i + 1]) == Prefixed(labels[..i]) + ([|labels[i]|] + labels[i])
    ensures AreWritable(labels) ==> |EncodeLabels(labels)| > |Prefixed(labels[..i])| + 1 + |labels[i]|
  {
    assert labels[..i + 1] == labels[..i] + [labels[i]];
    if |labels[i]| <= LABEL_MAX {
      PrefixedAppend(labels[..i], labels[i]);
    }
    if AreWritable(labels) {
      PrefixedEncodes(labels);
      PrefixedGrows(labels, i + 1);
    }
  }

  lemma {:induction false} PrefixedEncodes(labels: seq<Label>)
    requires AreWritable(labels)
    ensures EncodeLabels(labels) == Prefixed(labels) + [0]
  {
    if labels != [] {
      PrefixedEncodes(labels[1..]);
      Assoc([|labels[0]|] + labels[0], Prefixed(labels[1..]), [0]);
    }
  }

  lemma {:induction false} PrefixedGrows(labels: seq<Label>, i: nat)
    requires AreWritable(labels) && i <= |labels|
    ensures |Prefixed(labels[..i])| <= |Prefixed(labels)|
    decreases |labels|
  {
    if i > 0 {
      PrefixedGrows(labels[1..], i - 1);
      assert labels[..i][1..] == labels[1..][..i - 1];
    }
  }

  // ----- the reading loop of a name

  function Dotted(text: Name, part: Label): Name {
    if text == [] then part else text + [DOT] + part
  }

  /** The loop on values: `at` moves, the cursor stays behind at the first jump,
      and the dotted text grows. */
  function Walk(buf: Packet512, at: nat, jumped: bool, cursor: nat, text: Name, fuel: nat): Decoded<Name>
    decreases fuel
  {
    if fuel == 0 then Diverges
    else match PieceAt(buf, at)
      case Bad => Failed
      case End => Got(text, if jumped then cursor else at + 1)
      case Pointer(target) => Walk(buf, target, true, if jumped then cursor else at + 2, text, fuel - 1)
      case Part(part, next) => Walk(buf, next, jumped, cursor, Dotted(text, part), fuel - 1)
  }

  /** The loop refines the reference: it joins the expanded labels, and what
      happens behind the first jump does not move the cursor. */
  lemma {:induction false} WalkReads(
      buf: Packet512, at: nat, jumped: bool, cursor: nat, labels: seq<Label>, text: Name, fuel: nat)
    requires text == Join(labels) && (labels == [] <==> text == [])
    ensures Walk(buf, at, jumped, cursor, text, fuel) == (
      match LabelsAt(buf, at, fuel)
      case Endless => Diverges
      case Broken => Failed
      case Labels(rest) => Got(Join(labels + rest), if jumped then cursor else Behind(buf, at)))
    decreases fuel
  {
    if fuel > 0 {
      match PieceAt(buf, at)
      case Bad =>
      case End => assert labels + [] == labels;
      case Pointer(target) =>
        WalkReads(buf, target, true, if jumped then cursor else at + 2, labels, text, fuel - 1);
      case Part(part, next) =>
        JoinAppend(labels, part);
        WalkReads(buf, next, jumped, cursor, labels + [part], Dotted(text, part), fuel - 1);
        var rest := LabelsAt(buf, next, fuel - 1);
        if rest.Labels? {
          Assoc(labels, [part], rest.labels);
        }
    }
  }

  lemma WalkOn(buf: Packet512, at: nat, jumped: bool, cursor: nat, text: Name, fuel: nat)
    requires fuel > 0 && PieceAt(buf, at).Part?
    ensures Walk(buf, at, jumped, cursor, text, fuel) ==
            Walk(buf, PieceAt(buf, at).next, jumped, cursor, Dotted(text, PieceAt(buf, at).text), fuel - 1)
  {
  }

  lemma WalkJumps(buf: Packet512, at: nat, jumped: bool, cursor: nat, text: Name, fuel: nat)
    requires fuel > 0 && PieceAt(buf, at).Pointer?
    ensures Walk(buf, at, jumped, cursor, text, fuel) ==
            Walk(buf, PieceAt(buf, at).target, true, if jumped then cursor else at + 2, text, fuel - 1)
  {
  }

  lemma WalkStops(buf: Packet512, at: nat, jumped: bool, cursor: nat, text: Name, fuel: nat)
    requires Walk(buf, at, jumped, cursor, text, fuel) != Diverges
    ensures fuel > 0
    ensures PieceAt(buf, at).Bad? ==> Walk(buf, at, jumped, cursor, text, fuel) == Failed
    ensures PieceAt(buf, at).End? ==>
              Walk(buf, at, jumped, cursor, text, fuel) == Got(text, if jumped then cursor else at + 1)
  {
  }

  lemma WalkIsReadName(buf: Packet512, pos: nat)
    ensures Walk(buf, pos, false, pos, [], |buf| + 1) == ReadName(buf, pos)
  {
    WalkReads(buf, pos, false, pos, [], [], |buf| + 1);
    var labels := LabelsAt(buf, pos, |buf| + 1);
    if labels.Labels? {
      assert [] + labels.labels == labels.labels;
    }
  }

  class BytePacketBuffer {
    const buf: array<u8>
    var pos: nat

    constructor (b: array<u8>)
      ensures buf == b && pos == 0
    {
      buf, pos := b, 0;
    }

    ghost predicate Valid()
      reads this
    {
      buf.Length == SIZE
    }

    ghost function Bytes(): Packet512
      requires Valid()
      reads this, buf
    {
      buf[..]
    }

    method Step(steps: nat)
      modifies this
      ensures pos == old(pos) + steps
    {
      pos := pos + steps;
    }

    method Read() returns (r: Option<u8>)
      requires Valid()
      modifies this
      ensures Answers(U8At(Bytes(), old(pos)), r, pos)
    {
      if pos >= SIZE {
        return None;
      }
      r := Some(buf[pos]);
      pos := pos + 1;
    }

    method Get(at: nat) returns (r: Option<u8>)
      requires Valid()
      ensures r == if at < SIZE then Some(Bytes()[at]) else None
    {
      if at >= SIZE {
        return None;
      }
      return Some(buf[at]);
    }

    method GetRange(start: nat, len: nat) returns (r: Option<seq<u8>>)
      requires Valid()
      ensures r == if start + len < SIZE then Some(Bytes()[start..start + len]) else None
    {
      if start + len >= SIZE {
        return None;
      }
      return Some(buf[start..start + len]);
    }

    method ReadU16() returns (r: Option<u16>)
      requires Valid()
      modifies this
      ensures Answers(U16At(Bytes(), old(pos)), r, pos)
    {
      var hi := Read();
      if hi.None? { return None; }
      var lo := Read();
      if lo.None? { return None; }
      return Some(FromBe16(hi.value, lo.value));
    }

    method ReadU32() returns (r: Option<u32>)
      requires Valid()
      modifies this
      ensures Answers(U32At(Bytes(), old(pos)), r, pos)
    {
      var a := Read();
      if a.None? { return None; }
      var b := Read();
      if b.None? { return None; }
      var c := Read();
      if c.None? { return None; }
      var d := Read();
      if d.None? { return None; }
      return Some(FromBe32(a.value, b.value, c.value, d.value));
    }

    /** The name at the cursor, appended to `outstr`. The loop is only entered
        where it comes to an end, see `TerminatesIff`. */
    method ReadQName() returns (outstr: Option<Name>)
      requires Valid() && ReadName(Bytes(), pos) != Diverges
      modifies this
      ensures Answers(ReadName(Bytes(), old(pos)), outstr, pos)
    {
      hide Walk, ReadName, LabelsAt;
      var text: Name := [];
      var at: nat := pos;
      var jumped := false;
      var delim: seq<u8> := [];
      ghost var bytes := Bytes();
      ghost var goal := ReadName(bytes, pos);
      ghost var fuel: nat := |bytes| + 1;
      WalkIsReadName(bytes, at);
      while true
        invariant Bytes() == bytes && (!jumped ==> pos == old(pos))
        invariant Walk(bytes, at, jumped, pos, text, fuel) == goal
        invariant delim == if text == [] then [] else [DOT]
        decreases fuel
      {
        ghost var start, cursor, said := at, pos, text;
        WalkStops(bytes, at, jumped, pos, text, fuel);
        var len := Get(at);
        if len.None? {
          return None;
        }
        if len.value >= 0xC0 {
          if !jumped {
            pos := at + 2;
          }
          var b2 := Get(at + 1);
          if b2.None? {
            return None;
          }
          var high: nat := len.value - 0xC0;
          at := high * 256 + b2.value;
          assert PieceAt(bytes, start) == Pointer(at);
          WalkJumps(bytes, start, jumped, cursor, text, fuel);
          jumped := true;
          fuel := fuel - 1;
          continue;
        }
        at := at + 1;
        if len.value == 0 {
          break;
        }
        text := text + delim;
        var part := GetRange(at, len.value);
        if part.None? {
          return None;
        }
        var lower := Lower(part.value);
        text := text + lower;
        delim := [DOT];
        at := at + len.value;
        assert PieceAt(bytes, start) == Part(lower, at);
        WalkOn(bytes, start, jumped, pos, said, fuel);
        fuel := fuel - 1;
        assert text == Dotted(said, lower);
      }
      if !jumped {
        pos := at;
      }
      return Some(text);
    }

    // ----- writing

    method WriteU8(val: u8) returns (ok: bool)
      requires Valid() && pos <= SIZE
      modifies this, buf
      ensures Writes(old(Bytes()), old(pos), Bytes(), pos, Some([val]), ok)
    {
      if pos >= SIZE {
        return false;
      }
      buf[pos] := val;
      pos := pos + 1;
      return true;
    }

    method WriteU16(val: u16) returns (ok: bool)
      requires Valid() && pos <= SIZE
      modifies this, buf
      ensures Writes(old(Bytes()), old(pos), Bytes(), pos, Some(Be16(val)), ok)
    {
      assert Be16(val) == [val / 256] + [val % 256];
      ok := WriteU8(val / 256);
      if ok {
        ghost var mid, p := Bytes(), pos;
        ok := WriteU8(val % 256);
        WritesThen(old(Bytes()), old(pos), mid, p, Some([val / 256]), Bytes(), pos, Some([val % 256]), ok);
      }
    }

    method WriteU32(val: u32) returns (ok: bool)
      requires Valid() && pos <= SIZE
      modifies this, buf
      ensures Writes(old(Bytes()), old(pos), Bytes(), pos, Some(Be32(val)), ok)
    {
      var hi, lo := val / 0x1_0000, val % 0x1_0000;
      assert Be32(val) == Be16(hi) + Be16(lo);
      ok := WriteU16(hi);
      if ok {
        ghost var mid, p := Bytes(), pos;
        ok := WriteU16(lo);
        WritesThen(old(Bytes()), old(pos), mid, p, Some(Be16(hi)), Bytes(), pos, Some(Be16(lo)), ok);
      }
    }

    /** The bytes of one label, or of an address. */
    method WriteBytes(bs: seq<u8>) returns (ok: bool)
      requires Valid() && pos <= SIZE
      modifies this, buf
      ensures Writes(old(Bytes()), old(pos), Bytes(), pos, Some(bs), ok)
    {
      for i := 0 to |bs|
        invariant Valid() && pos <= SIZE
        invariant Wrote(old(Bytes()), old(pos), Bytes(), pos, bs[..i])
      {
        assert bs[..i + 1] == bs[..i] + [bs[i]];
        ghost var mid, p := Bytes(), pos;
        ok := WriteU8(bs[i]);
        if !ok {
          return;
        }
        WritesThen(old(Bytes()), old(pos), mid, p, Some(bs[..i]), Bytes(), pos, Some([bs[i]]), ok);
      }
      assert bs[..|bs|] == bs;
      return true;
    }

    method WriteQName(name: Name) returns (ok: bool)
      requires Valid() && pos <= SIZE
      modifies this, buf
      ensures Writes(old(Bytes()), old(pos), Bytes(), pos, NameBytes(name), ok)
    {
      var labels := Split(name);
      assert labels[0..] == labels && labels[..0] == [];
      for i := 0 to |labels|
        invariant Valid() && pos <= SIZE
        invariant AreWritable(labels[..i])
        invariant Wrote(old(Bytes()), old(pos), Bytes(), pos, Prefixed(labels[..i]))
      {
        var text := labels[i];
        PrefixedSplit(labels, i);
        if |text| > LABEL_MAX {
          return false;
        }
        ghost var mid, p := Bytes(), pos;
        ok := WriteU8(|text|);
        if !ok {
          return;
        }
        ghost var mid2, p2 := Bytes(), pos;
        ok := WriteBytes(text);
        WritesThen(mid, p, mid2, p2, Some([|text|]), Bytes(), pos, Some(text), ok);
        if !ok {
          return;
        }
        WritesThen(old(Bytes()), old(pos), mid, p, Some(Prefixed(labels[..i])), Bytes(), pos,
                   Some([|text|] + text), ok);
      }
      assert labels[..|labels|] == labels;
      PrefixedEncodes(labels);
      ghost var mid, p := Bytes(), pos;
      ok := WriteU8(0);
      WritesThen(old(Bytes()), old(pos), mid, p, Some(Prefixed(labels)), Bytes(), pos, Some([0]), ok);
    }

    /** `set_u16`: two bytes in place, the cursor unmoved. */
    method SetU16(at: nat, val: u16)
      requires Valid() && at + 2 <= SIZE
      modifies buf
      ensures IsSet16(old(Bytes()), at, val, Bytes())
    {
      buf[at] := val / 256;
      buf[at + 1] := val % 256;
    }
  }
}
