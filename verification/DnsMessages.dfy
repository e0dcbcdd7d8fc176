/** Reading and writing messages in place, proved against the functions of
    `DnsPackets`: what is written is `PacketBytes`, what is read is `ReadPacket`. */
module DnsMessages {
  import opened Bytes
  import opened Names
  import opened DnsNames
  import opened DnsBuffer
  import opened DnsSections
  import opened DnsPackets

  // ----- writing, one thing after the other

  /** Since the buffer was `s` and the cursor `p`, `bs` has been written, if it could be. */
  ghost predicate SoFar(s: Packet512, p: nat, b: BytePacketBuffer, bs: Option<seq<u8>>, ok: bool)
    reads b, b.buf
  {
    b.Valid() && Writes(s, p, b.Bytes(), b.pos, bs, ok)
  }

  /** A write behind the `?` of those before it. */
  method ThenU16(b: BytePacketBuffer, ok0: bool, val: u16, ghost s: Packet512, ghost p: nat, ghost acc: Option<seq<u8>>)
    returns (ok: bool)
    requires SoFar(s, p, b, acc, ok0)
    modifies b, b.buf
    ensures SoFar(s, p, b, Cat(acc, Some(Be16(val))), ok)
    ensures ok ==> ok0 && b.pos == old(b.pos) + 2
  {
    if !ok0 { return false; }
    ghost var mid, m := b.Bytes(), b.pos;
    ok := b.WriteU16(val);
    WritesThen(s, p, mid, m, acc, b.Bytes(), b.pos, Some(Be16(val)), ok);
  }

  method ThenU32(b: BytePacketBuffer, ok0: bool, val: u32, ghost s: Packet512, ghost p: nat, ghost acc: Option<seq<u8>>)
    returns (ok: bool)
    requires SoFar(s, p, b, acc, ok0)
    modifies b, b.buf
    ensures SoFar(s, p, b, Cat(acc, Some(Be32(val))), ok)
  {
    if !ok0 { return false; }
    ghost var mid, m := b.Bytes(), b.pos;
    ok := b.WriteU32(val);
    WritesThen(s, p, mid, m, acc, b.Bytes(), b.pos, Some(Be32(val)), ok);
  }

  method ThenBytes(b: BytePacketBuffer, ok0: bool, bs: seq<u8>, ghost s: Packet512, ghost p: nat, ghost acc: Option<seq<u8>>)
    returns (ok: bool)
    requires SoFar(s, p, b, acc, ok0)
    modifies b, b.buf
    ensures SoFar(s, p, b, Cat(acc, Some(bs)), ok)
  {
    if !ok0 { return false; }
    ghost var mid, m := b.Bytes(), b.pos;
    ok := b.WriteBytes(bs);
    WritesThen(s, p, mid, m, acc, b.Bytes(), b.pos, Some(bs), ok);
  }

  method ThenQName(b: BytePacketBuffer, ok0: bool, name: Name, ghost s: Packet512, ghost p: nat, ghost acc: Option<seq<u8>>)
    returns (ok: bool)
    requires SoFar(s, p, b, acc, ok0)
    modifies b, b.buf
    ensures SoFar(s, p, b, Cat(acc, NameBytes(name)), ok)
    ensures ok ==> ok0 && NameBytes(name).Some? && b.pos == old(b.pos) + |NameBytes(name).value|
  {
    hide NameBytes;
    if !ok0 { return false; }
    ghost var mid, m := b.Bytes(), b.pos;
    ok := b.WriteQName(name);
    WritesThen(s, p, mid, m, acc, b.Bytes(), b.pos, NameBytes(name), ok);
  }

  method WriteHeader(b: BytePacketBuffer, h: Header) returns (ok: bool)
    requires b.Valid() && b.pos <= SIZE
    modifies b, b.buf
    ensures SoFar(old(b.Bytes()), old(b.pos), b, Some(HeaderBytes(h)), ok)
  {
    hide FlagsA, FlagsB, Be16, At;
    ghost var s, p, acc := b.Bytes(), b.pos, Some(Be16(h.id));
    ok := b.WriteU16(h.id);
    ok := ThenBytes(b, ok, [FlagsA(h)], s, p, acc);
    acc := Cat(acc, Some([FlagsA(h)]));
    ok := ThenBytes(b, ok, [FlagsB(h)], s, p, acc);
    acc := Cat(acc, Some([FlagsB(h)]));
    ok := ThenU16(b, ok, h.questions, s, p, acc);
    acc := Cat(acc, Some(Be16(h.questions)));
    ok := ThenU16(b, ok, h.answers, s, p, acc);
    acc := Cat(acc, Some(Be16(h.answers)));
    ok := ThenU16(b, ok, h.authoritativeEntries, s, p, acc);
    acc := Cat(acc, Some(Be16(h.authoritativeEntries)));
    ok := ThenU16(b, ok, h.resourceEntries, s, p, acc);
  }

  method WriteQuestion(b: BytePacketBuffer, q: Question) returns (ok: bool)
    requires b.Valid() && b.pos <= SIZE
    modifies b, b.buf
    ensures SoFar(old(b.Bytes()), old(b.pos), b, QuestionBytes(q), ok)
  {
    hide NameBytes, Be16, At;
    ghost var s, p, acc := b.Bytes(), b.pos, NameBytes(q.name);
    ok := b.WriteQName(q.name);
    ok := ThenU16(b, ok, TypeNum(q.qtype), s, p, acc);
    acc := Cat(acc, Some(Be16(TypeNum(q.qtype))));
    ok := ThenU16(b, ok, 1, s, p, acc);
  }

  /** Owner, type, class and time to live, the same in every kind of record. */
  method WriteHead(b: BytePacketBuffer, r: Record) returns (ok: bool)
    requires b.Valid() && b.pos <= SIZE
    modifies b, b.buf
    ensures SoFar(old(b.Bytes()), old(b.pos), b, HeadBytes(r), ok)
  {
    hide NameBytes, Be16, Be32, At;
    ghost var s, p, acc := b.Bytes(), b.pos, NameBytes(r.domain);
    ok := b.WriteQName(r.domain);
    ok := ThenU16(b, ok, RecordType(r), s, p, acc);
    acc := Cat(acc, Some(Be16(RecordType(r))));
    ok := ThenU16(b, ok, 1, s, p, acc);
    acc := Cat(acc, Some(Be16(1)));
    ok := ThenU32(b, ok, r.ttl, s, p, acc);
  }

  /** Two bytes that were written as a placeholder are set later. */
  lemma Patched(s: Packet512, p: nat, mid: Packet512, q: nat, a: seq<u8>, c: seq<u8>, at: nat, v: u16, after: Packet512)
    requires at == p + |a| && at + 2 <= SIZE && Wrote(s, p, mid, q, a + Be16(0) + c)
    requires IsSet16(mid, at, v, after)
    ensures Wrote(s, p, after, q, a + Be16(v) + c)
  {
    var before, now := a + Be16(0) + c, a + Be16(v) + c;
    forall i | 0 <= i < |now|
      ensures after[p + i] == now[i]
    {
      assert p + i != at && p + i != at + 1 ==> after[p + i] == mid[p + i] && now[i] == before[i];
    }
  }

  /** A preference, if there is one, and a host name, behind their length. */
  function HostBytes(priority: Option<u16>, host: Name): Option<seq<u8>> {
    if priority.Some? then Cat(Some(Be16(priority.value)), NameBytes(host)) else NameBytes(host)
  }

  lemma CatLast(a: Option<seq<u8>>, b: Option<seq<u8>>, c: Option<seq<u8>>)
    ensures Cat(Cat(a, b), c) == Cat(a, Cat(b, c))
  {
    if a.Some? && b.Some? && c.Some? {
      Assoc(a.value, b.value, c.value);
    }
  }

  /** A length is reserved, the data is written, and the length is set to the
      number of bytes by which the cursor has moved. */
  method ThenHost(b: BytePacketBuffer, ok0: bool, priority: Option<u16>, host: Name,
                  ghost s: Packet512, ghost p: nat, ghost acc: Option<seq<u8>>)
    returns (ok: bool)
    requires SoFar(s, p, b, acc, ok0)
    modifies b, b.buf
    ensures SoFar(s, p, b, Sized(acc, HostBytes(priority, host)), ok)
  {
    hide NameBytes, Be16, At;
    ghost var data, zero := HostBytes(priority, host), Some(Be16(0));
    var at := b.pos;
    ok := ThenU16(b, ok0, 0, s, p, acc);
    if priority.Some? {
      ok := ThenU16(b, ok, priority.value, s, p, Cat(acc, zero));
      ok := ThenQName(b, ok, host, s, p, Cat(Cat(acc, zero), Some(Be16(priority.value))));
      CatLast(Cat(acc, zero), Some(Be16(priority.value)), NameBytes(host));
    } else {
      ok := ThenQName(b, ok, host, s, p, Cat(acc, zero));
    }
    assert SoFar(s, p, b, Cat(Cat(acc, zero), data), ok);
    if ok {
      ghost var mid := b.Bytes();
      var size := b.pos - (at + 2);
      assert size == |data.value|;
      b.SetU16(at, Truncate16(size));
      Patched(s, p, mid, b.pos, acc.value, data.value, at, Truncate16(size), b.Bytes());
    }
  }

  lemma {:induction false} Be16sAppend(vs: seq<u16>, v: u16)
    ensures Be16s(vs + [v]) == Be16s(vs) + Be16(v)
  {
    if vs == [] {
      assert [] + [v] == [v] && [v][1..] == [];
    } else {
      Be16sAppend(vs[1..], v);
      assert (vs + [v])[1..] == vs[1..] + [v];
      Assoc(Be16(vs[0]), Be16s(vs[1..]), Be16(v));
    }
  }

  method ThenSegments(b: BytePacketBuffer, ok0: bool, addr: Ipv6, ghost s: Packet512, ghost p: nat, ghost acc: Option<seq<u8>>)
    returns (ok: bool)
    requires SoFar(s, p, b, acc, ok0)
    modifies b, b.buf
    ensures SoFar(s, p, b, Cat(acc, Some(Be16s(addr))), ok)
  {
    hide Be16, At;
    ok := ok0;
    assert addr[..0] == [] && addr[..8] == addr;
    assert acc.Some? ==> acc.value + [] == acc.value;
    for i := 0 to 8
      invariant SoFar(s, p, b, Cat(acc, Some(Be16s(addr[..i]))), ok)
    {
      Be16sAppend(addr[..i], addr[i]);
      assert addr[..i + 1] == addr[..i] + [addr[i]];
      CatLast(acc, Some(Be16s(addr[..i])), Some(Be16(addr[i])));
      ok := ThenU16(b, ok, addr[i], s, p, Cat(acc, Some(Be16s(addr[..i]))));
    }
  }

  lemma NothingWritten(s: Packet512, p: nat)
    requires p <= SIZE
    ensures Writes(s, p, s, p, Some([]), true)
  {
  }

  /** What is written is what `RecordBytes` says, behind it RDLENGTH is right, and
      the size is the way the cursor has come. */
  method WriteRecord(b: BytePacketBuffer, r: Record) returns (ok: bool, size: nat)
    requires b.Valid() && b.pos <= SIZE
    modifies b, b.buf
    ensures SoFar(old(b.Bytes()), old(b.pos), b, RecordBytes(r), ok)
    ensures ok ==> size == |RecordBytes(r).value| && b.pos == old(b.pos) + size
  {
    hide NameBytes, HeadBytes, Be16, Be16s, At;
    var start := b.pos;
    size := 0;
    ghost var s, p, head := b.Bytes(), b.pos, HeadBytes(r);
    if r.UNKNOWN? {
      NothingWritten(s, p);
      return true, 0;
    }
    ok := WriteHead(b, r);
    match r {
      case A(_, addr, _) =>
        ok := ThenU16(b, ok, 4, s, p, head);
        ok := ThenBytes(b, ok, addr, s, p, Cat(head, Some(Be16(4))));
      case NS(_, host, _) =>
        ok := ThenHost(b, ok, None, host, s, p, head);
      case CNAME(_, host, _) =>
        ok := ThenHost(b, ok, None, host, s, p, head);
      case MX(_, priority, host, _) =>
        ok := ThenHost(b, ok, Some(priority), host, s, p, head);
      case AAAA(_, addr, _) =>
        ok := ThenU16(b, ok, 16, s, p, head);
        ok := ThenSegments(b, ok, addr, s, p, Cat(head, Some(Be16(16))));
    }
    if ok {
      size := b.pos - start;
    }
  }

  lemma AllBytesNext<T>(enc: T -> Option<seq<u8>>, xs: seq<T>, i: nat)
    requires i < |xs|
    ensures AllBytes(enc, xs[..i + 1]) == Cat(AllBytes(enc, xs[..i]), enc(xs[i]))
  {
    assert xs[..i + 1] == xs[..i] + [xs[i]];
    AllBytesSplit(enc, xs[..i], [xs[i]]);
    var last := enc(xs[i]);
    assert [xs[i]][1..] == [];
    assert last.Some? ==> last.value + [] == last.value;
  }

  method ThenQuestions(b: BytePacketBuffer, ok0: bool, qs: seq<Question>, ghost s: Packet512, ghost p: nat, ghost acc: Option<seq<u8>>)
    returns (ok: bool)
    requires SoFar(s, p, b, acc, ok0)
    modifies b, b.buf
    ensures SoFar(s, p, b, Cat(acc, QuestionsBytes(qs)), ok)
  {
    hide QuestionBytes, At;
    ok := ok0;
    assert qs[..0] == [] && qs[..|qs|] == qs;
    assert acc.Some? ==> acc.value + [] == acc.value;
    for i := 0 to |qs|
      invariant SoFar(s, p, b, Cat(acc, QuestionsBytes(qs[..i])), ok)
    {
      AllBytesNext(QuestionBytes, qs, i);
      CatLast(acc, QuestionsBytes(qs[..i]), QuestionBytes(qs[i]));
      if ok {
        ghost var mid, m := b.Bytes(), b.pos;
        ok := WriteQuestion(b, qs[i]);
        WritesThen(s, p, mid, m, Cat(acc, QuestionsBytes(qs[..i])), b.Bytes(), b.pos, QuestionBytes(qs[i]), ok);
      }
    }
  }

  method ThenRecords(b: BytePacketBuffer, ok0: bool, rs: seq<Record>, ghost s: Packet512, ghost p: nat, ghost acc: Option<seq<u8>>)
    returns (ok: bool)
    requires SoFar(s, p, b, acc, ok0)
    modifies b, b.buf
    ensures SoFar(s, p, b, Cat(acc, RecordsBytes(rs)), ok)
  {
    hide RecordBytes, At;
    ok := ok0;
    assert rs[..0] == [] && rs[..|rs|] == rs;
    assert acc.Some? ==> acc.value + [] == acc.value;
    for i := 0 to |rs|
      invariant SoFar(s, p, b, Cat(acc, RecordsBytes(rs[..i])), ok)
    {
      AllBytesNext(RecordBytes, rs, i);
      CatLast(acc, RecordsBytes(rs[..i]), RecordBytes(rs[i]));
      if ok {
        ghost var mid, m := b.Bytes(), b.pos;
        var size;
        ok, size := WriteRecord(b, rs[i]);
        WritesThen(s, p, mid, m, Cat(acc, RecordsBytes(rs[..i])), b.Bytes(), b.pos, RecordBytes(rs[i]), ok);
      }
    }
  }

  /** `DnsPacket::write`: the counts are set, and the packet is written behind the cursor. */
  method WritePacket(b: BytePacketBuffer, packet: Packet) returns (ok: bool, counted: Packet)
    requires b.Valid() && b.pos <= SIZE
    modifies b, b.buf
    ensures counted == Counted(packet)
    ensures SoFar(old(b.Bytes()), old(b.pos), b, PacketBytes(packet), ok)
  {
    hide HeaderBytes, QuestionsBytes, RecordsBytes, At;
    counted := Counted(packet);
    ghost var s, p, acc := b.Bytes(), b.pos, Some(HeaderBytes(counted.header));
    ok := WriteHeader(b, counted.header);
    ok := ThenQuestions(b, ok, packet.questions, s, p, acc);
    acc := Cat(acc, QuestionsBytes(packet.questions));
    ok := ThenRecords(b, ok, packet.answers, s, p, acc);
    acc := Cat(acc, RecordsBytes(packet.answers));
    ok := ThenRecords(b, ok, packet.authorities, s, p, acc);
    acc := Cat(acc, RecordsBytes(packet.authorities));
    ok := ThenRecords(b, ok, packet.resources, s, p, acc);
  }

  // ----- reading

  method ReadHeaderFrom(b: BytePacketBuffer) returns (r: Option<Header>)
    requires b.Valid()
    modifies b
    ensures Answers(ReadHeader(b.Bytes(), old(b.pos)), r, b.pos)
  {
    var id := b.ReadU16();
    if id.None? { return None; }
    var flags := b.ReadU16();
    if flags.None? { return None; }
    var qd := b.ReadU16();
    if qd.None? { return None; }
    var an := b.ReadU16();
    if an.None? { return None; }
    var ns := b.ReadU16();
    if ns.None? { return None; }
    var ar := b.ReadU16();
    if ar.None? { return None; }
    return Some(HeaderFrom(id.value, flags.value / 256, flags.value % 256, qd.value, an.value, ns.value, ar.value));
  }

  method ReadQuestionFrom(b: BytePacketBuffer) returns (r: Option<Question>)
    requires b.Valid() && ReadQuestion(b.Bytes(), b.pos) != Diverges
    modifies b
    ensures Answers(ReadQuestion(b.Bytes(), old(b.pos)), r, b.pos)
  {
    hide ReadName;
    var name := b.ReadQName();
    if name.None? { return None; }
    var num := b.ReadU16();
    if num.None? { return None; }
    var class1 := b.ReadU16();
    if class1.None? { return None; }
    return Some(Question(name.value, TypeFrom(num.value)));
  }

  method ReadHeadFrom(b: BytePacketBuffer) returns (r: Option<Head>)
    requires b.Valid() && ReadHead(b.Bytes(), b.pos) != Diverges
    modifies b
    ensures Answers(ReadHead(b.Bytes(), old(b.pos)), r, b.pos)
  {
    hide ReadName;
    var domain := b.ReadQName();
    if domain.None? { return None; }
    var num := b.ReadU16();
    if num.None? { return None; }
    var class1 := b.ReadU16();
    if class1.None? { return None; }
    var ttl := b.ReadU32();
    if ttl.None? { return None; }
    var len := b.ReadU16();
    if len.None? { return None; }
    return Some(Head(domain.value, num.value, ttl.value, len.value));
  }

  method ReadIpv6From(b: BytePacketBuffer) returns (r: Option<Ipv6>)
    requires b.Valid()
    modifies b
    ensures Answers(ReadIpv6(b.Bytes(), old(b.pos)), r, b.pos)
  {
    var a1 := b.ReadU32();
    if a1.None? { return None; }
    var a2 := b.ReadU32();
    if a2.None? { return None; }
    var a3 := b.ReadU32();
    if a3.None? { return None; }
    var a4 := b.ReadU32();
    if a4.None? { return None; }
    return Some([a1.value / 0x1_0000, a1.value % 0x1_0000, a2.value / 0x1_0000, a2.value % 0x1_0000,
                 a3.value / 0x1_0000, a3.value % 0x1_0000, a4.value / 0x1_0000, a4.value % 0x1_0000]);
  }

  method ReadDataFrom(b: BytePacketBuffer, h: Head) returns (r: Option<Record>)
    requires b.Valid() && ReadData(b.Bytes(), h, b.pos) != Diverges
    modifies b
    ensures Answers(ReadData(b.Bytes(), h, old(b.pos)), r, b.pos)
  {
    hide ReadName, ReadIpv6, U16At, U32At, Be32;
    match TypeFrom(h.num) {
      case TypeA =>
        var raw := b.ReadU32();
        return if raw.None? then None else Some(A(h.domain, Be32(raw.value), h.ttl));
      case TypeAAAA =>
        var addr := ReadIpv6From(b);
        return if addr.None? then None else Some(AAAA(h.domain, addr.value, h.ttl));
      case TypeNS =>
        var host := b.ReadQName();
        return if host.None? then None else Some(NS(h.domain, host.value, h.ttl));
      case TypeCNAME =>
        var host := b.ReadQName();
        return if host.None? then None else Some(CNAME(h.domain, host.value, h.ttl));
      case TypeMX =>
        var priority := b.ReadU16();
        if priority.None? { return None; }
        var host := b.ReadQName();
        return if host.None? then None else Some(MX(h.domain, priority.value, host.value, h.ttl));
      case UnknownType(_) =>
        b.Step(h.dataLen);
        return Some(UNKNOWN(h.domain, h.num, h.dataLen, h.ttl));
    }
  }

  method ReadRecordFrom(b: BytePacketBuffer) returns (r: Option<Record>)
    requires b.Valid() && ReadRecord(b.Bytes(), b.pos) != Diverges
    modifies b
    ensures Answers(ReadRecord(b.Bytes(), old(b.pos)), r, b.pos)
  {
    hide ReadHead, ReadData;
    var h := ReadHeadFrom(b);
    if h.None? { return None; }
    r := ReadDataFrom(b, h.value);
  }

  /** What reading the rest makes of the whole, some being done. */
  function Onto<T>(done: seq<T>, rest: Decoded<seq<T>>): Decoded<seq<T>> {
    if rest.Got? then Got(done + rest.value, rest.next) else rest
  }

  lemma ReadAllNext<T>(dec: nat -> Decoded<T>, pos: nat, n: nat, done: seq<T>)
    requires n > 0
    ensures dec(pos).Got? ==>
      Onto(done, ReadAll(dec, pos, n)) == Onto(done + [dec(pos).value], ReadAll(dec, dec(pos).next, n - 1))
    ensures dec(pos).Failed? ==> Onto(done, ReadAll(dec, pos, n)) == Failed
    ensures dec(pos).Diverges? ==> Onto(done, ReadAll(dec, pos, n)) == Diverges
  {
    if dec(pos).Got? {
      var rest := ReadAll(dec, dec(pos).next, n - 1);
      if rest.Got? {
        Assoc(done, [dec(pos).value], rest.value);
      }
    }
  }

  method ReadQuestionsFrom(b: BytePacketBuffer, n: u16) returns (r: Option<seq<Question>>)
    requires b.Valid() && ReadAll(QuestionAt(b.Bytes()), b.pos, n) != Diverges
    modifies b
    ensures Answers(ReadAll(QuestionAt(b.Bytes()), old(b.pos), n), r, b.pos)
  {
    hide ReadQuestion;
    ghost var bytes := b.Bytes();
    ghost var dec := QuestionAt(bytes);
    ghost var goal := ReadAll(dec, b.pos, n);
    var done: seq<Question> := [];
    assert goal.Got? ==> [] + goal.value == goal.value;
    for i := 0 to n
      invariant b.Bytes() == bytes && Onto(done, ReadAll(dec, b.pos, n - i)) == goal
    {
      ReadAllNext(dec, b.pos, n - i, done);
      var question := ReadQuestionFrom(b);
      if question.None? { return None; }
      done := done + [question.value];
    }
    assert done + [] == done;
    return Some(done);
  }

  method ReadRecordsFrom(b: BytePacketBuffer, n: u16) returns (r: Option<seq<Record>>)
    requires b.Valid() && ReadAll(RecordAt(b.Bytes()), b.pos, n) != Diverges
    modifies b
    ensures Answers(ReadAll(RecordAt(b.Bytes()), old(b.pos), n), r, b.pos)
  {
    hide ReadRecord;
    ghost var bytes := b.Bytes();
    ghost var dec := RecordAt(bytes);
    ghost var goal := ReadAll(dec, b.pos, n);
    var done: seq<Record> := [];
    assert goal.Got? ==> [] + goal.value == goal.value;
    for i := 0 to n
      invariant b.Bytes() == bytes && Onto(done, ReadAll(dec, b.pos, n - i)) == goal
    {
      ReadAllNext(dec, b.pos, n - i, done);
      var rec := ReadRecordFrom(b);
      if rec.None? { return None; }
      done := done + [rec.value];
    }
    assert done + [] == done;
    return Some(done);
  }

  /** `DnsPacket::from_buffer`. It is entered only where every name in the packet
      comes to an end, see `DnsEnds.PacketEndsIff`. */
  method FromBuffer(b: BytePacketBuffer) returns (r: Option<Packet>)
    requires b.Valid() && ReadPacket(b.Bytes(), b.pos) != Diverges
    modifies b
    ensures Answers(ReadPacket(b.Bytes(), old(b.pos)), r, b.pos)
  {
    hide ReadHeader, ReadAll, QuestionAt, RecordAt;
    var h := ReadHeaderFrom(b);
    if h.None? { return None; }
    var questions := ReadQuestionsFrom(b, h.value.questions);
    if questions.None? { return None; }
    var answers := ReadRecordsFrom(b, h.value.answers);
    if answers.None? { return None; }
    var authorities := ReadRecordsFrom(b, h.value.authoritativeEntries);
    if authorities.None? { return None; }
    var resources := ReadRecordsFrom(b, h.value.resourceEntries);
    if resources.None? { return None; }
    return Some(Packet(h.value, questions.value, answers.value, authorities.value, resources.value));
  }

  /** Writing a canonical packet and reading it from where it was put gives it
      back, and leaves the cursor where writing left it. */
  method WriteThenRead(b: BytePacketBuffer, packet: Packet) returns (ok: bool, back: Option<Packet>)
    requires b.Valid() && b.pos <= SIZE && IsCanonical(packet)
    modifies b, b.buf
    ensures ok <==> PacketBytes(packet).Some? && old(b.pos) + |PacketBytes(packet).value| <= SIZE
    ensures ok ==> back == Some(Counted(packet)) && b.pos == old(b.pos) + |PacketBytes(packet).value|
  {
    hide PacketBytes, ReadPacket, At, IsCanonical, Counted;
    var start := b.pos;
    var counted;
    ok, counted := WritePacket(b, packet);
    if !ok { return false, None; }
    PacketRoundTrip(b.Bytes(), start, packet);
    b.pos := start;
    back := FromBuffer(b);
  }
}
