/** Unknown records are counted in the header but leave no bytes, so exactly the
    packets without them are read back as they were written. */
module DnsUnknown {
  import opened Bytes
  import opened DnsNames
  import opened DnsBuffer
  import opened DnsSections
  import opened DnsPackets

  /** The records that leave bytes. */
  function Known(rs: seq<Record>): (r: seq<Record>)
    ensures |r| <= |rs| && (|r| == |rs| <==> forall i | 0 <= i < |rs| :: !rs[i].UNKNOWN?)
  {
    if rs == [] then []
    else if rs[0].UNKNOWN? then Known(rs[1..])
    else [rs[0]] + Known(rs[1..])
  }

  ghost predicate KnownAreCanonical(rs: seq<Record>) {
    forall i | 0 <= i < |rs| :: !rs[i].UNKNOWN? ==> IsCanonicalRecord(rs[i])
  }

  lemma {:induction false} KnownLeavesTheSame(rs: seq<Record>)
    requires KnownAreCanonical(rs)
    ensures RecordsBytes(Known(rs)) == RecordsBytes(rs)
    ensures forall i | 0 <= i < |Known(rs)| :: IsCanonicalRecord(Known(rs)[i])
  {
    if rs != [] {
      KnownLeavesTheSame(rs[1..]);
      if rs[0].UNKNOWN? && RecordsBytes(rs[1..]).Some? {
        assert [] + RecordsBytes(rs[1..]).value == RecordsBytes(rs[1..]).value;
      }
      if !rs[0].UNKNOWN? {
        assert Known(rs)[1..] == Known(rs[1..]);
      }
    }
  }

  // ----- every record read moves the cursor on

  lemma {:induction false} BehindAdvances(buf: Packet512, pos: nat)
    ensures Behind(buf, pos) >= pos
    decreases SIZE - pos
  {
    var p := PieceAt(buf, pos);
    if p.Part? {
      BehindAdvances(buf, p.next);
    }
  }

  lemma NameAdvances(buf: Packet512, pos: nat)
    ensures ReadName(buf, pos).Got? ==> ReadName(buf, pos).next >= pos
  {
    BehindAdvances(buf, pos);
  }

  lemma HeadAdvances(buf: Packet512, pos: nat)
    requires ReadHead(buf, pos).Got?
    ensures ReadHead(buf, pos).next >= pos + 10
  {
    NameAdvances(buf, pos);
  }

  lemma Ipv6Advances(buf: Packet512, pos: nat)
    ensures ReadIpv6(buf, pos).Got? ==> ReadIpv6(buf, pos).next == pos + 16
  {
  }

  lemma DataAdvances(buf: Packet512, h: Head, pos: nat)
    requires ReadData(buf, h, pos).Got?
    ensures ReadData(buf, h, pos).next >= pos
  {
    match TypeFrom(h.num)
    case TypeNS => NameAdvances(buf, pos);
    case TypeCNAME => NameAdvances(buf, pos);
    case TypeMX => NameAdvances(buf, pos + 2);
    case TypeA =>
    case TypeAAAA => Ipv6Advances(buf, pos);
    case UnknownType(_) =>
  }

  lemma RecordsAdvance(buf: Packet512)
    ensures Advances(RecordAt(buf))
  {
    forall p: nat | RecordAt(buf)(p).Got?
      ensures RecordAt(buf)(p).next > p
    {
      HeadAdvances(buf, p);
      DataAdvances(buf, ReadHead(buf, p).value, ReadHead(buf, p).next);
    }
  }

  lemma KnownEndsAt(buf: Packet512, pos: nat, rs: seq<Record>)
    requires KnownAreCanonical(rs) && RecordsBytes(rs).Some? && At(buf, pos, RecordsBytes(rs).value)
    ensures EndsAt(RecordAt(buf), pos, |Known(rs)|, pos + |RecordsBytes(rs).value|)
  {
    hide *;
    KnownLeavesTheSame(rs);
    RecordsRoundTrip(buf, pos, Known(rs));
    ReadingEnds(RecordAt(buf), pos, |Known(rs)|, Known(rs), pos + |RecordsBytes(rs).value|);
  }

  // ----- packets

  function AllRecords(p: Packet): seq<Record> {
    p.answers + p.authorities + p.resources
  }

  lemma AllRecordsBytes(buf: Packet512, pos: nat, p: Packet)
    requires PacketBytes(p).Some? && At(buf, pos, PacketBytes(p).value)
    ensures QuestionsBytes(p.questions).Some? && RecordsBytes(AllRecords(p)).Some?
    ensures var qs, all := QuestionsBytes(p.questions).value, RecordsBytes(AllRecords(p)).value;
      && At(buf, pos, HeaderBytes(Counted(p).header))
      && At(buf, pos + 12, qs) && At(buf, pos + 12 + |qs|, all) && |PacketBytes(p).value| == 12 + |qs| + |all|
  {
    PacketParts(buf, pos, p);
    AllBytesSplit(RecordBytes, p.answers + p.authorities, p.resources);
    AllBytesSplit(RecordBytes, p.answers, p.authorities);
    var qs, an, ns, ar := QuestionsBytes(p.questions).value, RecordsBytes(p.answers).value,
      RecordsBytes(p.authorities).value, RecordsBytes(p.resources).value;
    var p2 := pos + 12 + |qs|;
    AtSplit(buf, p2, an, ns);
    AtSplit(buf, p2, an + ns, ar);
  }

  ghost predicate HasUnknown(p: Packet) {
    exists i :: 0 <= i < |AllRecords(p)| && AllRecords(p)[i].UNKNOWN?
  }

  /** A packet that is canonical but for unknown records. */
  ghost predicate IsOtherwiseCanonical(p: Packet) {
    && p.header.opcode < 16
    && (forall i | 0 <= i < |p.questions| :: IsCanonicalQuestion(p.questions[i]))
    && KnownAreCanonical(AllRecords(p))
  }

  lemma WithoutUnknown(p: Packet)
    requires IsOtherwiseCanonical(p)
    ensures IsCanonical(p) <==> !HasUnknown(p)
  {
    var all := AllRecords(p);
    var a, b := |p.answers|, |p.authorities|;
    assert forall i | 0 <= i < a :: p.answers[i] == all[i];
    assert forall i | 0 <= i < b :: p.authorities[i] == all[a + i];
    assert forall i | 0 <= i < |p.resources| :: p.resources[i] == all[a + b + i];
  }

  /** The sections of a packet that was read, and where they ended. */
  lemma SectionEnds(buf: Packet512, pos: nat, p: Packet, end: nat, p1: nat, p2: nat)
    requires ReadPacket(buf, pos) == Got(p, end) && ReadHeader(buf, pos) == Got(p.header, p1)
    requires NextOf(ReadAll(QuestionAt(buf), p1, p.header.questions)) == Some(p2)
    ensures exists p3, p4 ::
      EndsAt(RecordAt(buf), p2, p.header.answers, p3) && EndsAt(RecordAt(buf), p3, p.header.authoritativeEntries, p4)
      && EndsAt(RecordAt(buf), p4, p.header.resourceEntries, end)
    ensures |p.answers| == p.header.answers && |p.authorities| == p.header.authoritativeEntries
    ensures |p.resources| == p.header.resourceEntries
  {
    var f, h := RecordAt(buf), p.header;
    RecordsAdvance(buf);
    var p3 := ReadAll(f, p2, h.answers).next;
    var p4 := ReadAll(f, p3, h.authoritativeEntries).next;
    ReadAllAdvances(f, p2, h.answers);
    ReadAllAdvances(f, p3, h.authoritativeEntries);
    ReadAllAdvances(f, p4, h.resourceEntries);
    assert EndsAt(RecordAt(buf), p2, h.answers, p3) && EndsAt(RecordAt(buf), p3, h.authoritativeEntries, p4);
  }

  lemma FrontRoundTrip(buf: Packet512, pos: nat, p: Packet)
    requires IsOtherwiseCanonical(p) && PacketBytes(p).Some? && At(buf, pos, PacketBytes(p).value)
    ensures QuestionsBytes(p.questions).Some?
    ensures ReadHeader(buf, pos) == Got(Counted(p).header, pos + 12)
    ensures NextOf(ReadAll(QuestionAt(buf), pos + 12, Counted(p).header.questions)) ==
            Some(pos + 12 + |QuestionsBytes(p.questions).value|)
  {
    hide ReadAll, QuestionAt, ReadHeader, HeaderBytes, AllBytes, At;
    AllRecordsBytes(buf, pos, p);
    HeaderRoundTripIff(buf, pos, Counted(p).header);
    QuestionsRoundTrip(buf, pos + 12, p.questions);
    SmallCount(|p.questions|);
  }

  lemma UnknownIsLost(buf: Packet512, pos: nat, p: Packet)
    requires IsOtherwiseCanonical(p) && PacketBytes(p).Some? && At(buf, pos, PacketBytes(p).value)
    requires ReadPacket(buf, pos) == Got(Counted(p), pos + |PacketBytes(p).value|)
    ensures !HasUnknown(p)
  {
    hide ReadAll, RecordAt, QuestionAt, ReadHeader, ReadPacket, EndsAt, Advances, NextOf, At, KnownAreCanonical;
    hide AllBytes, RecordsBytes, QuestionsBytes, PacketBytes, HeaderBytes, Known;
    FrontRoundTrip(buf, pos, p);
    AllRecordsBytes(buf, pos, p);
    var all, h := AllRecords(p), Counted(p).header;
    var p2, end := pos + 12 + |QuestionsBytes(p.questions).value|, pos + |PacketBytes(p).value|;
    SectionEnds(buf, pos, Counted(p), end, pos + 12, p2);
    var p3, p4 :| EndsAt(RecordAt(buf), p2, h.answers, p3) && EndsAt(RecordAt(buf), p3, h.authoritativeEntries, p4)
                  && EndsAt(RecordAt(buf), p4, h.resourceEntries, end);
    KnownEndsAt(buf, p2, all);
    RecordsAdvance(buf);
    ThreeListsEnd(RecordAt(buf), p2, h.answers, p3, h.authoritativeEntries, p4, h.resourceEntries, end, |Known(all)|);
  }

  /** Among the packets that are canonical otherwise, exactly those without
      unknown records are read back as they were written. */
  lemma PacketRoundTripIff(buf: Packet512, pos: nat, p: Packet)
    requires IsOtherwiseCanonical(p) && PacketBytes(p).Some? && At(buf, pos, PacketBytes(p).value)
    ensures ReadPacket(buf, pos) == Got(Counted(p), pos + |PacketBytes(p).value|) <==> !HasUnknown(p)
  {
    WithoutUnknown(p);
    if !HasUnknown(p) {
      PacketRoundTrip(buf, pos, p);
    } else if ReadPacket(buf, pos) == Got(Counted(p), pos + |PacketBytes(p).value|) {
      UnknownIsLost(buf, pos, p);
    }
  }
}
