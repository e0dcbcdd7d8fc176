/** Exactly which packets of known records survive being written and read. A part
    that is not canonical but comes back all the same can only hold an empty name;
    it leaves the cursor one byte short, and what follows cannot make up for it. */
module DnsWhole {
  import opened Bytes
  import opened Names
  import opened DnsNames
  import opened DnsBuffer
  import opened DnsSections
  import opened DnsPackets
  import opened DnsUnknown
  import opened DnsExact

  // ----- one byte early

  lemma LabelOfOne(buf: Packet512, pos: nat, fuel: nat)
    requires 0 < pos < SIZE && buf[pos - 1] == 1 && buf[pos] <= LABEL_MAX
    requires LabelsAt(buf, pos - 1, fuel).Labels?
    ensures fuel > 0 && LabelsAt(buf, pos + 1, fuel - 1).Labels?
    ensures LabelsAt(buf, pos - 1, fuel).labels == [[buf[pos]]] + LabelsAt(buf, pos + 1, fuel - 1).labels
  {
    assert buf[pos..pos + 1] == [buf[pos]];
    assert Lower([buf[pos]]) == [buf[pos]];
  }

  lemma MoreLabels(buf: Packet512, pos: nat, fuel: nat)
    requires pos < SIZE && 0 < buf[pos] <= LABEL_MAX && LabelsAt(buf, pos, fuel).Labels?
    ensures LabelsAt(buf, pos, fuel).labels != []
  {
  }

  predicate HasNoDot(labels: seq<Label>) {
    forall i | 0 <= i < |labels| :: DOT !in labels[i]
  }

  lemma JoinStarts(labels: seq<Label>)
    requires labels != [] && HasNoDot(labels)
    ensures labels[0] == [] ==> Join(labels) == [] || Join(labels)[0] == DOT
    ensures |labels[0]| > 0 ==> Join(labels) != [] && Join(labels)[0] == labels[0][0]
    ensures |labels[0]| > 1 ==> |Join(labels)| > 1 && Join(labels)[1] != DOT
  {
    if |labels[0]| > 1 {
      assert labels[0][1] in labels[0];
    }
    if |labels| > 1 && labels[0] == [] {
      assert Join(labels) == [] + [DOT] + Join(labels[1..]);
    }
  }

  /** If two joined lists are equal whose first labels are `[b]` and one that
      starts with its own length `b`, the second is `[1]` and the rests are equal. */
  lemma FirstIsOne(b: u8, rest: seq<Label>, labels: seq<Label>)
    requires labels != [] && HasNoDot(labels) && |labels[0]| == b
    requires Join([[b]] + rest) == Join(labels)
    ensures b != 0 && labels[0][0] == b
    ensures rest != [] ==> b == 1 && |labels| > 1 && Join(rest) == Join(labels[1..])
  {
    var t, j := Join([[b]] + rest), Join(labels);
    assert ([[b]] + rest)[1..] == rest;
    assert t[0] == b;
    JoinStarts(labels);
    if rest != [] {
      assert t == [b] + [DOT] + Join(rest) && t[1] == DOT;
      assert |labels| > 1;
      assert t[2..] == Join(rest) && j[2..] == Join(labels[1..]);
    }
  }

  /** Read from the byte 1 in front of it, a name never gives its own text. */
  lemma {:induction false} ShiftedLabels(buf: Packet512, pos: nat, labels: seq<Label>, fuel: nat)
    requires 0 < pos && labels != [] && AreWritable(labels) && HasNoDot(labels)
    requires At(buf, pos, EncodeLabels(labels)) && buf[pos - 1] == 1 && LabelsAt(buf, pos - 1, fuel).Labels?
    ensures Join(LabelsAt(buf, pos - 1, fuel).labels) != Join(labels)
    decreases fuel
  {
    hide LabelsAt, PieceAt, EncodeLabels, Join;
    EncodedParts(buf, pos, labels);
    var l: Label, b: nat := labels[0], |labels[0]|;
    assert buf[pos + 0] == [|l|][0];
    LabelOfOne(buf, pos, fuel);
    var rest := LabelsAt(buf, pos + 1, fuel - 1).labels;
    if Join([[b]] + rest) == Join(labels) {
      FirstIsOne(b, rest, labels);
      assert buf[pos + 1 + 0] == l[0];
      MoreLabels(buf, pos + 1, fuel - 1);
      ShiftedLabels(buf, pos + 2, labels[1..], fuel - 1);
    }
  }

  lemma ShiftedName(buf: Packet512, pos: nat, name: Name)
    requires 0 < pos && NameBytes(name).Some? && At(buf, pos, NameBytes(name).value) && buf[pos - 1] == 1
    requires ReadName(buf, pos - 1).Got?
    ensures ReadName(buf, pos - 1).value != name
  {
    JoinOfSplit(name);
    ShiftedLabels(buf, pos, Split(name), |buf| + 1);
  }

  lemma EarlyQuestion(buf: Packet512, pos: nat, q: Question)
    requires 0 < pos && QuestionBytes(q).Some? && At(buf, pos, QuestionBytes(q).value) && buf[pos - 1] == 1
    requires ReadQuestion(buf, pos - 1).Got?
    ensures ReadQuestion(buf, pos - 1).value != q
  {
    hide NameBytes, ReadName, At;
    AtThree(buf, pos, NameBytes(q.name).value, Be16(TypeNum(q.qtype)), Be16(1));
    FourBehindName(buf, pos - 1);
    ShiftedName(buf, pos, q.name);
  }

  lemma DomainIsRead(buf: Packet512, pos: nat)
    requires ReadRecord(buf, pos).Got?
    ensures ReadName(buf, pos).Got? && ReadRecord(buf, pos).value.domain == ReadName(buf, pos).value
  {
    hide ReadName, ReadIpv6, U16At, U32At;
  }

  lemma EmptyEarly(buf: Packet512, pos: nat)
    requires pos < SIZE && buf[pos] == 0
    ensures ReadName(buf, pos) == Got([], pos + 1)
  {
    assert LabelsAt(buf, pos, |buf| + 1) == Labels.Labels([]);
  }

  /** Behind a question the byte in front is 1, behind a host name it is 0. */
  lemma EarlyRecord(buf: Packet512, pos: nat, r: Record)
    requires 0 < pos && !r.UNKNOWN? && RecordBytes(r).Some? && At(buf, pos, RecordBytes(r).value)
    requires buf[pos - 1] <= 1 && ReadRecord(buf, pos - 1).Got?
    ensures ReadRecord(buf, pos - 1).value != r
  {
    hide ReadRecord, ReadName, RecordBytes, NameBytes, Be16, U16At;
    RecordParts(buf, pos, r);
    DomainIsRead(buf, pos - 1);
    if buf[pos - 1] == 1 {
      ShiftedName(buf, pos, r.domain);
    } else {
      EmptyEarly(buf, pos - 1);
      if r.domain == [] {
        EmptyName(buf, pos);
        ZeroType(buf, pos);
        TypeZeroIsUnknown(buf, pos - 1, pos, pos + 2);
      }
    }
  }

  lemma ZeroType(buf: Packet512, pos: nat)
    requires pos + 2 <= SIZE && buf[pos] == buf[pos + 1] == 0
    ensures U16At(buf, pos) == Got(0, pos + 2)
  {
  }

  // ----- one part that comes back

  lemma QuestionComesBack(buf: Packet512, pos: nat, q: Question, n: nat)
    requires QuestionBytes(q).Some? && At(buf, pos, QuestionBytes(q).value) && ReadQuestion(buf, pos) == Got(q, n)
    ensures var end := pos + |QuestionBytes(q).value|;
      (n == end && IsCanonicalQuestion(q)) || (n + 1 == end && buf[n] == 1)
  {
    hide NameBytes, ReadName, ReadQuestion, IsCanonicalName, At, Be16;
    var name := NameBytes(q.name).value;
    AtThree(buf, pos, name, Be16(TypeNum(q.qtype)), Be16(1));
    ClassIsOne(buf, pos + |name| + 2);
    NameValueIff(buf, pos, q.name);
    FourBehindName(buf, pos);
    if IsCanonicalName(q.name) {
      QuestionSurvivesByType(buf, pos, q);
    }
  }

  lemma ClassIsOne(buf: Packet512, p: nat)
    requires At(buf, p, Be16(1))
    ensures p + 2 <= SIZE && buf[p + 1] == 1
  {
  }

  lemma RecordComesBack(buf: Packet512, pos: nat, r: Record, n: nat)
    requires !r.UNKNOWN? && RecordBytes(r).Some? && At(buf, pos, RecordBytes(r).value) && ReadRecord(buf, pos) == Got(r, n)
    ensures var end := pos + |RecordBytes(r).value|;
      (n == end && IsCanonicalRecord(r)) || (n + 1 == end && buf[n] == 0)
  {
    hide ReadName, ReadRecord, ReadHead, ReadData, RecordBytes, NameBytes, DataBytes, At, IsCanonicalName;
    OwnerSurvives(buf, pos, r);
    if IsCanonicalRecord(r) {
      RecordRoundTrip(buf, pos, r);
    } else {
      HeadRoundTrip(buf, pos, r);
      DataIsRead(buf, pos, r, n);
      var p := ReadHead(buf, pos).next;
      HostParts(buf, p, r);
      HostIsRead(buf, ReadHead(buf, pos).value, p, r);
      NameValueIff(buf, p + HostOffset(r), r.host);
      EmptyName(buf, p + HostOffset(r));
    }
  }

  lemma DataIsRead(buf: Packet512, pos: nat, r: Record, n: nat)
    requires ReadRecord(buf, pos) == Got(r, n) && ReadHead(buf, pos).Got?
    ensures ReadData(buf, ReadHead(buf, pos).value, ReadHead(buf, pos).next) == Got(r, n)
  {
    hide ReadHead, ReadData;
  }

  // ----- lists

  lemma ReadAllFirst<T>(dec: nat -> Decoded<T>, pos: nat, xs: seq<T>, n: nat)
    requires xs != [] && ReadAll(dec, pos, |xs|) == Got(xs, n)
    ensures dec(pos).Got? && dec(pos).value == xs[0]
    ensures ReadAll(dec, dec(pos).next, |xs| - 1) == Got(xs[1..], n)
  {
    var rest := ReadAll(dec, dec(pos).next, |xs| - 1);
    assert xs == [xs[0]] + rest.value;
  }

  lemma {:induction false} ReadAllCount<T>(dec: nat -> Decoded<T>, pos: nat, n: nat)
    ensures ReadAll(dec, pos, n).Got? ==> |ReadAll(dec, pos, n).value| == n
    decreases n
  {
    if n > 0 && dec(pos).Got? {
      ReadAllCount(dec, dec(pos).next, n - 1);
    }
  }

  lemma AllBytesFirst<T>(buf: Packet512, pos: nat, enc: T -> Option<seq<u8>>, xs: seq<T>)
    requires xs != [] && AllBytes(enc, xs).Some? && At(buf, pos, AllBytes(enc, xs).value)
    ensures enc(xs[0]).Some? && AllBytes(enc, xs[1..]).Some?
    ensures var x, rest := enc(xs[0]).value, AllBytes(enc, xs[1..]).value;
      At(buf, pos, x) && At(buf, pos + |x|, rest) && |AllBytes(enc, xs).value| == |x| + |rest|
  {
    AtSplit(buf, pos, enc(xs[0]).value, AllBytes(enc, xs[1..]).value);
  }

  ghost predicate AreQuestions(qs: seq<Question>) {
    forall i | 0 <= i < |qs| :: IsCanonicalQuestion(qs[i])
  }

  ghost predicate AreRecords(rs: seq<Record>) {
    forall i | 0 <= i < |rs| :: IsCanonicalRecord(rs[i])
  }

  ghost predicate AreKnown(rs: seq<Record>) {
    forall i | 0 <= i < |rs| :: !rs[i].UNKNOWN?
  }

  /** Questions that come back are canonical, or the last one leaves the cursor a
      byte short. */
  lemma {:induction false} QuestionsComeBack(buf: Packet512, pos: nat, qs: seq<Question>, n: nat)
    requires QuestionsBytes(qs).Some? && At(buf, pos, QuestionsBytes(qs).value)
    requires ReadAll(QuestionAt(buf), pos, |qs|) == Got(qs, n)
    ensures var end := pos + |QuestionsBytes(qs).value|;
      (n == end && AreQuestions(qs)) || (n + 1 == end && buf[n] == 1)
    decreases |qs|
  {
    hide QuestionBytes, ReadQuestion, IsCanonicalQuestion, AllBytes, ReadAll;
    if qs == [] {
      NoParts(buf, QuestionBytes, QuestionAt(buf), pos);
    } else {
      var rest := qs[1..];
      AllBytesFirst(buf, pos, QuestionBytes, qs);
      ReadAllFirst(QuestionAt(buf), pos, qs, n);
      var next, at := pos + |QuestionBytes(qs[0]).value|, QuestionAt(buf)(pos).next;
      QuestionComesBack(buf, pos, qs[0], at);
      if at == next {
        QuestionsComeBack(buf, next, rest, n);
      } else if rest != [] {
        AllBytesFirst(buf, next, QuestionBytes, rest);
        ReadAllFirst(QuestionAt(buf), at, rest, n);
        EarlyQuestion(buf, next, rest[0]);
      } else {
        NoParts(buf, QuestionBytes, QuestionAt(buf), at);
      }
    }
  }

  lemma NoParts<T>(buf: Packet512, enc: T -> Option<seq<u8>>, dec: nat -> Decoded<T>, pos: nat)
    ensures AllBytes(enc, []) == Some([]) && ReadAll(dec, pos, 0) == Got([], pos)
  {
  }

  /** A section of known records, read from its start or from a byte early, comes
      back only if it is read from its start and canonical, or ends a byte early. */
  lemma {:induction false} RecordsComeBack(buf: Packet512, pos: nat, at: nat, rs: seq<Record>, n: nat)
    requires RecordsBytes(rs).Some? && At(buf, pos, RecordsBytes(rs).value) && AreKnown(rs)
    requires at == pos || (at + 1 == pos && buf[at] <= 1)
    requires ReadAll(RecordAt(buf), at, |rs|) == Got(rs, n)
    ensures var end := pos + |RecordsBytes(rs).value|;
      (at == pos && n == end && AreRecords(rs)) || (n + 1 == end && buf[n] <= 1)
    decreases |rs|
  {
    hide RecordBytes, ReadRecord, IsCanonicalRecord, AllBytes, ReadAll;
    if rs == [] {
      NoParts(buf, RecordBytes, RecordAt(buf), at);
    } else {
      AllBytesFirst(buf, pos, RecordBytes, rs);
      ReadAllFirst(RecordAt(buf), at, rs, n);
      if at == pos {
        RecordComesBack(buf, pos, rs[0], RecordAt(buf)(pos).next);
        RecordsComeBack(buf, pos + |RecordBytes(rs[0]).value|, RecordAt(buf)(pos).next, rs[1..], n);
      } else {
        EarlyRecord(buf, pos, rs[0]);
      }
    }
  }

  // ----- packets

  lemma KnownSections(p: Packet)
    requires !HasUnknown(p)
    ensures AreKnown(p.answers) && AreKnown(p.authorities) && AreKnown(p.resources)
  {
    var all := AllRecords(p);
    var a, b := |p.answers|, |p.authorities|;
    assert forall i | 0 <= i < a :: p.answers[i] == all[i];
    assert forall i | 0 <= i < b :: p.authorities[i] == all[a + i];
    assert forall i | 0 <= i < |p.resources| :: p.resources[i] == all[a + b + i];
  }

  /** The sections of a packet that was read, one behind the other. */
  lemma SectionsOf(buf: Packet512, pos: nat, p: Packet, end: nat) returns (p1: nat, p2: nat, p3: nat, p4: nat)
    requires ReadPacket(buf, pos) == Got(p, end)
    ensures ReadHeader(buf, pos) == Got(p.header, p1)
    ensures ReadAll(QuestionAt(buf), p1, |p.questions|) == Got(p.questions, p2)
    ensures ReadAll(RecordAt(buf), p2, |p.answers|) == Got(p.answers, p3)
    ensures ReadAll(RecordAt(buf), p3, |p.authorities|) == Got(p.authorities, p4)
    ensures ReadAll(RecordAt(buf), p4, |p.resources|) == Got(p.resources, end)
  {
    hide ReadHeader, ReadAll, QuestionAt, RecordAt;
    var h := p.header;
    p1 := ReadHeader(buf, pos).next;
    ReadAllCount(QuestionAt(buf), p1, h.questions);
    p2 := ReadAll(QuestionAt(buf), p1, h.questions).next;
    ReadAllCount(RecordAt(buf), p2, h.answers);
    p3 := ReadAll(RecordAt(buf), p2, h.answers).next;
    ReadAllCount(RecordAt(buf), p3, h.authoritativeEntries);
    p4 := ReadAll(RecordAt(buf), p3, h.authoritativeEntries).next;
    ReadAllCount(RecordAt(buf), p4, h.resourceEntries);
  }

  /** A packet of known records comes back as it was written, with the counts of
      its sections and the cursor at its end, if and only if it is canonical. */
  lemma KnownPacketRoundTripIff(buf: Packet512, pos: nat, p: Packet)
    requires !HasUnknown(p) && PacketBytes(p).Some? && At(buf, pos, PacketBytes(p).value)
    ensures ReadPacket(buf, pos) == Got(Counted(p), pos + |PacketBytes(p).value|) <==> IsCanonical(p)
  {
    hide At, HeaderBytes, QuestionsBytes, RecordsBytes, PacketBytes, ReadHeader, ReadAll, ReadPacket;
    hide QuestionAt, RecordAt, IsCanonicalQuestion, IsCanonicalRecord, HasUnknown, Truncate16;
    if IsCanonical(p) {
      PacketRoundTrip(buf, pos, p);
    } else if ReadPacket(buf, pos) == Got(Counted(p), pos + |PacketBytes(p).value|) {
      PacketParts(buf, pos, p);
      KnownSections(p);
      HeaderRoundTripIff(buf, pos, Counted(p).header);
      var q1 := pos + 12;
      var q2 := q1 + |QuestionsBytes(p.questions).value|;
      var q3 := q2 + |RecordsBytes(p.answers).value|;
      var q4 := q3 + |RecordsBytes(p.authorities).value|;
      var end := q4 + |RecordsBytes(p.resources).value|;
      var p1, p2, p3, p4 := SectionsOf(buf, pos, Counted(p), end);
      HeaderEnds(buf, pos, Counted(p).header);
      QuestionsComeBack(buf, q1, p.questions, p2);
      RecordsComeBack(buf, q2, p2, p.answers, p3);
      RecordsComeBack(buf, q3, p3, p.authorities, p4);
      RecordsComeBack(buf, q4, p4, p.resources, end);
    }
  }

  lemma HeaderEnds(buf: Packet512, pos: nat, h: Header)
    requires At(buf, pos, HeaderBytes(h))
    ensures ReadHeader(buf, pos).Got? && ReadHeader(buf, pos).next == pos + 12
  {
    hide At, HeaderBytes, ReadHeader;
    HeaderRoundTripIff(buf, pos, h);
  }
}
