/** Exactly which questions and records survive being written and read: a name
    with an empty label or an upper-case letter never comes back as it was, and
    the one whose text does leaves the cursor in the wrong place. */
module DnsExact {
  import opened Bytes
  import opened Names
  import opened DnsNames
  import opened DnsBuffer
  import opened DnsPackets
  import opened DnsUnknown

  // ----- names

  /** The labels in front of the first empty one. */
  function Front(labels: seq<Label>): seq<Label> {
    if labels == [] || labels[0] == [] then [] else [labels[0]] + Front(labels[1..])
  }

  lemma {:induction false} ReadsFront(buf: Packet512, pos: nat, labels: seq<Label>, fuel: nat)
    requires AreWritable(labels) && At(buf, pos, EncodeLabels(labels)) && fuel > |labels|
    ensures LabelsAt(buf, pos, fuel) == Labels.Labels(LowerAll(Front(labels)))
    decreases |labels|
  {
    hide LabelsAt, PieceAt, Behind, At, Lower, LowerAll, EncodeLabels;
    NothingEncoded();
    if labels == [] {
      EmptyLabels(buf, pos, fuel);
    } else {
      EncodedParts(buf, pos, labels);
      if labels[0] == [] {
        EmptyLabels(buf, pos, fuel);
      } else {
        FirstPiece(buf, pos, labels);
        var next := pos + 1 + |labels[0]|;
        ReadsFront(buf, next, labels[1..], fuel - 1);
        PartTurn(buf, pos, fuel, Lower(labels[0]), next);
        HasEmptyStep(Front(labels));
      }
    }
  }

  /** What is lost behind an empty label makes the text shorter, except for the
      name that is nothing but that label. */
  lemma {:induction false} FrontIsShorter(labels: seq<Label>)
    requires HasEmpty(labels) && labels != [[]]
    ensures |Join(Front(labels))| < |Join(labels)|
  {
    if labels[0] != [] {
      var rest := labels[1..];
      HasEmptyStep(labels);
      if rest == [[]] {
        assert Front(labels) == [labels[0]];
      } else {
        FrontIsShorter(rest);
        assert Front(labels)[1..] == Front(rest);
      }
    } else {
      assert |labels| > 1;
    }
  }

  /** The text that comes back is the name exactly for canonical names and for
      the empty name, and the empty name leaves the cursor one byte short. */
  lemma NameValueIff(buf: Packet512, pos: nat, name: Name)
    requires NameBytes(name).Some? && At(buf, pos, NameBytes(name).value)
    ensures ReadName(buf, pos).Got?
    ensures ReadName(buf, pos).value == name <==> IsCanonicalName(name) || name == []
    ensures name == [] ==> ReadName(buf, pos).next == pos + 1 && NameBytes(name).value == [0, 0]
  {
    var labels := Split(name);
    JoinOfSplit(name);
    ReadsFront(buf, pos, labels, |buf| + 1);
    JoinOfLower(Front(labels));
    if !HasEmpty(labels) {
      FrontIsAll(labels);
    } else if labels != [[]] {
      FrontIsShorter(labels);
    }
    if name == [] {
      EmptyName(buf, pos);
    }
  }

  lemma {:induction false} FrontIsAll(labels: seq<Label>)
    requires !HasEmpty(labels)
    ensures Front(labels) == labels
  {
    if labels != [] {
      assert labels[0] in labels;
      FrontIsAll(labels[1..]);
      assert labels == [labels[0]] + labels[1..];
    }
  }

  lemma EmptyName(buf: Packet512, pos: nat)
    requires NameBytes([]).Some? && At(buf, pos, NameBytes([]).value)
    ensures NameBytes([]).value == [0, 0] && buf[pos] == buf[pos + 1] == 0 && Behind(buf, pos) == pos + 1
  {
    assert Split([]) == [[]] && Split([])[1..] == [];
    var bs := NameBytes([]).value;
    assert bs == [0] + [] + [0];
    assert buf[pos + 0] == bs[0] && buf[pos + 1] == bs[1];
  }

  // ----- questions

  /** Exactly the canonical questions survive. */
  lemma QuestionRoundTripIff(buf: Packet512, pos: nat, q: Question)
    requires QuestionBytes(q).Some? && At(buf, pos, QuestionBytes(q).value)
    ensures ReadQuestion(buf, pos) == Got(q, pos + |QuestionBytes(q).value|) <==> IsCanonicalQuestion(q)
  {
    hide NameBytes, ReadName, At, Be16, U16At, IsCanonicalName;
    var name := NameBytes(q.name).value;
    AtThree(buf, pos, name, Be16(TypeNum(q.qtype)), Be16(1));
    NameValueIff(buf, pos, q.name);
    if IsCanonicalName(q.name) {
      QuestionSurvivesByType(buf, pos, q);
    } else if ReadQuestion(buf, pos) == Got(q, pos + |QuestionBytes(q).value|) {
      FourBehindName(buf, pos);
    }
  }

  lemma FourBehindName(buf: Packet512, pos: nat)
    requires ReadQuestion(buf, pos).Got?
    ensures ReadName(buf, pos).Got? && ReadQuestion(buf, pos).value.name == ReadName(buf, pos).value
    ensures ReadQuestion(buf, pos).next == ReadName(buf, pos).next + 4
  {
  }

  // ----- records

  lemma TwoZeros(buf: Packet512, p: nat, v: u16)
    requires 0 < p && At(buf, p, Be16(v)) && v < 256 && buf[p - 1] == 0
    ensures U16At(buf, p - 1) == Got(0, p + 1)
  {
    assert buf[p + 0] == Be16(v)[0];
  }

  lemma TypeZeroIsUnknown(buf: Packet512, pos: nat, p: nat, q: nat)
    requires ReadName(buf, pos).Got? && ReadName(buf, pos).next == p && U16At(buf, p) == Got(0, q)
    ensures ReadRecord(buf, pos).Got? ==> ReadRecord(buf, pos).value.UNKNOWN?
  {
    hide ReadName, U16At, U32At;
  }

  /** Behind an empty owner name everything is read one byte early, so that the
      type seems to be 0. */
  lemma EmptyOwner(buf: Packet512, pos: nat, r: Record)
    requires !r.UNKNOWN? && r.domain == [] && RecordBytes(r).Some? && At(buf, pos, RecordBytes(r).value)
    ensures ReadRecord(buf, pos).Got? ==> ReadRecord(buf, pos).value.UNKNOWN?
  {
    hide ReadRecord, ReadName, RecordBytes, NameBytes, At, Be16, U16At;
    RecordParts(buf, pos, r);
    NameValueIff(buf, pos, []);
    EmptyName(buf, pos);
    TwoZeros(buf, pos + 2, RecordType(r));
    TypeZeroIsUnknown(buf, pos, pos + 1, pos + 3);
  }

  lemma OwnerSurvives(buf: Packet512, pos: nat, r: Record)
    requires !r.UNKNOWN? && RecordBytes(r).Some? && At(buf, pos, RecordBytes(r).value)
    requires ReadRecord(buf, pos).Got? && ReadRecord(buf, pos).value == r
    ensures IsCanonicalName(r.domain)
  {
    hide ReadName, RecordBytes, NameBytes, At, U16At, U32At, ReadIpv6, IsCanonicalName;
    RecordParts(buf, pos, r);
    NameValueIff(buf, pos, r.domain);
    if r.domain == [] {
      EmptyOwner(buf, pos, r);
    }
  }

  /** Where the host of a record stands in its data. */
  function HostOffset(r: Record): nat {
    if r.MX? then 2 else 0
  }

  lemma HostParts(buf: Packet512, p: nat, r: Record)
    requires r.NS? || r.CNAME? || r.MX?
    requires DataBytes(r).Some? && At(buf, p, DataBytes(r).value)
    ensures NameBytes(r.host).Some? && At(buf, p + HostOffset(r), NameBytes(r.host).value)
    ensures |DataBytes(r).value| == HostOffset(r) + |NameBytes(r.host).value|
  {
    hide NameBytes, At, Be16;
    if r.MX? {
      AtSplit(buf, p, Be16(r.priority), NameBytes(r.host).value);
    }
  }

  lemma HostIsRead(buf: Packet512, h: Head, p: nat, r: Record)
    requires r.NS? || r.CNAME? || r.MX?
    requires h.num == RecordType(r) && ReadData(buf, h, p).Got? && ReadData(buf, h, p).value == r
    ensures ReadName(buf, p + HostOffset(r)) == Got(r.host, ReadData(buf, h, p).next)
  {
    hide ReadName;
  }

  lemma HostSurvives(buf: Packet512, pos: nat, r: Record)
    requires RecordBytes(r).Some? && At(buf, pos, RecordBytes(r).value) && (r.NS? || r.CNAME? || r.MX?)
    requires IsCanonicalName(r.domain) && ReadRecord(buf, pos) == Got(r, pos + |RecordBytes(r).value|)
    ensures IsCanonicalName(r.host)
  {
    hide ReadName, RecordBytes, NameBytes, DataBytes, At, ReadHead, ReadData, IsCanonicalName;
    HeadRoundTrip(buf, pos, r);
    var p := ReadHead(buf, pos).next;
    HostParts(buf, p, r);
    HostIsRead(buf, ReadHead(buf, pos).value, p, r);
    NameValueIff(buf, p + HostOffset(r), r.host);
  }

  /** Exactly the canonical records survive; unknown ones leave nothing to read. */
  lemma RecordRoundTripIff(buf: Packet512, pos: nat, r: Record)
    requires RecordBytes(r).Some? && At(buf, pos, RecordBytes(r).value)
    ensures ReadRecord(buf, pos) == Got(r, pos + |RecordBytes(r).value|) <==> IsCanonicalRecord(r)
  {
    hide ReadRecord, At, IsCanonicalName;
    if r.UNKNOWN? {
      RecordsAdvance(buf);
      assert RecordAt(buf)(pos) == ReadRecord(buf, pos);
    } else if IsCanonicalRecord(r) {
      RecordRoundTrip(buf, pos, r);
    } else if ReadRecord(buf, pos) == Got(r, pos + |RecordBytes(r).value|) {
      OwnerSurvives(buf, pos, r);
      if r.NS? || r.CNAME? || r.MX? {
        HostSurvives(buf, pos, r);
      }
    }
  }
}
