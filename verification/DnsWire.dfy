/** DNS messages as raw bytes (sections 3.2, 4.1 and 4.1.4 of RFC 1035): what the
    readers make of bytes that others wrote, compressed names above all, and which
    bytes the writers leave. */
module DnsWire {
  import opened Bytes
  import opened Names
  import opened DnsNames
  import opened DnsBuffer
  import opened DnsSections
  import opened DnsPackets

  /** Each label behind its length. */
  function Prefixed(labels: seq<Label>): (bs: seq<u8>)
    requires AreLabels(labels)
    ensures |bs| >= 2 * |labels|
  {
    if labels == [] then [] else [|labels[0]|] + labels[0] + Prefixed(labels[1..])
  }

  /** Not empty, and with the two top bits of the length clear or at most one set. */
  predicate AreLabels(labels: seq<Label>) {
    forall i | 0 <= i < |labels| :: 0 < |labels[i]| < 0xC0
  }

  /** `(0xC0 << 8) | target`, in network order. */
  function PointerTo(target: nat): (bs: seq<u8>)
    requires target < 0x4000
    ensures |bs| == 2
  {
    [0xC0 + target / 256, target % 256]
  }

  lemma LabelHere(buf: Packet512, pos: nat, l: Label, fuel: nat)
    requires 0 < |l| < 0xC0 && At(buf, pos, [|l|] + l) && pos + 1 + |l| < SIZE
    ensures LabelsAt(buf, pos, fuel + 1) ==
            match LabelsAt(buf, pos + 1 + |l|, fuel) case Labels(rest) => Labels([Lower(l)] + rest) case other => other
    ensures Behind(buf, pos) == Behind(buf, pos + 1 + |l|)
  {
    AtSplit(buf, pos, [|l|], l);
    assert buf[pos + 0] == [|l|][0];
    assert buf[pos + 1..pos + 1 + |l|] == l;
  }

  lemma PointerHere(buf: Packet512, pos: nat, target: nat, fuel: nat)
    requires target < 0x4000 && At(buf, pos, PointerTo(target))
    ensures LabelsAt(buf, pos, fuel + 1) == LabelsAt(buf, target, fuel) && Behind(buf, pos) == pos + 2
  {
    assert buf[pos + 0] == PointerTo(target)[0] && buf[pos + 1] == PointerTo(target)[1];
  }

  lemma ZeroHere(buf: Packet512, pos: nat, fuel: nat)
    requires At(buf, pos, [0])
    ensures LabelsAt(buf, pos, fuel + 1) == Labels([]) && Behind(buf, pos) == pos + 1
  {
    assert buf[pos + 0] == [0][0];
  }

  /** A run of labels, whatever comes behind it. */
  lemma {:induction false} LabelsHere(buf: Packet512, pos: nat, labels: seq<Label>, fuel: nat)
    requires AreLabels(labels) && At(buf, pos, Prefixed(labels)) && pos + |Prefixed(labels)| < SIZE
    ensures LabelsAt(buf, pos, fuel + |labels|) ==
            match LabelsAt(buf, pos + |Prefixed(labels)|, fuel)
            case Labels(rest) => Labels(LowerAll(labels) + rest)
            case other => other
    ensures Behind(buf, pos) == Behind(buf, pos + |Prefixed(labels)|)
    decreases |labels|
  {
    hide At, LabelsAt, Behind, Lower, LowerAll;
    if labels == [] {
      HasEmptyNone(labels);
      var r := LabelsAt(buf, pos, fuel);
      if r.Labels? {
        assert LowerAll(labels) + r.labels == r.labels;
      }
    } else {
      var l, rest := labels[0], labels[1..];
      AtSplit(buf, pos, [|l|] + l, Prefixed(rest));
      LabelHere(buf, pos, l, fuel + |rest|);
      LabelsHere(buf, pos + 1 + |l|, rest, fuel);
      HasEmptyStep(labels);
      var r := LabelsAt(buf, pos + |Prefixed(labels)|, fuel);
      if r.Labels? {
        Assoc([Lower(l)], LowerAll(rest), r.labels);
      }
    }
  }

  lemma HasEmptyNone(labels: seq<Label>)
    ensures labels == [] ==> LowerAll(labels) == []
  {
  }

  /** Fuel beyond the 513 turns that decide makes no difference. */
  lemma EnoughFuel(buf: Packet512, pos: nat, fuel: nat)
    requires fuel > SIZE
    ensures LabelsAt(buf, pos, fuel) == LabelsAt(buf, pos, |buf| + 1)
  {
    TerminatesIff(buf, pos);
    if LabelsAt(buf, pos, |buf| + 1) != Endless {
      MoreFuel(buf, pos, |buf| + 1, fuel);
    }
  }

  /** The labels of a name that was compressed: those in front of the pointer, in
      lower case, and those that stand where it points, if reading these ends. */
  lemma CompressedLabels(buf: Packet512, pos: nat, labels: seq<Label>, target: nat)
    requires AreLabels(labels) && target < 0x4000 && At(buf, pos, Prefixed(labels) + PointerTo(target))
    ensures LabelsAt(buf, pos, |buf| + 1) ==
            match LabelsAt(buf, target, |buf| + 1)
            case Labels(rest) => Labels(LowerAll(labels) + rest)
            case other => other
    ensures Behind(buf, pos) == pos + |Prefixed(labels)| + 2
  {
    hide LabelsAt, Behind, LowerAll;
    var end := pos + |Prefixed(labels)|;
    AtSplit(buf, pos, Prefixed(labels), PointerTo(target));
    LabelsHere(buf, pos, labels, |buf| + 2);
    PointerHere(buf, end, target, |buf| + 1);
    EnoughFuel(buf, pos, |buf| + 2 + |labels|);
  }

  lemma PlainLabels(buf: Packet512, pos: nat, labels: seq<Label>)
    requires AreLabels(labels) && At(buf, pos, Prefixed(labels) + [0])
    ensures LabelsAt(buf, pos, |buf| + 1) == Labels(LowerAll(labels))
    ensures Behind(buf, pos) == pos + |Prefixed(labels)| + 1
  {
    hide LabelsAt, Behind, LowerAll;
    var end := pos + |Prefixed(labels)|;
    AtSplit(buf, pos, Prefixed(labels), [0]);
    LabelsHere(buf, pos, labels, |buf| + 1);
    ZeroHere(buf, end, |buf|);
    EnoughFuel(buf, pos, |buf| + 1 + |labels|);
    assert LowerAll(labels) + [] == LowerAll(labels);
  }

  lemma LowerAllOfBoth(a: seq<Label>, b: seq<Label>)
    ensures LowerAll(a + b) == LowerAll(a) + LowerAll(b)
  {
  }

  /** A compressed name: labels and then a pointer to other labels, wherever in the
      packet they stand. The cursor ends just behind the pointer. */
  lemma CompressedName(buf: Packet512, pos: nat, labels: seq<Label>, target: nat, suffix: seq<Label>)
    requires AreLabels(labels) && target < 0x4000 && At(buf, pos, Prefixed(labels) + PointerTo(target))
    requires AreLabels(suffix) && At(buf, target, Prefixed(suffix) + [0])
    ensures ReadName(buf, pos) == Got(Lower(Join(labels + suffix)), pos + |Prefixed(labels)| + 2)
  {
    hide LabelsAt, Behind, Lower, LowerAll, Join;
    CompressedLabels(buf, pos, labels, target);
    PlainLabels(buf, target, suffix);
    LowerAllOfBoth(labels, suffix);
    JoinOfLower(labels + suffix);
  }

  /** So the bytes of a written name are its labels behind their lengths, and a zero. */
  lemma {:induction false} EncodedIsPrefixed(labels: seq<Label>)
    requires AreWritable(labels) && !HasEmpty(labels)
    ensures AreLabels(labels) && EncodeLabels(labels) == Prefixed(labels) + [0]
  {
    if labels == [] {
      assert [] + [0] == [0];
    } else {
      assert labels == [labels[0]] + labels[1..];
      EncodedIsPrefixed(labels[1..]);
      Assoc([|labels[0]|] + labels[0], Prefixed(labels[1..]), [0]);
    }
  }

  /** A name is refused if and only if it has a label of more than 52 bytes. */
  lemma RefusedIff(name: Name)
    ensures NameBytes(name).None? <==> exists l :: l in Split(name) && |l| > 52
  {
    var labels := Split(name);
    if !AreWritable(labels) {
      var i :| 0 <= i < |labels| && |labels[i]| > LABEL_MAX;
      assert labels[i] in labels;
    }
  }

  /** A pointer to a name that was written earlier, with labels in front of it. */
  lemma CompressedSuffix(buf: Packet512, pos: nat, labels: seq<Label>, target: nat, suffix: Name)
    requires AreLabels(labels) && target < 0x4000 && At(buf, pos, Prefixed(labels) + PointerTo(target))
    requires NameBytes(suffix).Some? && !HasEmpty(Split(suffix)) && At(buf, target, NameBytes(suffix).value)
    ensures ReadName(buf, pos) == Got(Lower(Join(labels + Split(suffix))), pos + |Prefixed(labels)| + 2)
    ensures labels == [] ==> ReadName(buf, pos) == Got(Lower(suffix), pos + 2)
  {
    hide Lower, Join, Prefixed, At;
    EncodedIsPrefixed(Split(suffix));
    CompressedName(buf, pos, labels, target, Split(suffix));
    JoinOfSplit(suffix);
    if labels == [] {
      NothingPrefixed();
      assert [] + Split(suffix) == Split(suffix);
    }
  }

  lemma NothingPrefixed()
    ensures Prefixed([]) == []
  {
  }

  // ----- numbers

  /** The types of section 3.2.2 of RFC 1035 and section 2.1 of RFC 3596, under which
      types and records are written, and by which they are recognized. */
  lemma TypeNumbers(r: Record, num: u16)
    ensures TypeNum(TypeA) == 1 && TypeNum(TypeNS) == 2 && TypeNum(TypeCNAME) == 5 && TypeNum(TypeMX) == 15
    ensures TypeNum(TypeAAAA) == 28 && TypeNum(UnknownType(num)) == num
    ensures (TypeFrom(num) == TypeA <==> num == 1) && (TypeFrom(num) == TypeNS <==> num == 2)
    ensures (TypeFrom(num) == TypeCNAME <==> num == 5) && (TypeFrom(num) == TypeMX <==> num == 15)
    ensures (TypeFrom(num) == TypeAAAA <==> num == 28)
    ensures num !in [1, 2, 5, 15, 28] <==> TypeFrom(num) == UnknownType(num)
    ensures (r.A? ==> RecordType(r) == 1) && (r.NS? ==> RecordType(r) == 2) && (r.CNAME? ==> RecordType(r) == 5)
    ensures (r.MX? ==> RecordType(r) == 15) && (r.AAAA? ==> RecordType(r) == 28)
  {
  }

  /** The response codes of section 4.1.1 of RFC 1035; any other counts as no error. */
  lemma RcodeNumbers(n: u8)
    ensures RcodeNum(NOERROR) == 0 && RcodeNum(FORMERR) == 1 && RcodeNum(SERVFAIL) == 2
    ensures RcodeNum(NXDOMAIN) == 3 && RcodeNum(NOTIMP) == 4 && RcodeNum(REFUSED) == 5
    ensures n == 0 || n > 5 <==> RcodeFrom(n) == NOERROR
  {
  }

  // ----- layouts

  function Two(v: u16): seq<u8> {
    [v / 256, v % 256]
  }

  function Four(v: u32): seq<u8> {
    Two(v / 0x1_0000) + Two(v % 0x1_0000)
  }

  /** Network order is the big end first. */
  lemma BigEnd(v: u16, w: u32)
    ensures Be16(v) == Two(v) && Be32(w) == Four(w)
  {
  }

  /** The header: identification, two flag bytes, four counts. */
  lemma HeaderLayout(h: Header)
    ensures HeaderBytes(h) == Two(h.id) + [FlagsA(h), FlagsB(h)] + Two(h.questions) + Two(h.answers)
                              + Two(h.authoritativeEntries) + Two(h.resourceEntries)
  {
  }

  /** A question: its name, its type, and the class IN. */
  lemma QuestionLayout(q: Question)
    ensures QuestionBytes(q).Some? <==> NameBytes(q.name).Some?
    ensures QuestionBytes(q).Some? ==>
              QuestionBytes(q).value == NameBytes(q.name).value + Two(TypeNum(q.qtype)) + [0, 1]
  {
    hide NameBytes, TypeNum;
    assert Be16(1) == [0, 1];
  }

  /** The data of each kind of record. */
  lemma DataLayout(r: Record)
    ensures r.A? ==> DataBytes(r) == Some(r.addr)
    ensures r.NS? || r.CNAME? ==> DataBytes(r) == NameBytes(r.host)
    ensures r.MX? && NameBytes(r.host).Some? ==> DataBytes(r) == Some(Two(r.priority) + NameBytes(r.host).value)
    ensures r.AAAA? ==> DataBytes(r).Some? && |DataBytes(r).value| == 16
    ensures r.AAAA? ==> forall i | 0 <= i < 8 :: DataBytes(r).value[2 * i..2 * i + 2] == Two(r.addr6[i])
  {
    hide NameBytes;
    if r.AAAA? {
      forall i | 0 <= i < 8
        ensures Be16s(r.addr6)[2 * i..2 * i + 2] == Two(r.addr6[i])
      {
        SegmentsLayout(r.addr6, i);
      }
    }
  }

  lemma {:induction false} SegmentsLayout(vs: seq<u16>, i: nat)
    requires i < |vs|
    ensures Be16s(vs)[2 * i..2 * i + 2] == Two(vs[i])
    decreases |vs|
  {
    if i > 0 {
      SegmentsLayout(vs[1..], i - 1);
      assert Be16s(vs)[2 * i..2 * i + 2] == Be16s(vs[1..])[2 * (i - 1)..2 * (i - 1) + 2];
    }
  }

  /** A record: owner, type, the class IN, time to live, and the data behind its length. */
  lemma RecordLayout(r: Record)
    requires !r.UNKNOWN?
    ensures RecordBytes(r).Some? <==> NameBytes(r.domain).Some? && DataBytes(r).Some?
    ensures RecordBytes(r).Some? && |DataBytes(r).value| < 0x1_0000 ==>
      RecordBytes(r).value == NameBytes(r.domain).value + Two(RecordType(r)) + [0, 1] + Four(r.ttl)
                              + Two(|DataBytes(r).value|) + DataBytes(r).value
  {
    hide NameBytes, DataBytes, RecordType;
    BigEnd(1, r.ttl);
    assert Be16(1) == [0, 1];
  }

  // ----- reading what others wrote

  /** What stands between the owner and the data, whatever the class. */
  lemma ReadsAnyHead(buf: Packet512, pos: nat, domain: Name, p: nat, num: u16, cls: u16, ttl: u32, len: u16)
    requires ReadName(buf, pos) == Got(domain, p)
    requires At(buf, p, Two(num) + Two(cls) + Four(ttl) + Two(len))
    ensures ReadHead(buf, pos) == Got(Head(domain, num, ttl, len), p + 10)
  {
    hide At, ReadName;
    AtHead(buf, p, Two(num), Two(cls), Four(ttl), Two(len));
    BigEnd(num, ttl);
    U16RoundTrip(buf, p, num);
    U16RoundTrip(buf, p + 2, cls);
    U32RoundTrip(buf, p + 4, ttl);
    U16RoundTrip(buf, p + 8, len);
  }

  /** A question of any class. */
  lemma ReadsAnyQuestion(buf: Packet512, pos: nat, name: Name, p: nat, num: u16, cls: u16)
    requires ReadName(buf, pos) == Got(name, p) && At(buf, p, Two(num) + Two(cls))
    ensures ReadQuestion(buf, pos) == Got(Question(name, TypeFrom(num)), p + 4)
  {
    hide At, ReadName;
    AtSplit(buf, p, Two(num), Two(cls));
    U16RoundTrip(buf, p, num);
    U16RoundTrip(buf, p + 2, cls);
  }

  /** A record of another type is skipped as RDLENGTH says. */
  lemma UnknownIsSkipped(buf: Packet512, pos: nat, domain: Name, p: nat, num: u16, cls: u16, ttl: u32, len: u16)
    requires ReadName(buf, pos) == Got(domain, p) && num !in [1, 2, 5, 15, 28]
    requires At(buf, p, Two(num) + Two(cls) + Four(ttl) + Two(len))
    ensures ReadRecord(buf, pos) == Got(UNKNOWN(domain, num, len, ttl), p + 10 + len)
  {
    hide ReadName, At;
    ReadsAnyHead(buf, pos, domain, p, num, cls, ttl, len);
  }

  /** The usual answer: an address, its owner a pointer to the name in the question. */
  lemma CompressedAnswer(buf: Packet512, pos: nat, target: nat, owner: Name, cls: u16, ttl: u32, addr: Ipv4)
    requires target < 0x4000 && NameBytes(owner).Some? && !HasEmpty(Split(owner))
    requires At(buf, target, NameBytes(owner).value)
    requires At(buf, pos, PointerTo(target) + (Two(1) + Two(cls) + Four(ttl) + Two(4)) + addr)
    ensures ReadRecord(buf, pos) == Got(A(Lower(owner), addr, ttl), pos + 16)
  {
    hide ReadName, At, Lower, Split, HasEmpty, NameBytes;
    var head := Two(1) + Two(cls) + Four(ttl) + Two(4);
    AtThree(buf, pos, PointerTo(target), head, addr);
    NothingPrefixed();
    assert [] + PointerTo(target) == PointerTo(target);
    CompressedSuffix(buf, pos, [], target, owner);
    ReadsAnyHead(buf, pos, Lower(owner), pos + 2, 1, cls, ttl, 4);
    Ipv4RoundTrip(buf, pos + 12, addr);
  }
}
