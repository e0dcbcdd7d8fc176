/** DNS messages (section 4.1 of RFC 1035): header, questions and records, read
    and written through a `BytePacketBuffer`. */
module DnsPackets {
  import opened Bytes
  import opened Names
  import opened DnsNames
  import opened DnsBuffer
  import opened DnsSections

  type Ipv4 = s: seq<u8> | |s| == 4 witness [0, 0, 0, 0]
  type Ipv6 = s: seq<u16> | |s| == 8 witness [0, 0, 0, 0, 0, 0, 0, 0]

  // ----- header

  datatype ResultCode = NOERROR | FORMERR | SERVFAIL | NXDOMAIN | NOTIMP | REFUSED

  function RcodeNum(r: ResultCode): (n: u8)
    ensures n < 16 && RcodeFrom(n) == r
  {
    match r
    case NOERROR => 0
    case FORMERR => 1
    case SERVFAIL => 2
    case NXDOMAIN => 3
    case NOTIMP => 4
    case REFUSED => 5
  }

  function RcodeFrom(n: u8): ResultCode {
    match n
    case 1 => FORMERR
    case 2 => SERVFAIL
    case 3 => NXDOMAIN
    case 4 => NOTIMP
    case 5 => REFUSED
    case _ => NOERROR
  }

  datatype Header = Header(
    id: u16,
    recursionDesired: bool, truncatedMessage: bool, authoritativeAnswer: bool, opcode: u8, response: bool,
    rescode: ResultCode, checkingDisabled: bool, authedData: bool, z: bool, recursionAvailable: bool,
    questions: u16, answers: u16, authoritativeEntries: u16, resourceEntries: u16)

  function Bit(b: bool): (n: u8) {
    if b then 1 else 0
  }

  /** The first flag byte. The opcode is shifted as it is, so its bit 4 lands on
      the response bit and higher bits are lost. */
  function FlagsA(h: Header): u8 {
    Bit(h.recursionDesired) + 2 * Bit(h.truncatedMessage) + 4 * Bit(h.authoritativeAnswer)
    + 8 * (h.opcode % 16) + 128 * Bit(h.response || h.opcode / 16 % 2 == 1)
  }

  function FlagsB(h: Header): u8 {
    RcodeNum(h.rescode) + 16 * Bit(h.checkingDisabled) + 32 * Bit(h.authedData) + 64 * Bit(h.z)
    + 128 * Bit(h.recursionAvailable)
  }

  function HeaderBytes(h: Header): (bs: seq<u8>)
    ensures |bs| == 12
  {
    Be16(h.id) + [FlagsA(h)] + [FlagsB(h)]
    + Be16(h.questions) + Be16(h.answers) + Be16(h.authoritativeEntries) + Be16(h.resourceEntries)
  }

  function HeaderFrom(id: u16, a: u8, b: u8, qd: u16, an: u16, ns: u16, ar: u16): Header {
    Header(id,
           a % 2 == 1, a / 2 % 2 == 1, a / 4 % 2 == 1, a / 8 % 16, a / 128 == 1,
           RcodeFrom(b % 16), b / 16 % 2 == 1, b / 32 % 2 == 1, b / 64 % 2 == 1, b / 128 == 1,
           qd, an, ns, ar)
  }

  function ReadHeader(buf: Packet512, pos: nat): Decoded<Header> {
    var (id, p1) :- U16At(buf, pos);
    var (flags, p2) :- U16At(buf, p1);
    var (qd, p3) :- U16At(buf, p2);
    var (an, p4) :- U16At(buf, p3);
    var (ns, p5) :- U16At(buf, p4);
    var (ar, p6) :- U16At(buf, p5);
    Got(HeaderFrom(id, flags / 256, flags % 256, qd, an, ns, ar), p6)
  }

  lemma LowBits(p: bool, q: bool, s: bool, rest: nat)
    ensures var n := Bit(p) + 2 * Bit(q) + 4 * Bit(s) + 8 * rest;
      && (n % 2 == 1) == p && (n / 2 % 2 == 1) == q && (n / 4 % 2 == 1) == s && n / 8 == rest
  {
    var a: nat, b: nat := Bit(s) + 2 * rest, Bit(q) + 2 * (Bit(s) + 2 * rest);
    var n: nat := Bit(p) + 2 * b;
    LowBit(p, b);
    LowBit(q, a);
    LowBit(s, rest);
    HalfTwice(n);
    HalfTwice(n / 2);
    assert n / 8 == n / 4 / 2;
  }

  lemma LowBit(b: bool, rest: nat)
    ensures (Bit(b) + 2 * rest) % 2 == Bit(b) && (Bit(b) + 2 * rest) / 2 == rest
  {
  }

  lemma HalfTwice(n: nat)
    ensures n / 4 == n / 2 / 2
  {
  }

  lemma FlagsARoundTrip(h: Header)
    ensures var a := FlagsA(h);
      && (a % 2 == 1) == h.recursionDesired && (a / 2 % 2 == 1) == h.truncatedMessage
      && (a / 4 % 2 == 1) == h.authoritativeAnswer && a / 8 % 16 == h.opcode % 16
      && (a / 128 == 1) == (h.response || h.opcode / 16 % 2 == 1)
  {
    var a, op, resp := FlagsA(h), h.opcode % 16, Bit(h.response || h.opcode / 16 % 2 == 1);
    assert a / 128 == resp;
    LowBits(h.recursionDesired, h.truncatedMessage, h.authoritativeAnswer, op + 16 * resp);
  }

  lemma FlagsBRoundTrip(h: Header)
    ensures var b := FlagsB(h);
      && b % 16 == RcodeNum(h.rescode) && (b / 16 % 2 == 1) == h.checkingDisabled
      && (b / 32 % 2 == 1) == h.authedData && (b / 64 % 2 == 1) == h.z && (b / 128 == 1) == h.recursionAvailable
  {
    var b := FlagsB(h);
    LowBits(h.checkingDisabled, h.authedData, h.z, Bit(h.recursionAvailable));
    assert b / 16 == Bit(h.checkingDisabled) + 2 * Bit(h.authedData) + 4 * Bit(h.z) + 8 * Bit(h.recursionAvailable);
  }

  /** What comes back of any written header. */
  lemma ReadsHeader(buf: Packet512, pos: nat, h: Header)
    requires At(buf, pos, HeaderBytes(h))
    ensures ReadHeader(buf, pos) == Got(HeaderFrom(h.id, FlagsA(h), FlagsB(h), h.questions, h.answers,
                                                   h.authoritativeEntries, h.resourceEntries), pos + 12)
  {
    var flags := FlagsA(h) * 256 + FlagsB(h);
    HeaderParts(buf, pos, h);
    U16RoundTrip(buf, pos, h.id);
    U16RoundTrip(buf, pos + 2, flags);
    U16RoundTrip(buf, pos + 4, h.questions);
    U16RoundTrip(buf, pos + 6, h.answers);
    U16RoundTrip(buf, pos + 8, h.authoritativeEntries);
    U16RoundTrip(buf, pos + 10, h.resourceEntries);
    assert flags / 256 == FlagsA(h) && flags % 256 == FlagsB(h);
  }

  /** A header survives being written and read exactly when its opcode has four
      bits: a fifth would show up as the response bit. */
  lemma HeaderRoundTripIff(buf: Packet512, pos: nat, h: Header)
    requires At(buf, pos, HeaderBytes(h))
    ensures ReadHeader(buf, pos) == Got(h, pos + 12) <==> h.opcode < 16
    ensures ReadHeader(buf, pos) == Got(h.(opcode := h.opcode % 16, response := h.response || h.opcode / 16 % 2 == 1),
                                        pos + 12)
  {
    hide At, HeaderBytes, ReadHeader, FlagsA, FlagsB, RcodeNum, RcodeFrom;
    ReadsHeader(buf, pos, h);
    FlagsARoundTrip(h);
    FlagsBRoundTrip(h);
  }

  lemma HeaderParts(buf: Packet512, pos: nat, h: Header)
    requires At(buf, pos, HeaderBytes(h))
    ensures At(buf, pos, Be16(h.id)) && At(buf, pos + 2, Be16(FlagsA(h) * 256 + FlagsB(h)))
    ensures At(buf, pos + 4, Be16(h.questions)) && At(buf, pos + 6, Be16(h.answers))
    ensures At(buf, pos + 8, Be16(h.authoritativeEntries)) && At(buf, pos + 10, Be16(h.resourceEntries))
  {
    var flags := [FlagsA(h)] + [FlagsB(h)];
    var a := Be16(h.id);
    var qd, an, ns, ar := Be16(h.questions), Be16(h.answers), Be16(h.authoritativeEntries), Be16(h.resourceEntries);
    assert HeaderBytes(h) == a + flags + qd + an + ns + ar;
    assert Be16(FlagsA(h) * 256 + FlagsB(h)) == flags;
    AtSplit(buf, pos, a + flags + qd + an + ns, ar);
    AtSplit(buf, pos, a + flags + qd + an, ns);
    AtSplit(buf, pos, a + flags + qd, an);
    AtSplit(buf, pos, a + flags, qd);
    AtSplit(buf, pos, a, flags);
  }

  // ----- questions

  datatype QueryType = UnknownType(num: u16) | TypeA | TypeNS | TypeCNAME | TypeMX | TypeAAAA

  function TypeNum(t: QueryType): u16 {
    match t
    case UnknownType(x) => x
    case TypeA => 1
    case TypeNS => 2
    case TypeCNAME => 5
    case TypeMX => 15
    case TypeAAAA => 28
  }

  function TypeFrom(num: u16): QueryType {
    match num
    case 1 => TypeA
    case 2 => TypeNS
    case 5 => TypeCNAME
    case 15 => TypeMX
    case 28 => TypeAAAA
    case _ => UnknownType(num)
  }

  datatype Question = Question(name: Name, qtype: QueryType)

  function QuestionBytes(q: Question): Option<seq<u8>> {
    Cat(Cat(NameBytes(q.name), Some(Be16(TypeNum(q.qtype)))), Some(Be16(1)))
  }

  function ReadQuestion(buf: Packet512, pos: nat): Decoded<Question> {
    var (name, p1) :- ReadName(buf, pos);
    var (num, p2) :- U16At(buf, p1);
    var (_, p3) :- U16At(buf, p2);
    Got(Question(name, TypeFrom(num)), p3)
  }

  /** A name that is read back as it was written. */
  predicate IsCanonicalName(name: Name) {
    !HasEmpty(Split(name)) && Lower(name) == name
  }

  /** Not a known type in the disguise of its number. */
  predicate IsCanonicalType(t: QueryType) {
    t.UnknownType? ==> t.num != 1 && t.num != 2 && t.num != 5 && t.num != 15 && t.num != 28
  }

  predicate IsCanonicalQuestion(q: Question) {
    IsCanonicalName(q.name) && IsCanonicalType(q.qtype)
  }

  lemma TypeRoundTripIff(t: QueryType)
    ensures TypeFrom(TypeNum(t)) == t <==> IsCanonicalType(t)
  {
  }

  lemma ReadsQuestion(buf: Packet512, pos: nat, name: Name, p: nat, num: u16)
    requires ReadName(buf, pos) == Got(name, p) && At(buf, p, Be16(num)) && At(buf, p + 2, Be16(1))
    ensures ReadQuestion(buf, pos) == Got(Question(name, TypeFrom(num)), p + 4)
  {
    U16RoundTrip(buf, p, num);
    U16RoundTrip(buf, p + 2, 1);
  }

  /** Among the questions with a canonical name, exactly those survive whose type
      is not a known number in disguise. */
  lemma QuestionSurvivesByType(buf: Packet512, pos: nat, q: Question)
    requires QuestionBytes(q).Some? && At(buf, pos, QuestionBytes(q).value) && IsCanonicalName(q.name)
    ensures ReadQuestion(buf, pos).Got? && ReadQuestion(buf, pos).next == pos + |QuestionBytes(q).value|
    ensures ReadQuestion(buf, pos) == Got(q, pos + |QuestionBytes(q).value|) <==> IsCanonicalQuestion(q)
  {
    var name := NameBytes(q.name).value;
    AtThree(buf, pos, name, Be16(TypeNum(q.qtype)), Be16(1));
    NameRoundTripIff(buf, pos, q.name);
    ReadsQuestion(buf, pos, q.name, pos + |name|, TypeNum(q.qtype));
    TypeRoundTripIff(q.qtype);
  }

  // ----- records

  datatype Record =
    | UNKNOWN(domain: Name, qtype: u16, dataLen: u16, ttl: u32)
    | A(domain: Name, addr: Ipv4, ttl: u32)
    | NS(domain: Name, host: Name, ttl: u32)
    | CNAME(domain: Name, host: Name, ttl: u32)
    | MX(domain: Name, priority: u16, host: Name, ttl: u32)
    | AAAA(domain: Name, addr6: Ipv6, ttl: u32)

  function RecordType(r: Record): u16 {
    match r
    case UNKNOWN(_, qtype, _, _) => qtype
    case A(_, _, _) => 1
    case NS(_, _, _) => 2
    case CNAME(_, _, _) => 5
    case MX(_, _, _, _) => 15
    case AAAA(_, _, _) => 28
  }

  function Be16s(vs: seq<u16>): (bs: seq<u8>)
    ensures |bs| == 2 * |vs|
  {
    if vs == [] then [] else Be16(vs[0]) + Be16s(vs[1..])
  }

  /** The record data behind RDLENGTH. */
  function DataBytes(r: Record): Option<seq<u8>> {
    match r
    case UNKNOWN(_, _, _, _) => Some([])
    case A(_, addr, _) => Some(addr)
    case NS(_, host, _) => NameBytes(host)
    case CNAME(_, host, _) => NameBytes(host)
    case MX(_, priority, host, _) => Cat(Some(Be16(priority)), NameBytes(host))
    case AAAA(_, addr, _) => Some(Be16s(addr))
  }

  /** Owner name, type, class IN and time to live. */
  function HeadBytes(r: Record): Option<seq<u8>> {
    Cat(Cat(Cat(NameBytes(r.domain), Some(Be16(RecordType(r)))), Some(Be16(1))), Some(Be32(r.ttl)))
  }

  /** Data behind its length. */
  function Sized(head: Option<seq<u8>>, data: Option<seq<u8>>): Option<seq<u8>> {
    if data.None? then None
    else Cat(Cat(head, Some(Be16(Truncate16(|data.value|)))), data)
  }

  /** A record as section 3.2.1 of RFC 1035 lays it out: RDLENGTH is the number of
      bytes behind it. Unknown records leave nothing. */
  function RecordBytes(r: Record): Option<seq<u8>> {
    if r.UNKNOWN? then Some([]) else Sized(HeadBytes(r), DataBytes(r))
  }

  /** Everything in front of the data: owner, type, time to live, RDLENGTH. */
  datatype Head = Head(domain: Name, num: u16, ttl: u32, dataLen: u16)

  function ReadHead(buf: Packet512, pos: nat): Decoded<Head> {
    var (domain, p1) :- ReadName(buf, pos);
    var (num, p2) :- U16At(buf, p1);
    var (_, p3) :- U16At(buf, p2);
    var (ttl, p4) :- U32At(buf, p3);
    var (dataLen, p5) :- U16At(buf, p4);
    Got(Head(domain, num, ttl, dataLen), p5)
  }

  function ReadIpv6(buf: Packet512, pos: nat): Decoded<Ipv6> {
    var (a, p1) :- U32At(buf, pos);
    var (b, p2) :- U32At(buf, p1);
    var (c, p3) :- U32At(buf, p2);
    var (d, p4) :- U32At(buf, p3);
    Got([a / 0x1_0000, a % 0x1_0000, b / 0x1_0000, b % 0x1_0000,
         c / 0x1_0000, c % 0x1_0000, d / 0x1_0000, d % 0x1_0000], p4)
  }

  function ReadData(buf: Packet512, h: Head, pos: nat): Decoded<Record> {
    match TypeFrom(h.num)
    case TypeA =>
      var (raw, p) :- U32At(buf, pos);
      Got(A(h.domain, Be32(raw), h.ttl), p)
    case TypeAAAA =>
      var (addr, p) :- ReadIpv6(buf, pos);
      Got(AAAA(h.domain, addr, h.ttl), p)
    case TypeNS =>
      var (host, p) :- ReadName(buf, pos);
      Got(NS(h.domain, host, h.ttl), p)
    case TypeCNAME =>
      var (host, p) :- ReadName(buf, pos);
      Got(CNAME(h.domain, host, h.ttl), p)
    case TypeMX =>
      var (priority, p1) :- U16At(buf, pos);
      var (host, p2) :- ReadName(buf, p1);
      Got(MX(h.domain, priority, host, h.ttl), p2)
    case UnknownType(_) =>
      Got(UNKNOWN(h.domain, h.num, h.dataLen, h.ttl), pos + h.dataLen)
  }

  function ReadRecord(buf: Packet512, pos: nat): Decoded<Record> {
    var (h, p) :- ReadHead(buf, pos);
    ReadData(buf, h, p)
  }

  predicate IsCanonicalRecord(r: Record) {
    && !r.UNKNOWN? && IsCanonicalName(r.domain)
    && (r.NS? || r.CNAME? || r.MX? ==> IsCanonicalName(r.host))
  }

  lemma ReadsHead(buf: Packet512, pos: nat, domain: Name, num: u16, ttl: u32, len: u16, p: nat)
    requires ReadName(buf, pos) == Got(domain, p)
    requires At(buf, p, Be16(num)) && At(buf, p + 2, Be16(1)) && At(buf, p + 4, Be32(ttl)) && At(buf, p + 8, Be16(len))
    ensures ReadHead(buf, pos) == Got(Head(domain, num, ttl, len), p + 10)
  {
    U16RoundTrip(buf, p, num);
    U16RoundTrip(buf, p + 2, 1);
    U32RoundTrip(buf, p + 4, ttl);
    U16RoundTrip(buf, p + 8, len);
  }

  lemma AtHead(buf: Packet512, pos: nat, name: seq<u8>, num: seq<u8>, class1: seq<u8>, ttl: seq<u8>)
    requires At(buf, pos, name + num + class1 + ttl)
    ensures At(buf, pos, name) && At(buf, pos + |name|, num) && At(buf, pos + |name| + |num|, class1)
    ensures At(buf, pos + |name| + |num| + |class1|, ttl)
  {
    AtSplit(buf, pos, name + num + class1, ttl);
    AtThree(buf, pos, name, num, class1);
  }

  lemma AtSized(buf: Packet512, pos: nat, head: seq<u8>, data: seq<u8>)
    requires At(buf, pos, head + Be16(Truncate16(|data|)) + data)
    ensures |data| <= SIZE && At(buf, pos, head) && At(buf, pos + |head|, Be16(|data|)) && At(buf, pos + |head| + 2, data)
  {
    var len := Be16(Truncate16(|data|));
    AtThree(buf, pos, head, len, data);
    assert pos + |head| + 2 + |data| <= SIZE;
    SmallCount(|data|);
  }

  lemma SizedValue(head: Option<seq<u8>>, data: Option<seq<u8>>)
    requires Sized(head, data).Some?
    ensures head.Some? && data.Some?
    ensures Sized(head, data).value == head.value + Be16(Truncate16(|data.value|)) + data.value
  {
  }

  lemma HeadValue(r: Record)
    requires HeadBytes(r).Some?
    ensures NameBytes(r.domain).Some?
    ensures HeadBytes(r).value == NameBytes(r.domain).value + Be16(RecordType(r)) + Be16(1) + Be32(r.ttl)
  {
  }

  /** Where the parts of a written record stand. */
  lemma RecordParts(buf: Packet512, pos: nat, r: Record)
    requires !r.UNKNOWN? && RecordBytes(r).Some? && At(buf, pos, RecordBytes(r).value)
    ensures NameBytes(r.domain).Some? && DataBytes(r).Some?
    ensures var name, data := NameBytes(r.domain).value, DataBytes(r).value; var p := pos + |name|;
      && At(buf, pos, name) && At(buf, p, Be16(RecordType(r))) && At(buf, p + 2, Be16(1))
      && At(buf, p + 4, Be32(r.ttl)) && |data| <= SIZE && At(buf, p + 8, Be16(|data|)) && At(buf, p + 10, data)
      && |RecordBytes(r).value| == |name| + 10 + |data|
  {
    hide NameBytes, DataBytes, HeadBytes, Sized, Be16, Be32, At;
    SizedValue(HeadBytes(r), DataBytes(r));
    HeadValue(r);
    var name, head, data := NameBytes(r.domain).value, HeadBytes(r).value, DataBytes(r).value;
    AtSized(buf, pos, head, data);
    AtHead(buf, pos, name, Be16(RecordType(r)), Be16(1), Be32(r.ttl));
  }

  lemma {:induction false} Be16sAt(buf: Packet512, pos: nat, vs: seq<u16>)
    requires At(buf, pos, Be16s(vs))
    ensures forall i | 0 <= i < |vs| :: At(buf, pos + 2 * i, Be16(vs[i]))
    decreases |vs|
  {
    if vs != [] {
      AtSplit(buf, pos, Be16(vs[0]), Be16s(vs[1..]));
      Be16sAt(buf, pos + 2, vs[1..]);
      forall i | 0 <= i < |vs|
        ensures At(buf, pos + 2 * i, Be16(vs[i]))
      {
        if i > 0 {
          assert vs[i] == vs[1..][i - 1] && pos + 2 + 2 * (i - 1) == pos + 2 * i;
        }
      }
    }
  }

  /** Two 16-bit segments read as one 32-bit number and taken apart again. */
  lemma PairAt(buf: Packet512, pos: nat, hi: u16, lo: u16)
    requires At(buf, pos, Be16(hi)) && At(buf, pos + 2, Be16(lo))
    ensures U32At(buf, pos).Got? && U32At(buf, pos).next == pos + 4
    ensures U32At(buf, pos).value / 0x1_0000 == hi && U32At(buf, pos).value % 0x1_0000 == lo
  {
    U16RoundTrip(buf, pos, hi);
    U16RoundTrip(buf, pos + 2, lo);
    assert U32At(buf, pos).value == hi * 0x1_0000 + lo;
  }

  lemma Ipv6RoundTrip(buf: Packet512, pos: nat, addr: Ipv6)
    requires At(buf, pos, Be16s(addr))
    ensures ReadIpv6(buf, pos) == Got(addr, pos + 16)
  {
    Be16sAt(buf, pos, addr);
    assert At(buf, pos + 2 * 0, Be16(addr[0])) && At(buf, pos + 2 * 1, Be16(addr[1]));
    assert At(buf, pos + 2 * 2, Be16(addr[2])) && At(buf, pos + 2 * 3, Be16(addr[3]));
    assert At(buf, pos + 2 * 4, Be16(addr[4])) && At(buf, pos + 2 * 5, Be16(addr[5]));
    assert At(buf, pos + 2 * 6, Be16(addr[6])) && At(buf, pos + 2 * 7, Be16(addr[7]));
    PairsRead(buf, pos, addr);
  }

  lemma PairsRead(buf: Packet512, pos: nat, addr: Ipv6)
    requires At(buf, pos, Be16(addr[0])) && At(buf, pos + 2, Be16(addr[1]))
    requires At(buf, pos + 4, Be16(addr[2])) && At(buf, pos + 6, Be16(addr[3]))
    requires At(buf, pos + 8, Be16(addr[4])) && At(buf, pos + 10, Be16(addr[5]))
    requires At(buf, pos + 12, Be16(addr[6])) && At(buf, pos + 14, Be16(addr[7]))
    ensures ReadIpv6(buf, pos) == Got(addr, pos + 16)
  {
    PairAt(buf, pos, addr[0], addr[1]);
    PairAt(buf, pos + 4, addr[2], addr[3]);
    PairAt(buf, pos + 8, addr[4], addr[5]);
    PairAt(buf, pos + 12, addr[6], addr[7]);
    assert addr == [addr[0], addr[1], addr[2], addr[3], addr[4], addr[5], addr[6], addr[7]];
  }

  lemma Ipv4RoundTrip(buf: Packet512, pos: nat, addr: Ipv4)
    requires At(buf, pos, addr)
    ensures U32At(buf, pos).Got? && Be32(U32At(buf, pos).value) == addr && U32At(buf, pos).next == pos + 4
  {
    assert buf[pos + 0] == addr[0] && buf[pos + 1] == addr[1] && buf[pos + 2] == addr[2] && buf[pos + 3] == addr[3];
    hide Be16;
    Be16OfBytes(addr[0], addr[1]);
    Be16OfBytes(addr[2], addr[3]);
    Halves(FromBe16(addr[0], addr[1]), FromBe16(addr[2], addr[3]));
  }

  lemma Halves(hi: u16, lo: u16)
    ensures (hi * 0x1_0000 + lo) / 0x1_0000 == hi && (hi * 0x1_0000 + lo) % 0x1_0000 == lo
  {
  }

  lemma Be16OfBytes(a: u8, b: u8)
    ensures Be16(FromBe16(a, b)) == [a, b]
  {
  }

  /** The data of a written record reads as that record. */
  lemma ReadsData(buf: Packet512, pos: nat, r: Record, h: Head)
    requires IsCanonicalRecord(r) && DataBytes(r).Some? && At(buf, pos, DataBytes(r).value)
    requires h.domain == r.domain && h.num == RecordType(r) && h.ttl == r.ttl
    ensures ReadData(buf, h, pos) == Got(r, pos + |DataBytes(r).value|)
  {
    hide At, NameBytes, ReadName, ReadIpv6, U16At, U32At, Be32, Be16s, Split, HasEmpty, Lower;
    match r
    case A(_, addr, _) => Ipv4RoundTrip(buf, pos, addr);
    case AAAA(_, addr, _) => Ipv6RoundTrip(buf, pos, addr);
    case MX(_, priority, host, _) =>
      AtSplit(buf, pos, Be16(priority), NameBytes(host).value);
      U16RoundTrip(buf, pos, priority);
      NameRoundTripIff(buf, pos + 2, host);
    case NS(_, host, _) => NameRoundTripIff(buf, pos, host);
    case CNAME(_, host, _) => NameRoundTripIff(buf, pos, host);
    case UNKNOWN(_, _, _, _) =>
  }

  lemma HeadRoundTrip(buf: Packet512, pos: nat, r: Record)
    requires !r.UNKNOWN? && IsCanonicalName(r.domain) && RecordBytes(r).Some? && At(buf, pos, RecordBytes(r).value)
    ensures NameBytes(r.domain).Some? && DataBytes(r).Some?
    ensures var data, p := DataBytes(r).value, pos + |NameBytes(r.domain).value| + 10;
      && ReadHead(buf, pos) == Got(Head(r.domain, RecordType(r), r.ttl, |data|), p)
      && At(buf, p, data) && p + |data| == pos + |RecordBytes(r).value|
  {
    RecordParts(buf, pos, r);
    var name, data := NameBytes(r.domain).value, DataBytes(r).value;
    NameRoundTripIff(buf, pos, r.domain);
    ReadsHead(buf, pos, r.domain, RecordType(r), r.ttl, |data|, pos + |name|);
  }

  /** A canonical record is read back as it was written, and its RDLENGTH leads
      from the start of the data to the same position as decoding it. */
  lemma RecordRoundTrip(buf: Packet512, pos: nat, r: Record)
    requires IsCanonicalRecord(r) && RecordBytes(r).Some? && At(buf, pos, RecordBytes(r).value)
    ensures ReadRecord(buf, pos) == Got(r, pos + |RecordBytes(r).value|)
    ensures ReadHead(buf, pos).Got?
    ensures ReadHead(buf, pos).next + ReadHead(buf, pos).value.dataLen == pos + |RecordBytes(r).value|
  {
    HeadRoundTrip(buf, pos, r);
    ReadsData(buf, ReadHead(buf, pos).next, r, ReadHead(buf, pos).value);
  }

  // ----- packets

  datatype Packet = Packet(
    header: Header, questions: seq<Question>, answers: seq<Record>, authorities: seq<Record>, resources: seq<Record>)

  function QuestionsBytes(qs: seq<Question>): Option<seq<u8>> {
    AllBytes(QuestionBytes, qs)
  }

  function RecordsBytes(rs: seq<Record>): Option<seq<u8>> {
    AllBytes(RecordBytes, rs)
  }

  function QuestionAt(buf: Packet512): nat -> Decoded<Question> {
    (p: nat) => ReadQuestion(buf, p)
  }

  function RecordAt(buf: Packet512): nat -> Decoded<Record> {
    (p: nat) => ReadRecord(buf, p)
  }

  /** The header with the counts that writing sets. */
  function Counted(p: Packet): Packet {
    p.(header := p.header.(questions := Truncate16(|p.questions|), answers := Truncate16(|p.answers|),
                           authoritativeEntries := Truncate16(|p.authorities|),
                           resourceEntries := Truncate16(|p.resources|)))
  }

  function PacketBytes(p: Packet): Option<seq<u8>> {
    var qs, an := QuestionsBytes(p.questions), RecordsBytes(p.answers);
    var ns, ar := RecordsBytes(p.authorities), RecordsBytes(p.resources);
    if qs.None? || an.None? || ns.None? || ar.None? then None
    else Some(HeaderBytes(Counted(p).header) + qs.value + an.value + ns.value + ar.value)
  }

  /** `from_buffer` */
  function ReadPacket(buf: Packet512, pos: nat): Decoded<Packet> {
    var (h, p1) :- ReadHeader(buf, pos);
    var (questions, p2) :- ReadAll(QuestionAt(buf), p1, h.questions);
    var (answers, p3) :- ReadAll(RecordAt(buf), p2, h.answers);
    var (authorities, p4) :- ReadAll(RecordAt(buf), p3, h.authoritativeEntries);
    var (resources, p5) :- ReadAll(RecordAt(buf), p4, h.resourceEntries);
    Got(Packet(h, questions, answers, authorities, resources), p5)
  }

  ghost predicate IsCanonical(p: Packet) {
    && p.header.opcode < 16
    && (forall i | 0 <= i < |p.questions| :: IsCanonicalQuestion(p.questions[i]))
    && (forall i | 0 <= i < |p.answers| :: IsCanonicalRecord(p.answers[i]))
    && (forall i | 0 <= i < |p.authorities| :: IsCanonicalRecord(p.authorities[i]))
    && (forall i | 0 <= i < |p.resources| :: IsCanonicalRecord(p.resources[i]))
  }

  lemma QuestionsAreInverse(buf: Packet512)
    ensures Inverse(buf, QuestionBytes, QuestionAt(buf), IsCanonicalQuestion)
  {
    forall q, p: nat
      ensures Inverts(buf, QuestionBytes, QuestionAt(buf), IsCanonicalQuestion, q, p)
    {
      if IsCanonicalQuestion(q) && QuestionBytes(q).Some? && At(buf, p, QuestionBytes(q).value) {
        QuestionSurvivesByType(buf, p, q);
      }
    }
  }

  lemma RecordsAreInverse(buf: Packet512)
    ensures Inverse(buf, RecordBytes, RecordAt(buf), IsCanonicalRecord)
  {
    forall r, p: nat
      ensures Inverts(buf, RecordBytes, RecordAt(buf), IsCanonicalRecord, r, p)
    {
      if IsCanonicalRecord(r) && RecordBytes(r).Some? && At(buf, p, RecordBytes(r).value) {
        RecordRoundTrip(buf, p, r);
      }
    }
  }

  lemma QuestionsRoundTrip(buf: Packet512, pos: nat, qs: seq<Question>)
    requires QuestionsBytes(qs).Some? && At(buf, pos, QuestionsBytes(qs).value)
    requires forall i | 0 <= i < |qs| :: IsCanonicalQuestion(qs[i])
    ensures |QuestionsBytes(qs).value| >= |qs|
    ensures ReadAll(QuestionAt(buf), pos, |qs|) == Got(qs, pos + |QuestionsBytes(qs).value|)
  {
    QuestionsAreInverse(buf);
    AllRoundTrip(buf, QuestionBytes, QuestionAt(buf), IsCanonicalQuestion, pos, qs);
  }

  lemma RecordsRoundTrip(buf: Packet512, pos: nat, rs: seq<Record>)
    requires RecordsBytes(rs).Some? && At(buf, pos, RecordsBytes(rs).value)
    requires forall i | 0 <= i < |rs| :: IsCanonicalRecord(rs[i])
    ensures |RecordsBytes(rs).value| >= |rs|
    ensures ReadAll(RecordAt(buf), pos, |rs|) == Got(rs, pos + |RecordsBytes(rs).value|)
  {
    RecordsAreInverse(buf);
    AllRoundTrip(buf, RecordBytes, RecordAt(buf), IsCanonicalRecord, pos, rs);
  }

  lemma PacketParts(buf: Packet512, pos: nat, p: Packet)
    requires PacketBytes(p).Some? && At(buf, pos, PacketBytes(p).value)
    ensures QuestionsBytes(p.questions).Some? && RecordsBytes(p.answers).Some?
    ensures RecordsBytes(p.authorities).Some? && RecordsBytes(p.resources).Some?
    ensures var h, qs, an, ns, ar := HeaderBytes(Counted(p).header), QuestionsBytes(p.questions).value,
        RecordsBytes(p.answers).value, RecordsBytes(p.authorities).value, RecordsBytes(p.resources).value;
      && At(buf, pos, h) && At(buf, pos + 12, qs) && At(buf, pos + 12 + |qs|, an)
      && At(buf, pos + 12 + |qs| + |an|, ns) && At(buf, pos + 12 + |qs| + |an| + |ns|, ar)
      && |PacketBytes(p).value| == 12 + |qs| + |an| + |ns| + |ar|
  {
    var h, qs, an, ns, ar := HeaderBytes(Counted(p).header), QuestionsBytes(p.questions).value,
      RecordsBytes(p.answers).value, RecordsBytes(p.authorities).value, RecordsBytes(p.resources).value;
    AtSplit(buf, pos, h + qs + an + ns, ar);
    AtHead(buf, pos, h, qs, an, ns);
  }

  lemma SmallCount(n: nat)
    requires n <= SIZE
    ensures Truncate16(n) == n
  {
  }

  lemma ReadsPacket(buf: Packet512, pos: nat, p: Packet, p1: nat, p2: nat, p3: nat, p4: nat, p5: nat)
    requires ReadHeader(buf, pos) == Got(p.header, p1)
    requires ReadAll(QuestionAt(buf), p1, p.header.questions) == Got(p.questions, p2)
    requires ReadAll(RecordAt(buf), p2, p.header.answers) == Got(p.answers, p3)
    requires ReadAll(RecordAt(buf), p3, p.header.authoritativeEntries) == Got(p.authorities, p4)
    requires ReadAll(RecordAt(buf), p4, p.header.resourceEntries) == Got(p.resources, p5)
    ensures ReadPacket(buf, pos) == Got(p, p5)
  {
  }

  /** A canonical packet that fits is read back as it was written, with the counts
      of its sections, and reading stops where writing stopped. */
  lemma PacketRoundTrip(buf: Packet512, pos: nat, p: Packet)
    requires IsCanonical(p) && PacketBytes(p).Some? && At(buf, pos, PacketBytes(p).value)
    ensures ReadPacket(buf, pos) == Got(Counted(p), pos + |PacketBytes(p).value|)
  {
    hide At, HeaderBytes, QuestionsBytes, RecordsBytes, PacketBytes, ReadHeader, ReadAll, ReadPacket;
    hide QuestionAt, RecordAt, Truncate16, IsCanonicalQuestion, IsCanonicalRecord;
    PacketParts(buf, pos, p);
    var p1 := pos + 12;
    var p2 := p1 + |QuestionsBytes(p.questions).value|;
    var p3 := p2 + |RecordsBytes(p.answers).value|;
    var p4 := p3 + |RecordsBytes(p.authorities).value|;
    HeaderRoundTripIff(buf, pos, Counted(p).header);
    QuestionsRoundTrip(buf, p1, p.questions);
    RecordsRoundTrip(buf, p2, p.answers);
    RecordsRoundTrip(buf, p3, p.authorities);
    RecordsRoundTrip(buf, p4, p.resources);
    SmallCount(|p.questions|);
    SmallCount(|p.answers|);
    SmallCount(|p.authorities|);
    SmallCount(|p.resources|);
    ReadsPacket(buf, pos, Counted(p), p1, p2, p3, p4, p4 + |RecordsBytes(p.resources).value|);
  }
}
