/** The two ipset messages that are put together by hand for netlink: a header and
    attributes nested in attributes, written at offsets into a byte array, proved
    against a reader that knows nothing but the format. */
module Netlinks {
  import opened Bytes

  const NLM_F_REQUEST: u16 := 1
  const IPSET_PROTOCOL: u8 := 6
  const IPSET_ATTR_PROTOCOL: u16 := 1
  const IPSET_ATTR_SETNAME: u16 := 2
  const IPSET_ATTR_DATA: u16 := 7
  const IPSET_ATTR_IP: u16 := 1
  const IPSET_ATTR_CIDR: u16 := 3
  const IPSET_ATTR_IPADDR_IPV4: u16 := 1
  const IPSET_ATTR_IPADDR_IPV6: u16 := 2
  const NLA_F_NESTED: u16 := 0x8000
  const NLA_F_NET_BYTEORDER: u16 := 0x4000
  const AF_INET: u8 := 2

  /** `IPSET_CMD_ADD | (NFNL_SUBSYS_IPSET << 8)` */
  const MESSAGE_TYPE: u16 := 9 + 6 * 256

  function Align4(len: nat): (r: nat)
    ensures r % 4 == 0 && len <= r < len + 4
  {
    len + 3 - (len + 3) % 4
  }

  lemma AlignExact(len: nat)
    requires len % 4 == 0
    ensures Align4(len) == len
  {
  }

  /** The numbers of the kernel's headers: `linux/netlink.h`, `linux/netfilter/nfnetlink.h`
      and `linux/netfilter/ipset/ip_set.h`. */
  lemma KernelNumbers()
    ensures MESSAGE_TYPE == 0x609 && NLM_F_REQUEST == 1 && AF_INET == 2 && IPSET_PROTOCOL == 6
    ensures IPSET_ATTR_PROTOCOL == 1 && IPSET_ATTR_SETNAME == 2 && IPSET_ATTR_DATA == 7
    ensures IPSET_ATTR_IP == 1 && IPSET_ATTR_CIDR == 3 && IPSET_ATTR_IPADDR_IPV4 == 1 && IPSET_ATTR_IPADDR_IPV6 == 2
    ensures NLA_F_NESTED == 0x8000 && NLA_F_NET_BYTEORDER == 0x4000
  {
  }

  // ----- the byte order of the machine

  function Enc16(big: bool, v: u16): (bs: seq<u8>)
    ensures |bs| == 2 && Dec16(big, bs[0], bs[1]) == v
  {
    if big then Be16(v) else Le16(v)
  }

  function Dec16(big: bool, a: u8, b: u8): u16 {
    if big then FromBe16(a, b) else FromLe16(a, b)
  }

  function Enc32(big: bool, v: u32): (bs: seq<u8>)
    ensures |bs| == 4 && Dec32(big, bs[0], bs[1], bs[2], bs[3]) == v
  {
    if big then Be32(v) else Le16(v % 0x1_0000) + Le16(v / 0x1_0000)
  }

  function Dec32(big: bool, a: u8, b: u8, c: u8, d: u8): u32 {
    if big then FromBe32(a, b, c, d) else FromLe16(a, b) + 0x1_0000 * FromLe16(c, d)
  }

  /** Which end comes first. */
  lemma MachineOrder(v: u16, w: u32)
    ensures Enc16(true, v) == [v / 256, v % 256] && Enc16(false, v) == [v % 256, v / 256]
    ensures Enc32(true, w) == Enc16(true, w / 0x1_0000) + Enc16(true, w % 0x1_0000)
    ensures Enc32(false, w) == Enc16(false, w % 0x1_0000) + Enc16(false, w / 0x1_0000)
  {
  }

  // ----- the reader

  /** An attribute and where its payload stands. */
  datatype Span = Span(kind: u16, from: nat, to: nat)

  function KindAt(big: bool, s: seq<u8>, at: nat): u16
    requires at + 4 <= |s|
  {
    Dec16(big, s[at + 2], s[at + 3])
  }

  function LenAt(big: bool, s: seq<u8>, at: nat): u16
    requires at + 4 <= |s|
  {
    Dec16(big, s[at], s[at + 1])
  }

  /** The attributes from `at` on, if they are well formed and the last one, rounded
      up to four bytes, ends at `end`. */
  function Walk(big: bool, s: seq<u8>, at: nat, end: nat): Option<seq<Span>>
    requires end <= |s|
    decreases |s| - at
  {
    if at == end then Some([])
    else if at + 4 > end then None
    else
      var len: nat := LenAt(big, s, at);
      if len < 4 || at + Align4(len) > end then None
      else
        var rest := Walk(big, s, at + Align4(len), end);
        if rest.None? then None else Some([Span(KindAt(big, s, at), at + 4, at + len)] + rest.value)
  }

  /** The walk finds attributes of exactly these kinds. */
  predicate AreKinds(spans: Option<seq<Span>>, kinds: seq<u16>) {
    && spans.Some? && |spans.value| == |kinds|
    && (forall i | 0 <= i < |kinds| :: spans.value[i].kind == kinds[i])
  }

  function Payload(s: seq<u8>, span: Span): seq<u8> {
    if span.from <= span.to <= |s| then s[span.from..span.to] else []
  }

  datatype Head = Head(length: u32, kind: u16, flags: u16, sequence: u32, port: u32, family: u8, version: u8, resId: u16)

  function HeadOf(big: bool, s: seq<u8>): Head
    requires |s| >= 20
  {
    Head(Dec32(big, s[0], s[1], s[2], s[3]), Dec16(big, s[4], s[5]), Dec16(big, s[6], s[7]),
         Dec32(big, s[8], s[9], s[10], s[11]), Dec32(big, s[12], s[13], s[14], s[15]), s[16], s[17],
         Dec16(big, s[18], s[19]))
  }

  /** An entry to be added to a set. */
  datatype Entry = Entry(protocol: seq<u8>, setname: seq<u8>, addrKind: u16, addr: seq<u8>, mask: Option<seq<u8>>)

  /** Reads the message with a walk at each level. */
  function Decode(big: bool, s: seq<u8>, addrKind: u16): Option<(Head, Entry)> {
    if |s| < 20 || HeadOf(big, s).length > |s| then None
    else
      var top := Walk(big, s, 20, HeadOf(big, s).length);
      if !AreKinds(top, [IPSET_ATTR_PROTOCOL, IPSET_ATTR_SETNAME, NLA_F_NESTED + IPSET_ATTR_DATA]) then None
      else if top.value[2].to > |s| then None
      else
        var data := Walk(big, s, top.value[2].from, top.value[2].to);
        var plain, masked := AreKinds(data, [NLA_F_NESTED + IPSET_ATTR_IP]),
                             AreKinds(data, [NLA_F_NESTED + IPSET_ATTR_IP, IPSET_ATTR_CIDR]);
        if !plain && !masked then None
        else if data.value[0].to > |s| then None
        else
          var ip := Walk(big, s, data.value[0].from, data.value[0].to);
          if !AreKinds(ip, [addrKind]) then None
          else
            Some((HeadOf(big, s),
                  Entry(Payload(s, top.value[0]), Payload(s, top.value[1]), addrKind, Payload(s, ip.value[0]),
                        if masked then Some(Payload(s, data.value[1])) else None)))
  }

  // ----- writing at offsets

  /** `bs` stands at `at`. */
  ghost predicate Holds(s: seq<u8>, at: nat, bs: seq<u8>) {
    at + |bs| <= |s| && s[at..at + |bs|] == bs
  }

  function Put(s: seq<u8>, at: nat, bs: seq<u8>): (t: seq<u8>)
    requires at + |bs| <= |s|
    ensures |t| == |s|
  {
    s[..at] + bs + s[at + |bs|..]
  }

  datatype Piece = Piece(at: nat, bs: seq<u8>)

  ghost predicate Covers(pieces: seq<Piece>, i: nat) {
    exists k :: 0 <= k < |pieces| && pieces[k].at <= i < pieces[k].at + |pieces[k].bs|
  }

  /** All the pieces have been written to `before`, none beyond `end`, and nothing else. */
  ghost predicate Holding(before: seq<u8>, after: seq<u8>, pieces: seq<Piece>, end: nat) {
    && |after| == |before|
    && (forall k | 0 <= k < |pieces| ::
          Holds(after, pieces[k].at, pieces[k].bs) && pieces[k].at + |pieces[k].bs| <= end)
    && (forall i: nat | i < |before| && !Covers(pieces, i) :: after[i] == before[i])
  }

  lemma PutHolds(s: seq<u8>, at: nat, bs: seq<u8>, p: Piece)
    requires at + |bs| <= |s|
    ensures Holds(Put(s, at, bs), at, bs)
    ensures Holds(s, p.at, p.bs) && p.at + |p.bs| <= at ==> Holds(Put(s, at, bs), p.at, p.bs)
  {
    var t := Put(s, at, bs);
    assert t[at..at + |bs|] == bs;
    if p.at + |p.bs| <= at && p.at + |p.bs| <= |s| {
      assert t[p.at..p.at + |p.bs|] == s[p.at..p.at + |p.bs|];
    }
  }

  /** One more piece behind the others. */
  lemma HoldingMore(before: seq<u8>, mid: seq<u8>, pieces: seq<Piece>, end: nat, at: nat, bs: seq<u8>)
    requires Holding(before, mid, pieces, end) && end <= at && at + |bs| <= |before|
    ensures Holding(before, Put(mid, at, bs), pieces + [Piece(at, bs)], at + |bs|)
  {
    var more, after := pieces + [Piece(at, bs)], Put(mid, at, bs);
    forall k | 0 <= k < |more|
      ensures Holds(after, more[k].at, more[k].bs) && more[k].at + |more[k].bs| <= at + |bs|
    {
      if k < |pieces| {
        assert more[k] == pieces[k];
      }
      PutHolds(mid, at, bs, more[k]);
    }
    forall i: nat | i < |before| && !Covers(more, i)
      ensures after[i] == before[i]
    {
      assert more[|pieces|] == Piece(at, bs);
      assert forall k | 0 <= k < |pieces| :: more[k] == pieces[k];
    }
  }

  // ----- the layout of a message

  function HeadBytes(big: bool, length: u32): (bs: seq<u8>)
    ensures |bs| == 16
  {
    Enc32(big, length) + Enc16(big, MESSAGE_TYPE) + Enc16(big, NLM_F_REQUEST) + Enc32(big, 0) + Enc32(big, 0)
  }

  function NfGenBytes(big: bool): (bs: seq<u8>)
    ensures |bs| == 4
  {
    [AF_INET] + [0] + Enc16(big, 0)
  }

  /** The length of the attribute, its header included, and its kind. */
  datatype NlAttr = NlAttr(len: u16, kind: u16)

  /** `NlAttr::new_data` */
  function NewData(kind: u16, dataLen: u16): NlAttr {
    NlAttr((4 + dataLen) % 0x1_0000, kind)
  }

  function AlignSize(a: NlAttr): nat {
    Align4(a.len)
  }

  function AttrBytes(big: bool, a: NlAttr): (bs: seq<u8>)
    ensures |bs| == 4
  {
    Enc16(big, a.len) + Enc16(big, a.kind)
  }

  /** Where the nested attributes start. */
  function DataAt(setname: seq<u8>): nat {
    28 + Align4(4 + |setname|)
  }

  /** Where the mask comes, if there is one. */
  function MaskAt(setname: seq<u8>, ip: seq<u8>): nat {
    DataAt(setname) + 8 + Align4(4 + |ip|)
  }

  function Length(setname: seq<u8>, ip: seq<u8>, masked: bool): nat {
    MaskAt(setname, ip) + if masked then 8 else 0
  }

  /** What a message consists of. */
  function Pieces(big: bool, setname: seq<u8>, addrKind: u16, ip: seq<u8>, mask: Option<u8>): seq<Piece>
    requires Length(setname, ip, mask.Some?) <= 0xFFFF
  {
    var p, total := DataAt(setname), Length(setname, ip, mask.Some?);
    [Piece(0, HeadBytes(big, total)),
     Piece(16, NfGenBytes(big)),
     Piece(20, AttrBytes(big, NlAttr(5, IPSET_ATTR_PROTOCOL))),
     Piece(24, [IPSET_PROTOCOL]),
     Piece(28, AttrBytes(big, NlAttr(4 + |setname|, IPSET_ATTR_SETNAME))),
     Piece(32, setname),
     Piece(p, AttrBytes(big, NlAttr(total - p, NLA_F_NESTED + IPSET_ATTR_DATA))),
     Piece(p + 4, AttrBytes(big, NlAttr(4 + Align4(4 + |ip|), NLA_F_NESTED + IPSET_ATTR_IP))),
     Piece(p + 8, AttrBytes(big, NlAttr(4 + |ip|, addrKind))),
     Piece(p + 12, ip)]
    + if mask.None? then [] else
      [Piece(MaskAt(setname, ip), AttrBytes(big, NlAttr(5, IPSET_ATTR_CIDR))),
       Piece(MaskAt(setname, ip) + 4, [mask.value])]
  }

  // ----- reading the layout

  lemma WalkOne(big: bool, s: seq<u8>, at: nat, end: nat, a: NlAttr)
    requires Holds(s, at, AttrBytes(big, a)) && a.len >= 4 && at + Align4(a.len) <= end <= |s|
    ensures Walk(big, s, at, end) ==
      var rest := Walk(big, s, at + Align4(a.len), end);
      if rest.None? then None else Some([Span(a.kind, at + 4, at + a.len)] + rest.value)
  {
    hide Holds, Enc16, Dec16;
    HoldsBoth(s, at, Enc16(big, a.len), Enc16(big, a.kind));
    Reads16(big, s, at, a.len);
    Reads16(big, s, at + 2, a.kind);
  }

  lemma WalkLast(big: bool, s: seq<u8>, at: nat, end: nat, a: NlAttr)
    requires Holds(s, at, AttrBytes(big, a)) && a.len >= 4 && at + Align4(a.len) == end <= |s|
    ensures Walk(big, s, at, end) == Some([Span(a.kind, at + 4, at + a.len)])
  {
    WalkOne(big, s, at, end, a);
    assert [Span(a.kind, at + 4, at + a.len)] + [] == [Span(a.kind, at + 4, at + a.len)];
  }

  lemma HoldsBoth(s: seq<u8>, at: nat, a: seq<u8>, b: seq<u8>)
    requires Holds(s, at, a + b)
    ensures Holds(s, at, a) && Holds(s, at + |a|, b)
  {
    var ab := a + b;
    assert s[at..at + |a|] == ab[..|a|] == a;
    assert s[at + |a|..at + |ab|] == ab[|a|..] == b;
  }

  lemma Reads16(big: bool, s: seq<u8>, at: nat, v: u16)
    requires Holds(s, at, Enc16(big, v))
    ensures at + 2 <= |s| && Dec16(big, s[at], s[at + 1]) == v
  {
    var t := s[at..at + 2];
    assert t[0] == s[at] && t[1] == s[at + 1];
  }

  lemma Reads32(big: bool, s: seq<u8>, at: nat, v: u32)
    requires Holds(s, at, Enc32(big, v))
    ensures at + 4 <= |s| && Dec32(big, s[at], s[at + 1], s[at + 2], s[at + 3]) == v
  {
    var t := s[at..at + 4];
    assert t[0] == s[at] && t[1] == s[at + 1] && t[2] == s[at + 2] && t[3] == s[at + 3];
  }

  lemma ReadsHead(big: bool, s: seq<u8>, length: u32)
    requires Holds(s, 0, HeadBytes(big, length)) && Holds(s, 16, NfGenBytes(big))
    ensures HeadOf(big, s) == Head(length, MESSAGE_TYPE, NLM_F_REQUEST, 0, 0, AF_INET, 0, 0)
  {
    hide Holds, Enc16, Enc32, Dec16, Dec32;
    var a, b, c, z := Enc32(big, length), Enc16(big, MESSAGE_TYPE), Enc16(big, NLM_F_REQUEST), Enc32(big, 0);
    HoldsBoth(s, 0, a + b + c + z, z);
    HoldsBoth(s, 0, a + b + c, z);
    HoldsBoth(s, 0, a + b, c);
    HoldsBoth(s, 0, a, b);
    Reads32(big, s, 0, length);
    Reads16(big, s, 4, MESSAGE_TYPE);
    Reads16(big, s, 6, NLM_F_REQUEST);
    Reads32(big, s, 8, 0);
    Reads32(big, s, 12, 0);
    HoldsBoth(s, 16, [AF_INET] + [0], Enc16(big, 0));
    HoldsBoth(s, 16, [AF_INET], [0]);
    Reads16(big, s, 18, 0);
    ReadsOne(s, 16, AF_INET);
    ReadsOne(s, 17, 0);
  }

  lemma ReadsOne(s: seq<u8>, at: nat, b: u8)
    requires Holds(s, at, [b])
    ensures at < |s| && s[at] == b
  {
    assert s[at..at + 1][0] == s[at];
  }

  /** What is decoded, the walks being known. */
  lemma Decodes(big: bool, s: seq<u8>, addrKind: u16, protocol: Span, name: Span, data: Span, ip: Span, addr: Span,
                mask: Option<Span>)
    requires |s| >= 20 && HeadOf(big, s).length == |s| && data.to <= |s| && ip.to <= |s|
    requires Walk(big, s, 20, |s|) == Some([protocol, name, data])
    requires Walk(big, s, data.from, data.to) == Some(if mask.Some? then [ip, mask.value] else [ip])
    requires Walk(big, s, ip.from, ip.to) == Some([addr])
    requires protocol.kind == IPSET_ATTR_PROTOCOL && name.kind == IPSET_ATTR_SETNAME
    requires data.kind == NLA_F_NESTED + IPSET_ATTR_DATA && ip.kind == NLA_F_NESTED + IPSET_ATTR_IP
    requires addr.kind == addrKind && (mask.Some? ==> mask.value.kind == IPSET_ATTR_CIDR)
    ensures Decode(big, s, addrKind) ==
            Some((HeadOf(big, s), Entry(Payload(s, protocol), Payload(s, name), addrKind, Payload(s, addr),
                                        if mask.Some? then Some(Payload(s, mask.value)) else None)))
  {
    hide Walk, HeadOf, Payload;
  }

  /** The message reads back as the entry it was made of, the walks at each level
      ending exactly where the level ends. */
  lemma PiecesDecode(big: bool, s: seq<u8>, setname: seq<u8>, addrKind: u16, ip: seq<u8>, mask: Option<u8>)
    requires Length(setname, ip, mask.Some?) <= 0xFFFF && |s| == Length(setname, ip, mask.Some?)
    requires forall i | 0 <= i < |Pieces(big, setname, addrKind, ip, mask)| ::
      Holds(s, Pieces(big, setname, addrKind, ip, mask)[i].at, Pieces(big, setname, addrKind, ip, mask)[i].bs)
    ensures Decode(big, s, addrKind) ==
            Some((Head(|s|, MESSAGE_TYPE, NLM_F_REQUEST, 0, 0, AF_INET, 0, 0),
                  Entry([IPSET_PROTOCOL], setname, addrKind, ip, if mask.Some? then Some([mask.value]) else None)))
  {
    hide Holds, HeadBytes, NfGenBytes, AttrBytes, Walk, HeadOf, Decode;
    var pieces, p, total, m := Pieces(big, setname, addrKind, ip, mask), DataAt(setname), |s|, MaskAt(setname, ip);
    assert pieces[0].at == 0 && pieces[1].at == 16;
    ReadsHead(big, s, total);
    assert pieces[2].at == 20 && pieces[4].at == 28 && pieces[6].at == p;
    TopWalk(big, s, setname, total);
    assert pieces[7].at == p + 4 && pieces[8].at == p + 8;
    assert mask.Some? ==> pieces[10].at == m;
    DataWalk(big, s, p + 4, total, addrKind, |ip|, mask.Some?);
    assert pieces[3].at == 24 && pieces[5].at == 32 && pieces[9].at == p + 12;
    HoldsPayload(s, 24, [IPSET_PROTOCOL]);
    HoldsPayload(s, 32, setname);
    HoldsPayload(s, p + 12, ip);
    if mask.Some? {
      assert pieces[11].at == m + 4;
      HoldsPayload(s, m + 4, [mask.value]);
    }
    Decodes(big, s, addrKind, Span(IPSET_ATTR_PROTOCOL, 24, 25), Span(IPSET_ATTR_SETNAME, 32, 32 + |setname|),
            Span(NLA_F_NESTED + IPSET_ATTR_DATA, p + 4, total), Span(NLA_F_NESTED + IPSET_ATTR_IP, p + 8, m),
            Span(addrKind, p + 12, p + 12 + |ip|),
            if mask.Some? then Some(Span(IPSET_ATTR_CIDR, m + 4, m + 5)) else None);
  }

  /** The walks within the data: the address, nested once more, and the mask. */
  lemma DataWalk(big: bool, s: seq<u8>, at: nat, total: nat, addrKind: u16, n: nat, masked: bool)
    requires total == |s| <= 0xFFFF && at + 4 + Align4(4 + n) + (if masked then 8 else 0) == total
    requires Holds(s, at, AttrBytes(big, NlAttr(4 + Align4(4 + n), NLA_F_NESTED + IPSET_ATTR_IP)))
    requires Holds(s, at + 4, AttrBytes(big, NlAttr(4 + n, addrKind)))
    requires masked ==> Holds(s, at + 4 + Align4(4 + n), AttrBytes(big, NlAttr(5, IPSET_ATTR_CIDR)))
    ensures var m := at + 4 + Align4(4 + n); var ip := Span(NLA_F_NESTED + IPSET_ATTR_IP, at + 4, m);
      && Walk(big, s, at + 4, m) == Some([Span(addrKind, at + 8, at + 8 + n)])
      && Walk(big, s, at, total) == Some(if masked then [ip, Span(IPSET_ATTR_CIDR, m + 4, m + 5)] else [ip])
  {
    hide Holds, AttrBytes, Walk;
    var len := 4 + Align4(4 + n);
    var m := at + len;
    AlignExact(len);
    WalkLast(big, s, at + 4, m, NlAttr(4 + n, addrKind));
    if masked {
      WalkLast(big, s, m, total, NlAttr(5, IPSET_ATTR_CIDR));
      WalkOne(big, s, at, total, NlAttr(len, NLA_F_NESTED + IPSET_ATTR_IP));
      var ip, mask := Span(NLA_F_NESTED + IPSET_ATTR_IP, at + 4, m), Span(IPSET_ATTR_CIDR, m + 4, m + 5);
      assert [ip] + [mask] == [ip, mask];
    } else {
      WalkLast(big, s, at, total, NlAttr(len, NLA_F_NESTED + IPSET_ATTR_IP));
    }
  }

  lemma HoldsPayload(s: seq<u8>, at: nat, bs: seq<u8>)
    requires Holds(s, at, bs)
    ensures at + |bs| <= |s| && s[at..at + |bs|] == bs
  {
  }

  lemma TopWalk(big: bool, s: seq<u8>, setname: seq<u8>, total: nat)
    requires DataAt(setname) + 4 <= total == |s| <= 0xFFFF && total % 4 == 0
    requires Holds(s, 20, AttrBytes(big, NlAttr(5, IPSET_ATTR_PROTOCOL)))
    requires Holds(s, 28, AttrBytes(big, NlAttr(4 + |setname|, IPSET_ATTR_SETNAME)))
    requires Holds(s, DataAt(setname), AttrBytes(big, NlAttr(total - DataAt(setname), NLA_F_NESTED + IPSET_ATTR_DATA)))
    ensures var p := DataAt(setname);
      Walk(big, s, 20, total) == Some([Span(IPSET_ATTR_PROTOCOL, 24, 25), Span(IPSET_ATTR_SETNAME, 32, 32 + |setname|),
                                       Span(NLA_F_NESTED + IPSET_ATTR_DATA, p + 4, total)])
  {
    hide Holds, AttrBytes, Walk;
    var p := DataAt(setname);
    var one, two, three := Span(IPSET_ATTR_PROTOCOL, 24, 25), Span(IPSET_ATTR_SETNAME, 32, 32 + |setname|),
                           Span(NLA_F_NESTED + IPSET_ATTR_DATA, p + 4, total);
    assert (total - p) % 4 == 0;
    AlignExact(total - p);
    WalkLast(big, s, p, total, NlAttr(total - p, NLA_F_NESTED + IPSET_ATTR_DATA));
    WalkOne(big, s, 28, total, NlAttr(4 + |setname|, IPSET_ATTR_SETNAME));
    assert Walk(big, s, 28, total) == Some([two] + [three]);
    WalkOne(big, s, 20, total, NlAttr(5, IPSET_ATTR_PROTOCOL));
    assert [one] + ([two] + [three]) == [one, two, three];
  }

  // ----- in place

  method WriteBytes(out: array<u8>, at: nat, bs: seq<u8>)
    requires at + |bs| <= out.Length
    modifies out
    ensures out[..] == Put(old(out[..]), at, bs)
  {
    for i := 0 to |bs|
      invariant forall j | 0 <= j < out.Length ::
        out[j] == if at <= j < at + i then bs[j - at] else old(out[j])
    {
      out[at + i] := bs[i];
    }
  }

  lemma PutBoth(s: seq<u8>, at: nat, a: seq<u8>, b: seq<u8>)
    requires at + |a| + |b| <= |s|
    ensures Put(Put(s, at, a), at + |a|, b) == Put(s, at, a + b)
  {
  }

  method WriteU16(out: array<u8>, at: nat, v: u16, big: bool)
    requires at + 2 <= out.Length
    modifies out
    ensures out[..] == Put(old(out[..]), at, Enc16(big, v))
  {
    if big {
      out[at], out[at + 1] := v / 256, v % 256;
    } else {
      out[at], out[at + 1] := v % 256, v / 256;
    }
  }

  method WriteU32(out: array<u8>, at: nat, v: u32, big: bool)
    requires at + 4 <= out.Length
    modifies out
    ensures out[..] == Put(old(out[..]), at, Enc32(big, v))
  {
    var hi: u16, lo: u16 := v / 0x1_0000, v % 0x1_0000;
    var first, second := if big then hi else lo, if big then lo else hi;
    assert Enc32(big, v) == Enc16(big, first) + Enc16(big, second);
    PutBoth(out[..], at, Enc16(big, first), Enc16(big, second));
    WriteU16(out, at, first, big);
    WriteU16(out, at + 2, second, big);
  }

  /** `NlMsgHdr::write_to` */
  method WriteHead(out: array<u8>, length: u32, big: bool)
    requires 16 <= out.Length
    modifies out
    ensures out[..] == Put(old(out[..]), 0, HeadBytes(big, length))
  {
    hide Enc16, Enc32, Put;
    ghost var s, a, b, c, z := out[..], Enc32(big, length), Enc16(big, MESSAGE_TYPE), Enc16(big, NLM_F_REQUEST), Enc32(big, 0);
    WriteU32(out, 0, length, big);
    WriteU16(out, 4, MESSAGE_TYPE, big);
    PutBoth(s, 0, a, b);
    WriteU16(out, 6, NLM_F_REQUEST, big);
    PutBoth(s, 0, a + b, c);
    WriteU32(out, 8, 0, big);
    PutBoth(s, 0, a + b + c, z);
    WriteU32(out, 12, 0, big);
    PutBoth(s, 0, a + b + c + z, z);
  }

  /** `NfGenMsg::write_to` */
  method WriteNfGen(out: array<u8>, at: nat, big: bool)
    requires at + 4 <= out.Length
    modifies out
    ensures out[..] == Put(old(out[..]), at, NfGenBytes(big))
  {
    hide Put, Enc16;
    PutBoth(out[..], at, [AF_INET], [0]);
    PutBoth(out[..], at, [AF_INET] + [0], Enc16(big, 0));
    WriteBytes(out, at, [AF_INET]);
    WriteBytes(out, at + 1, [0]);
    WriteU16(out, at + 2, 0, big);
  }

  /** `NlAttr::write_to`, behind what has been written so far. */
  method WriteAttr(out: array<u8>, at: nat, a: NlAttr, big: bool, ghost before: seq<u8>, ghost pieces: seq<Piece>, ghost end: nat)
    requires Holding(before, out[..], pieces, end) && end <= at && at + 4 <= out.Length
    modifies out
    ensures Holding(before, out[..], pieces + [Piece(at, AttrBytes(big, a))], at + 4)
  {
    hide Holding, Enc16, Put;
    ghost var s := out[..];
    PutBoth(s, at, Enc16(big, a.len), Enc16(big, a.kind));
    WriteU16(out, at, a.len, big);
    WriteU16(out, at + 2, a.kind, big);
    HoldingSize(before, s, pieces, end);
    HoldingMore(before, s, pieces, end, at, AttrBytes(big, a));
  }

  /** The bytes of a payload, behind what has been written so far. */
  method WritePayload(out: array<u8>, at: nat, bs: seq<u8>, ghost before: seq<u8>, ghost pieces: seq<Piece>, ghost end: nat)
    requires Holding(before, out[..], pieces, end) && end <= at && at + |bs| <= out.Length
    modifies out
    ensures Holding(before, out[..], pieces + [Piece(at, bs)], at + |bs|)
  {
    hide Holding, Put;
    ghost var s := out[..];
    WriteBytes(out, at, bs);
    HoldingSize(before, s, pieces, end);
    HoldingMore(before, s, pieces, end, at, bs);
  }

  lemma HoldingSize(before: seq<u8>, after: seq<u8>, pieces: seq<Piece>, end: nat)
    requires Holding(before, after, pieces, end)
    ensures |before| == |after|
  {
  }

  /** The sizes that the code computes, in 16 bits, are those of the layout. */
  lemma SizesFit(setname: seq<u8>, ip: seq<u8>, masked: bool)
    requires Length(setname, ip, masked) <= 0xFFFF
    ensures var p, addr := DataAt(setname), Align4(4 + |ip|);
      && Truncate16(|setname|) == |setname| && Truncate16(|ip|) == |ip| && Truncate16(addr) == addr
      && Truncate16(Align4(4 + addr)) == 4 + addr && Truncate16(4 + addr + 8) == 4 + addr + 8
      && Align4(8 + addr) == 8 + addr && Align4(16 + addr) == 16 + addr
      && Length(setname, ip, masked) == p + (if masked then 16 else 8) + addr
  {
    AlignExact(4 + Align4(4 + |ip|));
    AlignExact(8 + Align4(4 + |ip|));
    AlignExact(16 + Align4(4 + |ip|));
  }

  /** So the attributes are those of the layout. */
  lemma AttrsFit(setname: seq<u8>, ip: seq<u8>, kind: u16, masked: bool)
    requires Length(setname, ip, masked) <= 0xFFFF
    ensures var name, addr := NewData(IPSET_ATTR_SETNAME, Truncate16(|setname|)), NewData(kind, Truncate16(|ip|));
      var nested, cidr := NewData(NLA_F_NESTED + IPSET_ATTR_IP, Truncate16(AlignSize(addr))), NewData(IPSET_ATTR_CIDR, 1);
      var data := NewData(NLA_F_NESTED + IPSET_ATTR_DATA,
                          Truncate16(AlignSize(nested) + if masked then AlignSize(cidr) else 0));
      && name == NlAttr(4 + |setname|, IPSET_ATTR_SETNAME) && addr == NlAttr(4 + |ip|, kind)
      && nested == NlAttr(4 + Align4(4 + |ip|), NLA_F_NESTED + IPSET_ATTR_IP) && cidr == NlAttr(5, IPSET_ATTR_CIDR)
      && data == NlAttr(Length(setname, ip, masked) - DataAt(setname), NLA_F_NESTED + IPSET_ATTR_DATA)
      && 28 + AlignSize(name) == DataAt(setname) && DataAt(setname) + 8 + AlignSize(addr) == MaskAt(setname, ip)
      && 28 + AlignSize(name) + AlignSize(data) == Length(setname, ip, masked)
      && DataAt(setname) + 12 + |ip| <= MaskAt(setname, ip)
      && MaskAt(setname, ip) + (if masked then 8 else 0) == Length(setname, ip, masked)
  {
    hide Align4, Truncate16;
    SizesFit(setname, ip, masked);
  }

  /** Everything up to the address, which the two kinds of message share. */
  method WriteToAddress(setname: seq<u8>, ipvec: seq<u8>, length: u32, attr2: NlAttr, attr3: NlAttr, attr4: NlAttr,
                        attr5: NlAttr, out: array<u8>, big: bool)
    returns (ghost pieces: seq<Piece>)
    requires DataAt(setname) + 12 + |ipvec| <= out.Length && |setname| <= 0xFFFF - 4
    requires attr2.len == 4 + |setname|
    modifies out
    ensures var p := DataAt(setname);
      && pieces == [Piece(0, HeadBytes(big, length)), Piece(16, NfGenBytes(big)),
                    Piece(20, AttrBytes(big, NlAttr(5, IPSET_ATTR_PROTOCOL))), Piece(24, [IPSET_PROTOCOL]),
                    Piece(28, AttrBytes(big, attr2)), Piece(32, setname), Piece(p, AttrBytes(big, attr3)),
                    Piece(p + 4, AttrBytes(big, attr4)), Piece(p + 8, AttrBytes(big, attr5)), Piece(p + 12, ipvec)]
      && Holding(old(out[..]), out[..], pieces, p + 12 + |ipvec|)
  {
    hide Holding, HeadBytes, NfGenBytes, AttrBytes, Put;
    ghost var s := out[..];
    var attr1 := NewData(IPSET_ATTR_PROTOCOL, 1);
    assert attr1 == NlAttr(5, IPSET_ATTR_PROTOCOL);
    var written := 0;
    HoldingNothing(s);
    WriteHead(out, length, big);
    HoldingMore(s, s, [], 0, 0, HeadBytes(big, length));
    written := written + 16;
    pieces := [] + [Piece(0, HeadBytes(big, length))];
    ghost var mid := out[..];
    WriteNfGen(out, written, big);
    HoldingMore(s, mid, pieces, 16, 16, NfGenBytes(big));
    written := written + 4;
    pieces := pieces + [Piece(16, NfGenBytes(big))];
    WriteAttr(out, written, attr1, big, s, pieces, 20);
    pieces := pieces + [Piece(20, AttrBytes(big, attr1))];
    WritePayload(out, written + 4, [IPSET_PROTOCOL], s, pieces, 24);
    written := written + AlignSize(attr1);
    pieces := pieces + [Piece(24, [IPSET_PROTOCOL])];
    WriteAttr(out, written, attr2, big, s, pieces, 25);
    pieces := pieces + [Piece(28, AttrBytes(big, attr2))];
    WritePayload(out, written + 4, setname, s, pieces, 32);
    written := written + AlignSize(attr2);
    pieces := pieces + [Piece(32, setname)];
    WriteAttr(out, written, attr3, big, s, pieces, 32 + |setname|);
    pieces := pieces + [Piece(written, AttrBytes(big, attr3))];
    WriteAttr(out, written + 4, attr4, big, s, pieces, written + 4);
    pieces := pieces + [Piece(written + 4, AttrBytes(big, attr4))];
    WriteAttr(out, written + 8, attr5, big, s, pieces, written + 8);
    pieces := pieces + [Piece(written + 8, AttrBytes(big, attr5))];
    WritePayload(out, written + 12, ipvec, s, pieces, written + 12);
    pieces := pieces + [Piece(written + 12, ipvec)];
  }

  lemma HoldingNothing(s: seq<u8>)
    ensures Holding(s, s, [], 0)
  {
  }

  lemma PiecesOnPrefix(before: seq<u8>, s: seq<u8>, pieces: seq<Piece>, end: nat, length: nat)
    requires Holding(before, s, pieces, end) && end <= length <= |s|
    ensures forall i | 0 <= i < |pieces| :: Holds(s[..length], pieces[i].at, pieces[i].bs)
    ensures s[length..] == before[length..]
  {
    forall i | 0 <= i < |pieces|
      ensures Holds(s[..length], pieces[i].at, pieces[i].bs)
    {
      var from, to := pieces[i].at, pieces[i].at + |pieces[i].bs|;
      assert Holds(s, pieces[i].at, pieces[i].bs);
      assert s[..length][from..to] == s[from..to];
    }
    forall i: nat | length <= i < |s|
      ensures s[i] == before[i]
    {
      assert !Covers(pieces, i);
    }
  }

  /** What was written is the message, and no other byte, of the padding or behind
      it, has changed; if the buffer holds the padding of the last attribute as
      well, the message decodes to the entry. */
  ghost predicate IsMessage(big: bool, before: seq<u8>, after: seq<u8>, len: nat, setname: seq<u8>, addrKind: u16,
                            ip: seq<u8>, mask: Option<u8>)
    requires Length(setname, ip, mask.Some?) <= 0xFFFF
  {
    && len == Length(setname, ip, mask.Some?)
    && Holding(before, after, Pieces(big, setname, addrKind, ip, mask), |after|)
    && (len <= |after| ==>
          && after[len..] == before[len..]
          && Decode(big, after[..len], addrKind) ==
             Some((Head(len, MESSAGE_TYPE, NLM_F_REQUEST, 0, 0, AF_INET, 0, 0),
                   Entry([IPSET_PROTOCOL], setname, addrKind, ip, if mask.Some? then Some([mask.value]) else None))))
  }

  lemma MakesMessage(big: bool, before: seq<u8>, after: seq<u8>, end: nat, len: nat, setname: seq<u8>, addrKind: u16,
                     ip: seq<u8>, mask: Option<u8>)
    requires len == Length(setname, ip, mask.Some?) <= 0xFFFF && end <= len && end <= |after|
    requires Holding(before, after, Pieces(big, setname, addrKind, ip, mask), end)
    ensures IsMessage(big, before, after, len, setname, addrKind, ip, mask)
  {
    hide Decode, Pieces, Holds, Covers;
    if len <= |after| {
      PiecesOnPrefix(before, after, Pieces(big, setname, addrKind, ip, mask), end, len);
      PiecesDecode(big, after[..len], setname, addrKind, ip, mask);
    }
  }

  function AddrKind(iplen: nat): u16 {
    if iplen > 4 then IPSET_ATTR_IPADDR_IPV6 else IPSET_ATTR_IPADDR_IPV4
  }

  /** An address of four bytes goes under the kind of IPv4, a longer one under IPv6. */
  lemma AddrKinds(iplen: nat)
    ensures iplen <= 4 ==> AddrKind(iplen) == 1
    ensures iplen == 16 ==> AddrKind(iplen) == 2
  {
  }

  method ConstructIphashPacket(setname: seq<u8>, ipvec: seq<u8>, out: array<u8>, big: bool) returns (length: nat)
    requires DataAt(setname) + 12 + |ipvec| <= out.Length && Length(setname, ipvec, false) <= 0xFFFF
    modifies out
    ensures IsMessage(big, old(out[..]), out[..], length, setname, AddrKind(|ipvec|) + NLA_F_NET_BYTEORDER, ipvec, None)
  {
    hide Holding, IsMessage, HeadBytes, NfGenBytes, AttrBytes, NewData, AlignSize, Align4, Truncate16, MaskAt, DataAt, Length;
    AttrsFit(setname, ipvec, AddrKind(|ipvec|) + NLA_F_NET_BYTEORDER, false);
    var attr2 := NewData(IPSET_ATTR_SETNAME, Truncate16(|setname|));
    var attr5 := NewData(AddrKind(|ipvec|) + NLA_F_NET_BYTEORDER, Truncate16(|ipvec|));
    var attr4 := NewData(NLA_F_NESTED + IPSET_ATTR_IP, Truncate16(AlignSize(attr5)));
    var attr3 := NewData(NLA_F_NESTED + IPSET_ATTR_DATA, Truncate16(AlignSize(attr4)));
    length := 16 + 4 + 8 + AlignSize(attr2) + AlignSize(attr3);
    ghost var s := out[..];
    ghost var pieces := WriteToAddress(setname, ipvec, length, attr2, attr3, attr4, attr5, out, big);
    assert pieces == Pieces(big, setname, AddrKind(|ipvec|) + NLA_F_NET_BYTEORDER, ipvec, None);
    MakesMessage(big, s, out[..], DataAt(setname) + 12 + |ipvec|, length, setname,
                 AddrKind(|ipvec|) + NLA_F_NET_BYTEORDER, ipvec, None);
  }

  method ConstructV4NethashPacket(setname: seq<u8>, ipvec: seq<u8>, mask: u8, out: array<u8>, big: bool) returns (length: nat)
    requires MaskAt(setname, ipvec) + 5 <= out.Length && Length(setname, ipvec, true) <= 0xFFFF
    modifies out
    ensures IsMessage(big, old(out[..]), out[..], length, setname, IPSET_ATTR_IPADDR_IPV4 + NLA_F_NET_BYTEORDER, ipvec,
                      Some(mask))
  {
    hide Holding, IsMessage, HeadBytes, NfGenBytes, AttrBytes, NewData, AlignSize, Align4, Truncate16, MaskAt, DataAt, Length;
    var kind := IPSET_ATTR_IPADDR_IPV4 + NLA_F_NET_BYTEORDER;
    AttrsFit(setname, ipvec, kind, true);
    var attr2 := NewData(IPSET_ATTR_SETNAME, Truncate16(|setname|));
    var attr6 := NewData(IPSET_ATTR_CIDR, 1);
    var attr5 := NewData(kind, Truncate16(|ipvec|));
    var attr4 := NewData(NLA_F_NESTED + IPSET_ATTR_IP, Truncate16(AlignSize(attr5)));
    var attr3 := NewData(NLA_F_NESTED + IPSET_ATTR_DATA, Truncate16(AlignSize(attr4) + AlignSize(attr6)));
    length := 16 + 4 + 8 + AlignSize(attr2) + AlignSize(attr3);
    ghost var s := out[..];
    ghost var pieces := WriteToAddress(setname, ipvec, length, attr2, attr3, attr4, attr5, out, big);
    var p := 28 + AlignSize(attr2);
    var written := p + 8 + AlignSize(attr5);
    WriteAttr(out, written, attr6, big, s, pieces, p + 12 + |ipvec|);
    pieces := pieces + [Piece(written, AttrBytes(big, attr6))];
    WritePayload(out, written + 4, [mask], s, pieces, written + 4);
    pieces := pieces + [Piece(written + 4, [mask])];
    assert pieces == Pieces(big, setname, kind, ipvec, Some(mask));
    MakesMessage(big, s, out[..], written + 5, length, setname, kind, ipvec, Some(mask));
  }
}
