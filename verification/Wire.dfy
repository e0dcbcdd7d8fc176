/** Tunnel frames: a little-endian length, a command byte and, for most
    commands, a request handle in front of the payload. */
module Wire {
  import opened Bytes
  import opened Transport
  import opened Framing
  import opened Outbound

  const THEADER_SIZE := 4
  const PREFIX := 3 + THEADER_SIZE
  const CHUNK_MAX := DEFAULT_CAP - PREFIX

  datatype Cmd =
    | NoCmd | ReqData | ReqCreated | ReqClientClosed | ReqClientFinished | ReqServerFinished
    | ReqServerClosed | ReqClientQuota | Ping | Pong | UdpX

  function CmdNumber(c: Cmd): (n: u8) {
    match c
    case NoCmd => 0
    case ReqData => 1
    case ReqCreated => 2
    case ReqClientClosed => 3
    case ReqClientFinished => 4
    case ReqServerFinished => 5
    case ReqServerClosed => 6
    case ReqClientQuota => 7
    case Ping => 8
    case Pong => 9
    case UdpX => 10
  }

  /** `Cmd::from`; `None` is its panic. */
  function CmdFrom(n: u8): (r: Option<Cmd>)
    ensures r.Some? <==> n <= 10
    ensures r.Some? ==> CmdNumber(r.value) == n
  {
    match n
    case 0 => Some(NoCmd)
    case 1 => Some(ReqData)
    case 2 => Some(ReqCreated)
    case 3 => Some(ReqClientClosed)
    case 4 => Some(ReqClientFinished)
    case 5 => Some(ReqServerFinished)
    case 6 => Some(ReqServerClosed)
    case 7 => Some(ReqClientQuota)
    case 8 => Some(Ping)
    case 9 => Some(Pong)
    case 10 => Some(UdpX)
    case _ => None
  }

  /** Every command is read back from its number. */
  lemma CmdRoundTrip(c: Cmd)
    ensures CmdFrom(CmdNumber(c)) == Some(c)
  {
  }

  /** The commands in the order of their numbers. */
  const COMMANDS: seq<Cmd> :=
    [NoCmd, ReqData, ReqCreated, ReqClientClosed, ReqClientFinished, ReqServerFinished,
     ReqServerClosed, ReqClientQuota, Ping, Pong, UdpX]

  /** They count up from 0. */
  lemma CommandsCountUp(n: u8)
    ensures CmdFrom(n) == if n < |COMMANDS| then Some(COMMANDS[n]) else None
    ensures n < |COMMANDS| ==> CmdNumber(COMMANDS[n]) == n
  {
  }

  datatype Handle = Handle(idx: u16, tag: u16)

  function HandleBytes(h: Handle): seq<u8> {
    Le16(h.idx) + Le16(h.tag)
  }

  function ReadHandle(bs: seq<u8>): Handle
    requires |bs| >= THEADER_SIZE
  {
    Handle(FromLe16(bs[0], bs[1]), FromLe16(bs[2], bs[3]))
  }

  /** A frame that carries a handle, as a byte string. */
  function Encode(cmd: Cmd, h: Handle, payload: seq<u8>): (f: seq<u8>)
    ensures |f| == PREFIX + |payload|
  {
    Le16(Truncate16(PREFIX + |payload|)) + [CmdNumber(cmd)] + HandleBytes(h) + payload
  }

  // ----- reading a frame

  /** `&bs[2..]`, then the command byte; `None` is a panic. */
  function CmdOf(f: seq<u8>): (r: Option<Cmd>) {
    if |f| < 3 then None else CmdFrom(f[2])
  }

  /** `THeader::read_from` behind the command byte; `None` is a panic. */
  function HandleOf(f: seq<u8>): (r: Option<Handle>) {
    if |f| < PREFIX then None else Some(ReadHandle(f[3..]))
  }

  lemma EncodedIsFrame(cmd: Cmd, h: Handle, payload: seq<u8>)
    ensures IsFrame(Encode(cmd, h, payload)) <==> |payload| <= CHUNK_MAX
  {
    hide HandleBytes, CmdNumber, Le16;
    var f := Encode(cmd, h, payload);
    var head := Le16(Truncate16(|f|));
    assert f[0] == head[0] && f[1] == head[1];
  }

  /** Encoding and the readers are inverse, and a frame is accepted by the
      decoder exactly when its payload is at most 8089 bytes. */
  lemma EncodeRoundTrip(cmd: Cmd, h: Handle, payload: seq<u8>)
    ensures var f := Encode(cmd, h, payload);
            CmdOf(f) == Some(cmd) && HandleOf(f) == Some(h) && f[PREFIX..] == payload
    ensures IsFrame(Encode(cmd, h, payload)) <==> |payload| <= CHUNK_MAX
  {
    hide IsFrame, Le16, Truncate16;
    EncodedIsFrame(cmd, h, payload);
    var f := Encode(cmd, h, payload);
    assert f[2] == CmdNumber(cmd);
    assert f[3..][..4] == HandleBytes(h);
    assert f[3..][0] == HandleBytes(h)[0] && f[3..][1] == HandleBytes(h)[1];
    assert f[3..][2] == HandleBytes(h)[2] && f[3..][3] == HandleBytes(h)[3];
  }

  /** The bytes of a frame: its length, the little end first, the command, the slot
      and the tag, and the payload. */
  lemma FrameLayout(cmd: Cmd, h: Handle, payload: seq<u8>)
    requires |payload| <= CHUNK_MAX
    ensures var n := 7 + |payload|;
      Encode(cmd, h, payload) ==
        [n % 256, n / 256, CmdNumber(cmd), h.idx % 256, h.idx / 256, h.tag % 256, h.tag / 256] + payload
  {
  }

  // ----- writing a frame in place

  method WriteLe16(bs: array<u8>, offset: nat, v: u16)
    requires offset + 2 <= bs.Length
    modifies bs
    ensures bs[offset] == v % 256 && bs[offset + 1] == v / 256
    ensures forall i | 0 <= i < bs.Length && i != offset && i != offset + 1 :: bs[i] == old(bs[i])
  {
    bs[offset], bs[offset + 1] := v % 256, v / 256;
  }

  /** `on_request_msg` of either end: the seven bytes kept free in front of the
      chunk become the frame's header. */
  method StampData(vec: array<u8>, h: Handle)
    requires PREFIX <= vec.Length
    modifies vec
    ensures vec[..] == Encode(ReqData, h, old(vec[PREFIX..]))
  {
    ghost var payload := vec[PREFIX..];
    WriteLe16(vec, 0, Truncate16(vec.Length));
    vec[2] := CmdNumber(ReqData);
    WriteLe16(vec, 3, h.idx);
    WriteLe16(vec, 5, h.tag);
    HeaderIs(vec[..], Truncate16(vec.Length), h, payload);
  }

  /** Seven bytes and a payload make a frame. */
  lemma HeaderIs(bs: seq<u8>, length: u16, h: Handle, payload: seq<u8>)
    requires |bs| == PREFIX + |payload| && length == Truncate16(|bs|)
    requires bs[0] == length % 256 && bs[1] == length / 256 && bs[2] == CmdNumber(ReqData)
    requires bs[3] == h.idx % 256 && bs[4] == h.idx / 256 && bs[5] == h.tag % 256 && bs[6] == h.tag / 256
    requires forall i | 0 <= i < |payload| :: bs[PREFIX + i] == payload[i]
    ensures bs == Encode(ReqData, h, payload)
  {
    var f := Encode(ReqData, h, payload);
    assert f[0] == bs[0] && f[1] == bs[1] && f[2] == bs[2] && f[3] == bs[3];
    assert f[4] == bs[4] && f[5] == bs[5] && f[6] == bs[6];
  }
}
