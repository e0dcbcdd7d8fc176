/** Machine integers, byte sequences and the two byte orders of the wire formats.
    Integers wrap as in a release build: wherever the code can overflow, the
    model writes the wrap out. */
module Bytes {

  type u8 = x: int | 0 <= x < 0x100
  type u16 = x: int | 0 <= x < 0x1_0000
  type u32 = x: int | 0 <= x < 0x1_0000_0000

  const U16_MAX: u16 := 0xFFFF

  datatype Option<+T> = None | Some(value: T)

  function Min(a: nat, b: nat): nat {
    if a < b then a else b
  }

  /** The conversion `as u16`. */
  function Truncate16(n: nat): (r: u16) {
    if n < 0x1_0000 then n else n % 0x1_0000
  }

  /** Little-endian 16 bits. */
  function Le16(v: u16): (bs: seq<u8>)
    ensures |bs| == 2 && FromLe16(bs[0], bs[1]) == v
  {
    [v % 256, v / 256]
  }

  function FromLe16(lo: u8, hi: u8): (v: u16) {
    lo + 256 * hi
  }

  /** Big-endian 16 bits. */
  function Be16(v: u16): (bs: seq<u8>)
    ensures |bs| == 2 && FromBe16(bs[0], bs[1]) == v
  {
    [v / 256, v % 256]
  }

  function FromBe16(hi: u8, lo: u8): (v: u16) {
    hi * 256 + lo
  }

  /** Big-endian 32 bits. */
  function Be32(v: u32): (bs: seq<u8>)
    ensures |bs| == 4 && FromBe32(bs[0], bs[1], bs[2], bs[3]) == v
  {
    Be16(v / 0x1_0000) + Be16(v % 0x1_0000)
  }

  function FromBe32(a: u8, b: u8, c: u8, d: u8): (v: u32) {
    FromBe16(a, b) * 0x1_0000 + FromBe16(c, d)
  }

  lemma Assoc<T>(a: seq<T>, b: seq<T>, c: seq<T>)
    ensures (a + b) + c == a + (b + c)
  {
  }

  lemma HeadTail<T>(a: seq<T>, b: seq<T>)
    requires a != []
    ensures a == [a[0]] + a[1..] && a + b == [a[0]] + (a[1..] + b)
  {
  }

  /** All the parts one after the other. */
  function Concat(parts: seq<seq<u8>>): (bs: seq<u8>) {
    if parts == [] then [] else parts[0] + Concat(parts[1..])
  }

  lemma {:induction false} ConcatSplit(a: seq<seq<u8>>, b: seq<seq<u8>>)
    ensures Concat(a + b) == Concat(a) + Concat(b)
  {
    if a == [] {
      assert a + b == b;
    } else {
      ConcatSplit(a[1..], b);
      Assoc(a[0], Concat(a[1..]), Concat(b));
      assert (a + b)[1..] == a[1..] + b;
    }
  }

  lemma ConcatMore(parts: seq<seq<u8>>, part: seq<u8>, rest: seq<u8>)
    ensures Concat(parts + [part]) + rest == Concat(parts) + (part + rest)
  {
    ConcatSplit(parts, [part]);
    assert Concat([part]) == part + [];
    Assoc(Concat(parts), part, rest);
  }
}
