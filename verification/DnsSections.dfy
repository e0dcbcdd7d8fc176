/** Lists of things one after the other in a message, whatever the things are. */
module DnsSections {
  import opened Bytes
  import opened DnsNames
  import opened DnsBuffer

  /** The bytes of all of them; refused if one is. */
  function AllBytes<T>(enc: T -> Option<seq<u8>>, xs: seq<T>): Option<seq<u8>> {
    if xs == [] then Some([]) else Cat(enc(xs[0]), AllBytes(enc, xs[1..]))
  }

  /** `n` of them, each read from where the last one ended. */
  function ReadAll<T>(dec: nat -> Decoded<T>, pos: nat, n: nat): Decoded<seq<T>>
    decreases n
  {
    if n == 0 then Got([], pos)
    else
      var (x, p1) :- dec(pos);
      var (rest, p2) :- ReadAll(dec, p1, n - 1);
      Got([x] + rest, p2)
  }

  /** What `enc` leaves of `x`, if it is `ok`, `dec` reads back. */
  ghost predicate Inverts<T>(buf: Packet512, enc: T -> Option<seq<u8>>, dec: nat -> Decoded<T>, ok: T -> bool,
                             x: T, p: nat) {
    ok(x) && enc(x).Some? && At(buf, p, enc(x).value) ==>
      enc(x).value != [] && dec(p) == Got(x, p + |enc(x).value|)
  }

  ghost predicate Inverse<T(!new)>(buf: Packet512, enc: T -> Option<seq<u8>>, dec: nat -> Decoded<T>, ok: T -> bool) {
    forall x, p: nat :: Inverts(buf, enc, dec, ok, x, p)
  }

  /** Then what is left of a list of them is read back as that list. */
  lemma {:induction false} AllRoundTrip<T(!new)>(
      buf: Packet512, enc: T -> Option<seq<u8>>, dec: nat -> Decoded<T>, ok: T -> bool, pos: nat, xs: seq<T>)
    requires Inverse(buf, enc, dec, ok) && (forall i | 0 <= i < |xs| :: ok(xs[i]))
    requires AllBytes(enc, xs).Some? && At(buf, pos, AllBytes(enc, xs).value)
    ensures |AllBytes(enc, xs).value| >= |xs|
    ensures ReadAll(dec, pos, |xs|) == Got(xs, pos + |AllBytes(enc, xs).value|)
    decreases |xs|
  {
    if xs != [] {
      var front, rest := enc(xs[0]).value, AllBytes(enc, xs[1..]).value;
      AtSplit(buf, pos, front, rest);
      assert Inverts(buf, enc, dec, ok, xs[0], pos);
      AllRoundTrip(buf, enc, dec, ok, pos + |front|, xs[1..]);
      assert xs == [xs[0]] + xs[1..];
    }
  }

  lemma {:induction false} AllBytesSplit<T>(enc: T -> Option<seq<u8>>, a: seq<T>, b: seq<T>)
    ensures AllBytes(enc, a + b) == Cat(AllBytes(enc, a), AllBytes(enc, b))
  {
    if a == [] {
      assert a + b == b;
      assert AllBytes(enc, b).Some? ==> [] + AllBytes(enc, b).value == AllBytes(enc, b).value;
    } else {
      AllBytesSplit(enc, a[1..], b);
      assert (a + b)[1..] == a[1..] + b;
      var x, y, z := enc(a[0]), AllBytes(enc, a[1..]), AllBytes(enc, b);
      if x.Some? && y.Some? && z.Some? {
        Assoc(x.value, y.value, z.value);
      }
    }
  }

  function NextOf<T>(d: Decoded<T>): Option<nat> {
    if d.Got? then Some(d.next) else None
  }

  /** Reading `n` of them from `pos` ends at `end`. */
  ghost predicate EndsAt<T>(dec: nat -> Decoded<T>, pos: nat, n: nat, end: nat) {
    NextOf(ReadAll(dec, pos, n)) == Some(end)
  }

  ghost predicate Advances<T>(dec: nat -> Decoded<T>) {
    forall p :: dec(p).Got? ==> dec(p).next > p
  }

  /** Reading `m` and then `n` ends where reading `m + n` ends. */
  lemma {:induction false} ReadAllSplit<T>(dec: nat -> Decoded<T>, pos: nat, m: nat, n: nat)
    ensures NextOf(ReadAll(dec, pos, m + n)) ==
            match NextOf(ReadAll(dec, pos, m)) case None => None case Some(p) => NextOf(ReadAll(dec, p, n))
    decreases m
  {
    if m > 0 && dec(pos).Got? {
      ReadAllSplit(dec, dec(pos).next, m - 1, n);
    }
  }

  /** If every reading moves on, `n` of them move on by at least `n`. */
  lemma {:induction false} ReadAllAdvances<T>(dec: nat -> Decoded<T>, pos: nat, n: nat)
    requires Advances(dec)
    ensures ReadAll(dec, pos, n).Got? ==> ReadAll(dec, pos, n).next >= pos + n && |ReadAll(dec, pos, n).value| == n
    decreases n
  {
    if n > 0 && dec(pos).Got? {
      ReadAllAdvances(dec, dec(pos).next, n - 1);
    }
  }

  /** Three lists one after the other end where one list of them all ends; if a
      part of that list already ends there, it is the whole of it. */
  lemma ThreeListsEnd<T>(dec: nat -> Decoded<T>, p2: nat, a: nat, p3: nat, b: nat, p4: nat, c: nat, end: nat, m: nat)
    requires Advances(dec) && m <= a + b + c && EndsAt(dec, p2, m, end)
    requires EndsAt(dec, p2, a, p3) && EndsAt(dec, p3, b, p4) && EndsAt(dec, p4, c, end)
    ensures m == a + b + c
  {
    ReadAllSplit(dec, p2, a, b);
    ReadAllSplit(dec, p2, a + b, c);
    var more := a + b + c - m;
    ReadAllSplit(dec, p2, m, more);
    ReadAllAdvances(dec, end, more);
  }

  lemma ReadingEnds<T>(dec: nat -> Decoded<T>, pos: nat, n: nat, xs: seq<T>, end: nat)
    requires ReadAll(dec, pos, n) == Got(xs, end)
    ensures EndsAt(dec, pos, n, end)
  {
  }
}
