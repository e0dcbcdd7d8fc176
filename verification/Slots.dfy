/** The request slots of a tunnel (`Reqq`): a table of tagged slots and a stack
    of free indexes. A tag is bumped at every allocation and at every release,
    so a slot is in use exactly while its tag is odd. */
module Slots {
  import opened Bytes
  import opened Counting
  import opened Wire

  /** A request's outgoing channel, by identity. */
  type Channel = nat

  datatype Slot = Slot(tag: u16, tx: Option<Channel>, armed: bool)

  datatype Pool = Pool(elements: seq<Slot>, free: seq<nat>)

  const NO_HANDLE := Handle(U16_MAX, U16_MAX)

  function Bump(tag: u16): u16 {
    Truncate16(tag + 1)
  }

  function Clean(s: Slot): Slot {
    Slot(Bump(s.tag), None, false)
  }

  // ----- the operations on values

  function Fresh(size: nat): Pool {
    Pool(seq(size, _ => Slot(0, None, false)), seq(size, i => size - 1 - i))
  }

  function Alloc(p: Pool, tx: Channel): (r: (Pool, Handle))
    requires forall i | i in p.free :: i < |p.elements| <= 0xFFFF
  {
    if p.free == [] then (p, NO_HANDLE)
    else
      var idx := p.free[|p.free| - 1];
      assert idx in p.free;
      var tag := Bump(p.elements[idx].tag);
      (Pool(p.elements[idx := Slot(tag, Some(tx), true)], p.free[..|p.free| - 1]), Handle(idx, tag))
  }

  function Free(p: Pool, h: Handle): (r: (Pool, bool)) {
    if h.idx >= |p.elements| || p.elements[h.idx].tag != h.tag then (p, false)
    else (Pool(p.elements[h.idx := Clean(p.elements[h.idx])], p.free + [h.idx]), true)
  }

  function ClearAll(p: Pool): (r: Pool)
    ensures r.free == [] && |r.elements| == |p.elements|
    ensures forall i | 0 <= i < |p.elements| :: r.elements[i] == Clean(p.elements[i])
  {
    Pool(seq(|p.elements|, i requires 0 <= i < |p.elements| => Clean(p.elements[i])), [])
  }

  // ----- the invariant

  predicate InUse(s: Slot) {
    s.tag % 2 == 1
  }

  /** `free` lists exactly the unused slots, each once, and only slots in use
      hold a channel. */
  ghost predicate Conserved(p: Pool) {
    && |p.elements| <= 0xFFFF
    && NoDup(p.free)
    && (forall i | i in p.free :: i < |p.elements|)
    && (forall i | 0 <= i < |p.elements| :: i in p.free <==> !InUse(p.elements[i]))
    && (forall i | 0 <= i < |p.elements| :: p.elements[i].tx.Some? ==> InUse(p.elements[i]))
  }

  lemma FreshIsConserved(size: nat)
    requires size <= 0xFFFF
    ensures Conserved(Fresh(size)) && |Fresh(size).free| == size
    ensures forall k | 0 <= k < size :: Fresh(size).free[k] == size - 1 - k
  {
    var p := Fresh(size);
    forall i | 0 <= i < size
      ensures i in p.free
    {
      assert p.free[size - 1 - i] == i;
    }
  }

  lemma PopKeeps(free: seq<nat>)
    requires NoDup(free) && free != []
    ensures var n := |free| - 1;
      NoDup(free[..n]) && forall i :: i in free[..n] <==> i in free && i != free[n]
  {
    var n := |free| - 1;
    assert free == free[..n] + [free[n]];
    forall i
      ensures i in free[..n] <==> i in free && i != free[n]
    {
      if i in free && i != free[n] {
        var k :| 0 <= k < |free| && free[k] == i;
        assert free[..n][k] == i;
      }
    }
  }

  lemma TakingKeeps(p: Pool, s: Slot)
    requires Conserved(p) && p.free != [] && InUse(s)
    ensures var n := |p.free| - 1; var idx := p.free[n];
      idx < |p.elements| && !InUse(p.elements[idx]) && Conserved(Pool(p.elements[idx := s], p.free[..n]))
  {
    assert p.free[|p.free| - 1] in p.free;
    PopKeeps(p.free);
  }

  lemma NoneIsFree(p: Pool)
    requires Conserved(p) && p.free == []
    ensures forall s | s in p.elements :: InUse(s)
  {
    forall s | s in p.elements
      ensures InUse(s)
    {
      var i :| 0 <= i < |p.elements| && p.elements[i] == s;
    }
  }

  /** A failed allocation means that every slot is in use; a successful one
      returns a slot that was free, under a tag that is odd and new to it. */
  lemma AllocKeeps(p: Pool, tx: Channel)
    requires Conserved(p)
    ensures var (q, h) := Alloc(p, tx);
      && Conserved(q) && |q.elements| == |p.elements|
      && (h == NO_HANDLE <==> forall s | s in p.elements :: InUse(s))
      && (h == NO_HANDLE ==> q == p)
      && (h != NO_HANDLE ==>
            && h.idx in p.free && |q.free| == |p.free| - 1
            && h.tag == Bump(p.elements[h.idx].tag) && h.tag % 2 == 1
            && q.elements == p.elements[h.idx := Slot(h.tag, Some(tx), true)])
  {
    SizeIsSmall(p);
    if p.free != [] {
      hide Conserved, NoDup;
      assert p.free[|p.free| - 1] in p.free;
      var (q, h) := Alloc(p, tx);
      assert p.elements[h.idx] in p.elements;
      LastIsUnused(p);
      TakingKeeps(p, Slot(h.tag, Some(tx), true));
    } else {
      NoneIsFree(p);
    }
  }

  lemma SizeIsSmall(p: Pool)
    requires Conserved(p)
    ensures |p.elements| <= 0xFFFF && forall i | i in p.free :: i < |p.elements|
  {
  }

  lemma LastIsUnused(p: Pool)
    requires Conserved(p) && p.free != []
    ensures var idx := p.free[|p.free| - 1];
      idx < |p.elements| && !InUse(p.elements[idx]) && Bump(p.elements[idx].tag) % 2 == 1
  {
    assert p.free[|p.free| - 1] in p.free;
  }

  /** The case `free` does not guard against: the current tag of an unused slot. */
  predicate FreesUnused(p: Pool, h: Handle) {
    h.idx < |p.elements| && p.elements[h.idx].tag == h.tag && h.tag % 2 == 0
  }

  /** `free` keeps the slots conserved if and only if it is not given the
      current tag of an unused slot; and then it frees at most the slot in use
      under that very tag. */
  lemma FreeKeepsIff(p: Pool, h: Handle)
    requires Conserved(p)
    ensures Conserved(Free(p, h).0) <==> !FreesUnused(p, h)
    ensures Free(p, h).1 <==> h.idx < |p.elements| && p.elements[h.idx].tag == h.tag
    ensures Free(p, h).1 ==> |Free(p, h).0.free| == |p.free| + 1
  {
    var (q, ok) := Free(p, h);
    if ok {
      assert q.free[|p.free|] == h.idx;
      if FreesUnused(p, h) {
        var k :| 0 <= k < |p.free| && p.free[k] == h.idx;
        assert q.free[k] == q.free[|p.free|];
        assert !NoDup(q.free);
      } else {
        assert h.idx !in p.free;
        forall i | 0 <= i < |p.elements|
          ensures i in q.free <==> i in p.free || i == h.idx
        {
        }
      }
    }
  }

  /** There are no more free entries than slots, and a slot in use is one that
      the free stack lacks. */
  lemma FreeIsBounded(p: Pool)
    requires Conserved(p)
    ensures |p.free| <= |p.elements|
    ensures (exists s | s in p.elements :: InUse(s)) ==> |p.free| < |p.elements|
  {
    var n := |p.elements|;
    DistinctCount(p.free);
    SubsetCount(Elems(p.free), Below(n));
    if s :| s in p.elements && InUse(s) {
      var i :| 0 <= i < n && p.elements[i] == s;
      assert i !in Elems(p.free);
      SubsetCount(Elems(p.free) + {i}, Below(n));
    }
  }

  // ----- Reqq

  class Reqq {
    var elements: seq<Slot>
    var free: seq<nat>

    ghost function Value(): Pool
      reads this
    {
      Pool(elements, free)
    }

    ghost predicate Valid()
      reads this
    {
      |elements| <= 0xFFFF && forall i | i in free :: i < |elements|
    }

    constructor (size: nat)
      requires size <= 0xFFFF
      ensures Valid() && Value() == Fresh(size)
    {
      elements, free := [], [];
      new;
      for n := 0 to size
        invariant |elements| == |free| == n
        invariant forall i | 0 <= i < n :: elements[i] == Slot(0, None, false) && free[i] == size - 1 - i
      {
        elements := elements + [Slot(0, None, false)];
        free := free + [size - 1 - n];
      }
      assert elements == Fresh(size).elements && free == Fresh(size).free;
    }

    method AllocSlot(tx: Channel) returns (h: Handle)
      requires Valid()
      modifies this
      ensures Valid() && (Value(), h) == Alloc(old(Value()), tx)
    {
      if |free| < 1 {
        return NO_HANDLE;
      }
      var idx := free[|free| - 1];
      assert idx in free;
      free := free[..|free| - 1];
      assert forall i | i in free :: i in old(free);
      var tag := Bump(elements[idx].tag);
      elements := elements[idx := Slot(tag, Some(tx), true)];
      return Handle(idx, tag);
    }

    method FreeSlot(h: Handle) returns (ok: bool)
      requires Valid()
      modifies this
      ensures Valid() && (Value(), ok) == Free(old(Value()), h)
    {
      if h.idx >= |elements| {
        return false;
      }
      if elements[h.idx].tag != h.tag {
        return false;
      }
      elements := elements[h.idx := Clean(elements[h.idx])];
      free := free + [h.idx];
      return true;
    }

    method ClearSlots()
      requires Valid()
      modifies this
      ensures Valid() && Value() == ClearAll(old(Value()))
    {
      var n := 0;
      while n < |elements|
        invariant n <= |elements| == |old(elements)| && free == old(free)
        invariant forall i | 0 <= i < n :: elements[i] == Clean(old(elements)[i])
        invariant forall i | n <= i < |elements| :: elements[i] == old(elements)[i]
      {
        elements := elements[n := Clean(elements[n])];
        n := n + 1;
      }
      free := [];
      assert elements == ClearAll(old(Value())).elements;
    }
  }
}
