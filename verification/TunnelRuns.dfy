/** Whole runs of a tunnel. A run is any sequence of steps; its trace remembers
    which tags every slot has issued and which handles were released. */
module TunnelRuns {
  import opened Bytes
  import opened Counting
  import opened Outbound
  import opened Wire
  import opened Slots
  import opened Tunnels

  datatype Step =
    | Open(tx: Channel, target: seq<u8>)
    | Close(handle: Handle)
    | Message(frame: seq<u8>)

  /** `issued[i]` are the tags of slot `i`'s allocations, oldest first. */
  datatype Trace = Trace(t: TunState, issued: seq<seq<u16>>, released: multiset<Handle>, log: seq<Effect>)

  function Start(capacity: u16): Trace {
    Trace(NewTunnel(capacity), seq(capacity, _ => []), multiset{}, [])
  }

  /** The handle a step asks to release. */
  function Closes(s: Step): Option<Handle> {
    match s
    case Open(_, _) => None
    case Close(h) => Some(h)
    case Message(f) => ClosedBy(f)
  }

  /** What the allocator relies on. */
  ghost predicate InBounds(p: Pool) {
    forall i | i in p.free :: i < |p.elements| <= 0xFFFF
  }

  /** The state after a step, and what it sends; `None` when the handler panics. */
  ghost function Apply(t: TunState, s: Step): Option<(TunState, seq<Effect>)>
    requires InBounds(t.pool)
  {
    match s
    case Open(tx, target) =>
      var (t', _, effects) := OpenRequest(t, tx, target);
      Some((t', effects))
    case Close(h) => Some(CloseRequest(t, h))
    case Message(f) => Receive(t, f)
  }

  /** One step of a live tunnel, remembered in its trace. */
  ghost function Next(tr: Trace, s: Step): Option<Trace>
    requires Conserved(tr.t.pool) && |tr.issued| == |tr.t.pool.elements|
  {
    match Apply(tr.t, s)
    case None => None
    case Some((t, effects)) =>
      var h := if s.Open? then OpenRequest(tr.t, s.tx, s.target).1 else None;
      assert h.Some? ==> h.value.idx < |tr.issued| by { if s.Open? { AllocKeeps(tr.t.pool, s.tx); } }
      var issued := if h.None? then tr.issued
                    else tr.issued[h.value.idx := tr.issued[h.value.idx] + [h.value.tag]];
      var released := if Closes(s).Some? && Free(tr.t.pool, Closes(s).value).1
                      then tr.released + multiset{Closes(s).value} else tr.released;
      Some(Trace(t, issued, released, tr.log + effects))
  }

  // ----- tags

  /** The tag of a slot's allocation number `k`, counting from 0. */
  function TagOf(k: nat): u16 {
    Truncate16(2 * k + 1)
  }

  /** Two allocations of a slot share a tag exactly when they are a multiple of
      32768 allocations apart. */
  lemma TagsRepeat(j: nat, k: nat)
    requires j <= k
    ensures TagOf(j) == TagOf(k) <==> (k - j) % 0x8000 == 0
  {
    var d := k - j;
    assert 2 * k + 1 == 2 * j + 1 + 2 * d;
    assert (2 * d) % 0x1_0000 == 2 * (d % 0x8000);
  }

  // ----- the invariant

  /** Every slot's tag says how often it was allocated and whether it is in use. */
  ghost predicate Tagged(tr: Trace, i: nat)
    requires i < |tr.issued| == |tr.t.pool.elements|
  {
    var n, tag := |tr.issued[i]|, tr.t.pool.elements[i].tag;
    && (forall k | 0 <= k < n :: tr.issued[i][k] == TagOf(k))
    && (if tag % 2 == 1 then n > 0 && tag == TagOf(n - 1) else tag == Truncate16(2 * n))
  }

  /** Number of finished allocations of a slot. */
  ghost function Done(tr: Trace, i: nat): int
    requires i < |tr.issued| == |tr.t.pool.elements|
  {
    |tr.issued[i]| - if InUse(tr.t.pool.elements[i]) then 1 else 0
  }

  /** Within the first 32768 allocations of a slot, exactly the finished ones
      were released, each once. */
  ghost predicate ReleasedOnce(tr: Trace, i: nat)
    requires i < |tr.issued| == |tr.t.pool.elements|
  {
    |tr.issued[i]| <= 0x8000 ==>
      forall k: nat {:trigger TagOf(k)} | k < 0x8000 ::
        tr.released[Handle(i, TagOf(k))] == if k < Done(tr, i) then 1 else 0
  }

  ghost predicate Inv(tr: Trace) {
    && Balanced(tr.t)
    && |tr.issued| == |tr.t.pool.elements|
    && (forall i | 0 <= i < |tr.issued| :: Tagged(tr, i) && ReleasedOnce(tr, i))
  }

  /** A peer, or a local request, only ever closes handles it was given. */
  ghost predicate Honest(tr: Trace, s: Step)
    requires |tr.issued| == |tr.t.pool.elements|
  {
    Closes(s).Some? && Closes(s).value.idx < |tr.issued| ==> Closes(s).value.tag in tr.issued[Closes(s).value.idx]
  }

  lemma StartIsInv(capacity: u16)
    ensures Inv(Start(capacity))
  {
    NewIsBalanced(capacity);
  }

  lemma AnnouncedIsOdd(tr: Trace, h: Handle)
    requires Inv(tr) && h.idx < |tr.issued| && h.tag in tr.issued[h.idx]
    ensures h.tag % 2 == 1
  {
    assert Tagged(tr, h.idx);
  }

  lemma BumpedTag(n: nat)
    ensures Bump(Truncate16(2 * n)) == TagOf(n) && TagOf(n) % 2 == 1
  {
  }

  lemma SmallTag(k: nat)
    requires k < 0x8000
    ensures TagOf(k) == 2 * k + 1
  {
  }

  lemma DoneTag(n: nat)
    requires n > 0
    ensures Bump(TagOf(n - 1)) == Truncate16(2 * n) && Truncate16(2 * n) % 2 == 0 && TagOf(n - 1) % 2 == 1
  {
  }

  /** The effect of an allocation on all slots. */
  lemma AllocatedKeepsInv(tr: Trace, tr': Trace, i: u16, tx: Channel)
    requires Inv(tr) && Balanced(tr'.t) && tr'.released == tr.released
    requires i < |tr.issued| && !InUse(tr.t.pool.elements[i])
    requires var tag := Bump(tr.t.pool.elements[i].tag);
      && tr'.issued == tr.issued[i := tr.issued[i] + [tag]]
      && tr'.t.pool.elements == tr.t.pool.elements[i := Slot(tag, Some(tx), true)]
    ensures Inv(tr')
  {
    hide NoDup, Truncate16, Balanced;
    assert Tagged(tr, i) && ReleasedOnce(tr, i);
    BumpedTag(|tr.issued[i]|);
    assert Done(tr', i) == Done(tr, i);
    assert Tagged(tr', i) && ReleasedOnce(tr', i);
    forall j | 0 <= j < |tr'.issued| && j != i
      ensures Tagged(tr', j) && ReleasedOnce(tr', j)
    {
      assert Tagged(tr, j) && ReleasedOnce(tr, j);
      assert tr'.t.pool.elements[j] == tr.t.pool.elements[j] && tr'.issued[j] == tr.issued[j];
    }
  }

  /** The released slot: its latest allocation is now finished. */
  lemma ReleasedSlot(tr: Trace, tr': Trace, h: Handle)
    requires Inv(tr) && tr'.issued == tr.issued && h.idx < |tr.issued|
    requires h.tag in tr.issued[h.idx] && h.tag == tr.t.pool.elements[h.idx].tag
    requires tr'.t.pool == Free(tr.t.pool, h).0
    requires tr'.released == tr.released + multiset{h}
    ensures Tagged(tr', h.idx) && ReleasedOnce(tr', h.idx)
  {
    hide Bump, Truncate16, Balanced;
    var i, n := h.idx, |tr.issued[h.idx]|;
    assert Tagged(tr, i) && ReleasedOnce(tr, i);
    AnnouncedIsOdd(tr, h);
    DoneTag(n);
    assert h.tag == TagOf(n - 1) && tr'.t.pool.elements[i].tag == Truncate16(2 * n);
    forall k: nat {:trigger TagOf(k)} | k < 0x8000 && n <= 0x8000
      ensures tr'.released[Handle(i, TagOf(k))] == if k < Done(tr', i) then 1 else 0
    {
      SmallTag(k);
      SmallTag(n - 1);
      assert Handle(i, TagOf(k)) == h <==> k == n - 1;
    }
  }

  /** The effect of a close on all slots, whichever side sends it. */
  lemma CloseKeepsInv(tr: Trace, tr': Trace, h: Handle)
    requires Inv(tr) && tr'.issued == tr.issued
    requires h.idx < |tr.issued| ==> h.tag in tr.issued[h.idx]
    requires tr'.t.pool == Free(tr.t.pool, h).0 && Balanced(tr'.t)
    requires tr'.released == if Free(tr.t.pool, h).1 then tr.released + multiset{h} else tr.released
    ensures Inv(tr')
  {
    var ok := Free(tr.t.pool, h).1;
    if ok {
      ReleasedSlot(tr, tr', h);
    }
    forall i | 0 <= i < |tr'.issued| && !(ok && i == h.idx)
      ensures Tagged(tr', i) && ReleasedOnce(tr', i)
    {
      assert Tagged(tr, i) && ReleasedOnce(tr, i);
      assert tr'.t.pool.elements[i] == tr.t.pool.elements[i];
      assert forall k: nat {:trigger TagOf(k)} | k < 0x8000 ::
        tr'.released[Handle(i, TagOf(k))] == tr.released[Handle(i, TagOf(k))];
    }
  }

  /** Nothing allocated and nothing released. */
  lemma SameTagsKeepInv(tr: Trace, tr': Trace)
    requires Inv(tr) && Balanced(tr'.t) && tr'.issued == tr.issued && tr'.released == tr.released
    requires |tr'.t.pool.elements| == |tr.t.pool.elements|
    requires forall i | 0 <= i < |tr.issued| :: tr'.t.pool.elements[i].tag == tr.t.pool.elements[i].tag
    ensures Inv(tr')
  {
    forall i | 0 <= i < |tr'.issued|
      ensures Tagged(tr', i) && ReleasedOnce(tr', i)
    {
      assert Tagged(tr, i) && ReleasedOnce(tr, i);
    }
  }

  lemma MessageKeepsInv(tr: Trace, f: seq<u8>)
    requires Inv(tr) && Honest(tr, Message(f)) && Next(tr, Message(f)).Some?
    ensures Inv(Next(tr, Message(f)).value)
  {
    var tr' := Next(tr, Message(f)).value;
    var c := ClosedBy(f);
    if c.Some? && c.value.idx < |tr.issued| {
      AnnouncedIsOdd(tr, c.value);
    }
    ReceiveKeepsIff(tr.t, f);
    if c.Some? {
      CloseKeepsInv(tr, tr', c.value);
    } else {
      if CmdOf(f) == Some(ReqServerFinished) {
        DropTxKeeps(tr.t.pool, HandleOf(f).value);
      }
      SameTagsKeepInv(tr, tr');
    }
  }

  lemma StepKeepsInv(tr: Trace, s: Step)
    requires Inv(tr) && Honest(tr, s) && Next(tr, s).Some?
    ensures Inv(Next(tr, s).value) && |Next(tr, s).value.issued| == |tr.issued|
  {
    match s
    case Open(tx, target) =>
      OpenKeeps(tr.t, tx, target);
      AllocKeeps(tr.t.pool, tx);
      var h := Alloc(tr.t.pool, tx).1;
      if h != NO_HANDLE {
        AllocatedKeepsInv(tr, Next(tr, s).value, h.idx, tx);
      } else {
        SameTagsKeepInv(tr, Next(tr, s).value);
      }
    case Message(f) => MessageKeepsInv(tr, f);
    case Close(h) =>
      if h.idx < |tr.issued| {
        AnnouncedIsOdd(tr, h);
      }
      ReleaseKeeps(tr.t, h);
      CloseKeepsInv(tr, Next(tr, s).value, h);
  }

  // ----- whole runs

  /** The trace after a run of steps; `None` if a handler panicked or a step
      was not honest. */
  ghost function RunFrom(tr: Trace, steps: seq<Step>): (r: Option<Trace>)
    requires Inv(tr)
    ensures r.Some? ==> Inv(r.value) && |r.value.issued| == |tr.issued|
    decreases |steps|
  {
    if steps == [] then Some(tr)
    else if !Honest(tr, steps[0]) || Next(tr, steps[0]).None? then None
    else
      StepKeepsInv(tr, steps[0]);
      RunFrom(Next(tr, steps[0]).value, steps[1..])
  }

  /** A run from the creation of the tunnel. */
  ghost function Run(capacity: u16, steps: seq<Step>): (r: Option<Trace>)
    ensures r.Some? ==> Inv(r.value) && |r.value.issued| == capacity
  {
    StartIsInv(capacity);
    RunFrom(Start(capacity), steps)
  }

  /** Slot conservation over every honest run: the free stack lists exactly the
      slots with an even tag, each once, and `req_count` counts the others. */
  lemma SlotsAreConserved(capacity: u16, steps: seq<Step>)
    requires Run(capacity, steps).Some?
    ensures var t := Run(capacity, steps).value.t;
      && NoDup(t.pool.free) && |t.pool.elements| == capacity
      && (forall i: nat :: i in t.pool.free <==> i < capacity && t.pool.elements[i].tag % 2 == 0)
      && t.reqCount + |t.pool.free| == capacity
  {
  }

  lemma SlotReleasedOnce(tr: Trace, i: nat)
    requires Inv(tr) && i < |tr.issued| <= 0xFFFF && |tr.issued[i]| <= 0x8000
    ensures var tags := tr.issued[i];
      && (forall j, k | 0 <= j < k < |tags| :: tags[j] != tags[k])
      && (forall k | 0 <= k < |tags| :: tr.released[Handle(i, tags[k])] ==
            if k == |tags| - 1 && InUse(tr.t.pool.elements[i]) then 0 else 1)
  {
    assert Tagged(tr, i) && ReleasedOnce(tr, i);
    forall k | 0 <= k < |tr.issued[i]|
      ensures tr.issued[i][k] == TagOf(k) == 2 * k + 1
    {
    }
  }

  /** Within the first 32768 allocations of a slot its handles are pairwise
      different, and each of them has been released exactly once if its slot has
      moved on since, and not at all otherwise. */
  lemma HandlesAreReleasedOnce(capacity: u16, steps: seq<Step>, i: nat)
    requires Run(capacity, steps).Some? && i < capacity
    requires |Run(capacity, steps).value.issued[i]| <= 0x8000
    ensures var tr := Run(capacity, steps).value; var tags := tr.issued[i];
      && (forall j, k | 0 <= j < k < |tags| :: tags[j] != tags[k])
      && (forall k | 0 <= k < |tags| :: tr.released[Handle(i, tags[k])] ==
            if k == |tags| - 1 && InUse(tr.t.pool.elements[i]) then 0 else 1)
  {
    SlotReleasedOnce(Run(capacity, steps).value, i);
  }

  /** A handle that was issued as allocation `k` of its slot still works exactly
      when the slot is in use and has been allocated a multiple of 32768 times
      since. */
  lemma StaleHandleWorksIff(tr: Trace, i: u16, k: nat)
    requires Inv(tr) && i < |tr.issued| && k < |tr.issued[i]|
    ensures Free(tr.t.pool, Handle(i, tr.issued[i][k])).1 <==>
            InUse(tr.t.pool.elements[i]) && (|tr.issued[i]| - 1 - k) % 0x8000 == 0
  {
    assert Tagged(tr, i);
    TagsRepeat(k, |tr.issued[i]| - 1);
  }

  // ----- a slot that is used again and again

  /** A tunnel of one slot, which is free. */
  ghost predicate IsIdle(tr: Trace) {
    Inv(tr) && |tr.issued| == 1 && tr.t.pool.free == [0]
  }

  /** A tunnel of one slot, which is in use. */
  ghost predicate IsTaken(tr: Trace) {
    Inv(tr) && |tr.issued| == 1 && tr.t.pool.free == [] && InUse(tr.t.pool.elements[0])
  }

  lemma TakesSlot(tr: Trace)
    requires IsIdle(tr)
    ensures var next := Next(tr, Open(0, []));
      Honest(tr, Open(0, [])) && next.Some? && IsTaken(next.value) && |next.value.issued[0]| == |tr.issued[0]| + 1
  {
    hide Encode, NoDup;
    StepKeepsInv(tr, Open(0, []));
    AllocKeeps(tr.t.pool, 0);
  }

  lemma FreesSlot(tr: Trace)
    requires IsTaken(tr)
    ensures var s := Close(Handle(0, tr.t.pool.elements[0].tag));
      && Honest(tr, s) && Next(tr, s).Some? && Next(tr, s).value.issued == tr.issued
      && Next(tr, s).value.t.pool.free == [0]
  {
    hide Encode, NoDup;
    assert Tagged(tr, 0);
  }

  /** A run that allocates and releases the slot `n` times, and then once more
      without the release if `again` is set. */
  lemma {:induction false} Cycles(tr: Trace, n: nat, again: bool) returns (steps: seq<Step>)
    requires IsIdle(tr)
    ensures RunFrom(tr, steps).Some?
    ensures var tr' := RunFrom(tr, steps).value;
      if again then IsTaken(tr') && |tr'.issued[0]| == |tr.issued[0]| + n + 1
      else IsIdle(tr') && |tr'.issued[0]| == |tr.issued[0]| + n
    decreases n
  {
    hide Next, Honest, Tagged, ReleasedOnce;
    if n == 0 && !again {
      return [];
    }
    var open := Step.Open(0, []);
    TakesSlot(tr);
    var taken := Next(tr, open).value;
    if n == 0 {
      assert [open][1..] == [];
      return [open];
    }
    var close := Close(Handle(0, taken.t.pool.elements[0].tag));
    FreesSlot(taken);
    StepKeepsInv(taken, close);
    var rest := Cycles(Next(taken, close).value, n - 1, again);
    steps := [open, close] + rest;
    assert steps[1..] == [close] + rest && steps[1..][1..] == rest;
  }

  lemma StartIsIdle()
    ensures IsIdle(Start(1))
  {
    StartIsInv(1);
    assert Start(1).t.pool.free == [0];
  }

  /** A run after which the first handle of a slot, long since released, works
      again: it would free the slot of another request. */
  lemma StaleHandleWorksInARun() returns (steps: seq<Step>)
    ensures Run(1, steps).Some?
    ensures var tr := Run(1, steps).value;
      |tr.issued[0]| == 0x8001 && Free(tr.t.pool, Handle(0, tr.issued[0][0])).1
  {
    hide Next, Honest, Tagged, ReleasedOnce, Free;
    StartIsIdle();
    steps := Cycles(Start(1), 0x8000, true);
    StaleHandleWorksIff(Run(1, steps).value, 0, 0);
  }

  /** So, within the bound, a stale handle is inert: closing it, finishing it or
      sending data for it changes no slot and no count and delivers nothing. */
  lemma StaleHandleIsInert(tr: Trace, i: u16, k: nat, payload: seq<u8>)
    requires Inv(tr) && i < |tr.issued| && k < |tr.issued[i]| <= k + 0x8000
    requires k == |tr.issued[i]| - 1 ==> !InUse(tr.t.pool.elements[i])
    ensures var h := Handle(i, tr.issued[i][k]);
      && CloseRequest(tr.t, h) == (tr.t, [])
      && (forall cmd | cmd == ReqData || cmd == ReqServerFinished || cmd == ReqServerClosed ::
            var r := Receive(tr.t, Encode(cmd, h, payload));
            r.Some? && r.value.1 == [] && r.value.0 == tr.t.(busy := r.value.0.busy))
  {
    var h := Handle(i, tr.issued[i][k]);
    StaleHandleWorksIff(tr, i, k);
    assert tr.t.pool.elements[i].tag != h.tag;
    EncodeRoundTrip(ReqData, h, payload);
    EncodeRoundTrip(ReqServerFinished, h, payload);
    EncodeRoundTrip(ReqServerClosed, h, payload);
  }

  // ----- after the tunnel has closed

  /** After `on_closed` no request can be opened, and an issued handle frees a
      slot exactly when the slot was unused and the handle is 32767 (modulo
      32768) allocations old: never below that bound. */
  lemma ClosedTunnelIsDead(tr: Trace, i: u16, k: nat, tx: Channel)
    requires Inv(tr) && i < |tr.issued| && k < |tr.issued[i]|
    ensures var p := ClearAll(tr.t.pool);
      && Alloc(p, tx) == (p, NO_HANDLE)
      && (Free(p, Handle(i, tr.issued[i][k])).1 <==>
            !InUse(tr.t.pool.elements[i]) && (|tr.issued[i]| - k) % 0x8000 == 0)
      && (|tr.issued[i]| < 0x8000 ==> !Free(p, Handle(i, tr.issued[i][k])).1)
  {
    hide Bump, Truncate16, Balanced;
    assert Tagged(tr, i);
    var n := |tr.issued[i]|;
    TagsRepeat(k, n);
    BumpedTag(n);
    DoneTag(n);
    DoneTag(k + 1);
  }

  /** `on_closed` */
  function AfterClose(t: TunState): TunState {
    t.(pool := ClearAll(t.pool))
  }

  lemma ApplyStaysInBounds(t: TunState, s: Step)
    requires InBounds(t.pool) && |t.pool.elements| <= 0xFFFF && Apply(t, s).Some?
    ensures InBounds(Apply(t, s).value.0.pool)
    ensures |Apply(t, s).value.0.pool.elements| == |t.pool.elements|
  {
    hide InBounds, Alloc, Free, DropTx, Encode;
    match s
    case Open(tx, _) => AllocStaysInBounds(t.pool, tx);
    case Close(h) => FreeStaysInBounds(t.pool, h);
    case Message(f) =>
      if HandleOf(f).Some? {
        FreeStaysInBounds(t.pool, HandleOf(f).value);
      }
  }

  lemma AllocStaysInBounds(p: Pool, tx: Channel)
    requires InBounds(p)
    ensures (forall i | i in p.free :: i < |p.elements| <= 0xFFFF)
    ensures InBounds(Alloc(p, tx).0) && |Alloc(p, tx).0.elements| == |p.elements|
  {
    var n := |p.free| - 1;
    if n >= 0 {
      assert p.free[n] in p.free;
      forall i | i in p.free[..n]
        ensures i < |p.elements| <= 0xFFFF
      {
        var k :| 0 <= k < n && p.free[..n][k] == i;
        assert p.free[k] in p.free;
      }
    }
  }

  lemma FreeStaysInBounds(p: Pool, h: Handle)
    requires InBounds(p) && |p.elements| <= 0xFFFF
    ensures InBounds(Free(p, h).0) && |Free(p, h).0.elements| == |p.elements|
    ensures InBounds(DropTx(p, h)) && |DropTx(p, h).elements| == |p.elements|
  {
  }

  /** State and effects of steps that come after `on_closed`, from tasks and
      messages that were under way; `None` when a handler panics. */
  ghost function LateRun(t: TunState, steps: seq<Step>): Option<(TunState, seq<Effect>)>
    requires InBounds(t.pool) && |t.pool.elements| <= 0xFFFF
    decreases |steps|
  {
    if steps == [] then Some((t, []))
    else match Apply(t, steps[0])
      case None => None
      case Some((t', effects)) =>
        ApplyStaysInBounds(t, steps[0]);
        match LateRun(t', steps[1..])
        case None => None
        case Some((last, more)) => Some((last, effects + more))
  }

  /** The handle of a closing step is one that was issued, or outside the table. */
  lemma HonestCloseFails(tr: Trace, h: Handle)
    requires Inv(tr)
    requires h.idx < |tr.issued| ==> h.tag in tr.issued[h.idx] && |tr.issued[h.idx]| < 0x8000
    ensures !Free(ClearAll(tr.t.pool), h).1
  {
    if h.idx < |tr.issued| {
      var k :| 0 <= k < |tr.issued[h.idx]| && tr.issued[h.idx][k] == h.tag;
      ClosedTunnelIsDead(tr, h.idx, k, 0);
    }
  }

  lemma LateStepDoesNothing(tr: Trace, t: TunState, s: Step)
    requires Inv(tr) && Honest(tr, s) && (forall i | 0 <= i < |tr.issued| :: |tr.issued[i]| < 0x8000)
    requires t.pool == ClearAll(tr.t.pool) && Apply(t, s).Some?
    ensures var (t', effects) := Apply(t, s).value;
      && t'.pool == t.pool && t'.reqCount == t.reqCount && (forall e | e in effects :: !e.ToRequest?)
      && (s.Open? ==> OpenRequest(t, s.tx, s.target).1.None?)
  {
    if Closes(s).Some? {
      HonestCloseFails(tr, Closes(s).value);
    }
  }

  lemma {:induction false} LateRunDoesNothing(tr: Trace, t: TunState, steps: seq<Step>)
    requires Inv(tr) && (forall i | 0 <= i < |tr.issued| :: |tr.issued[i]| < 0x8000)
    requires t.pool == ClearAll(tr.t.pool) && (forall s | s in steps :: Honest(tr, s))
    requires LateRun(t, steps).Some?
    ensures var (last, effects) := LateRun(t, steps).value;
      && last.pool == t.pool && last.reqCount == t.reqCount && (forall e | e in effects :: !e.ToRequest?)
    decreases |steps|
  {
    if steps != [] {
      assert steps[0] in steps;
      LateStepDoesNothing(tr, t, steps[0]);
      LateRunDoesNothing(tr, Apply(t, steps[0]).value.0, steps[1..]);
    }
  }

  lemma AfterCloseIsInBounds(tr: Trace)
    requires Inv(tr)
    ensures InBounds(AfterClose(tr.t).pool) && |AfterClose(tr.t).pool.elements| == |tr.issued| <= 0xFFFF
  {
    SizeIsSmall(tr.t.pool);
  }

  /** As long as no slot has been allocated 32768 times, a tunnel that was closed
      stays closed: whatever honest steps still come, its slots do not change, no
      request is opened, and nothing is delivered. */
  lemma ClosedTunnelStaysDead(tr: Trace, steps: seq<Step>)
    requires Inv(tr) && (forall i | 0 <= i < |tr.issued| :: |tr.issued[i]| < 0x8000)
    requires (forall s | s in steps :: Honest(tr, s))
    requires InBounds(AfterClose(tr.t).pool) && |tr.issued| <= 0xFFFF && LateRun(AfterClose(tr.t), steps).Some?
    ensures var (last, effects) := LateRun(AfterClose(tr.t), steps).value;
      && last.pool == ClearAll(tr.t.pool) && last.reqCount == tr.t.reqCount && (forall e | e in effects :: !e.ToRequest?)
      && (forall tx, target :: OpenRequest(last, tx, target).1.None?)
  {
    LateRunDoesNothing(tr, AfterClose(tr.t), steps);
  }

  /** The closed tunnel gets this handle closed again, as an honest step, and then
      opens a request. */
  ghost predicate Revives(tr: Trace, h: Handle)
    requires Inv(tr)
  {
    AfterCloseIsInBounds(tr);
    var late := LateRun(AfterClose(tr.t), [Close(h)]);
    Honest(tr, Close(h)) && late.Some? && forall tx, target :: OpensAt(late.value.0, tx, target, h.idx)
  }

  ghost predicate OpensAt(t: TunState, tx: Channel, target: seq<u8>, i: u16) {
    InBounds(t.pool) && OpenRequest(t, tx, target).1.Some? && OpenRequest(t, tx, target).1.value.idx == i
  }

  /** A slot that was released is the next to be allocated. */
  lemma ReleasedOpensNext(t: TunState, h: Handle, tx: Channel, target: seq<u8>)
    requires InBounds(t.pool) && |t.pool.elements| <= 0xFFFF && Free(t.pool, h).1
    ensures OpensAt(CloseRequest(t, h).0, tx, target, h.idx)
  {
    hide Bump, Clean, Encode, Decrement;
    FreeStaysInBounds(t.pool, h);
  }

  lemma LateClose(t: TunState, h: Handle)
    requires InBounds(t.pool) && |t.pool.elements| <= 0xFFFF
    ensures LateRun(t, [Close(h)]) == Some((CloseRequest(t, h).0, CloseRequest(t, h).1 + []))
  {
    hide CloseRequest, InBounds;
    ApplyStaysInBounds(t, Close(h));
    assert [Close(h)][1..] == [];
  }

  /** That is so for the handles that still free their slot. */
  lemma ReleaseRevives(tr: Trace, h: Handle)
    requires Inv(tr) && Honest(tr, Close(h)) && Free(AfterClose(tr.t).pool, h).1
    ensures Revives(tr, h)
  {
    hide Inv, Honest, Free, InBounds, CloseRequest, AfterClose, LateRun, OpensAt;
    AfterCloseIsInBounds(tr);
    LateClose(AfterClose(tr.t), h);
    forall tx, target
      ensures OpensAt(CloseRequest(AfterClose(tr.t), h).0, tx, target, h.idx)
    {
      ReleasedOpensNext(AfterClose(tr.t), h, tx, target);
    }
  }

  /** Past the bound there is one: a run after which the first handle of a slot
      brings the closed tunnel back. */
  lemma ClosedTunnelRevives() returns (steps: seq<Step>)
    ensures Run(1, steps).Some? && |Run(1, steps).value.issued[0]| == 0x8000
    ensures Revives(Run(1, steps).value, Handle(0, Run(1, steps).value.issued[0][0]))
  {
    hide Next, Tagged, ReleasedOnce, Revives, Free;
    StartIsIdle();
    steps := Cycles(Start(1), 0x8000, false);
    var tr := Run(1, steps).value;
    ClosedTunnelIsDead(tr, 0, 0, 0);
    ReleaseRevives(tr, Handle(0, tr.issued[0][0]));
  }
}
