/** The cache of UDP stubs: entries that must agree with a queue of deadlines, and
    together refine a plain map of stubs with the time each was last touched. */
module Caches {
  import opened Bytes

  type Addr = nat
  type Stub = nat
  type Key = nat

  const TTL: nat := 60

  datatype Slot = Slot(addr: Addr, deadline: nat)
  datatype Entry = Entry(stub: Stub, delay: Key)

  /** `tasks` counts the purge tasks that have been started and have not ended. */
  datatype State = State(entries: map<Addr, Entry>, queue: map<Key, Slot>, keepalive: bool, tasks: nat)

  const EMPTY := State(map[], map[], false, 0)

  /** Entries and deadlines are in one-to-one correspondence. */
  ghost predicate Agrees(s: State) {
    && (forall a | a in s.entries :: s.entries[a].delay in s.queue && s.queue[s.entries[a].delay].addr == a)
    && (forall k | k in s.queue :: s.queue[k].addr in s.entries && s.entries[s.queue[k].addr].delay == k)
  }

  /** One task runs while the flag is set, and it is set while there are entries. */
  ghost predicate IsPurged(s: State) {
    s.tasks == (if s.keepalive then 1 else 0) && (s.entries != map[] ==> s.keepalive)
  }

  ghost predicate Inv(s: State) {
    Agrees(s) && IsPurged(s)
  }

  // ----- the operations of the cache

  function Inserted(s: State, addr: Addr, stub: Stub, newKey: Key, now: nat): State {
    State(s.entries[addr := Entry(stub, newKey)], s.queue[newKey := Slot(addr, now + TTL)], true,
          if s.keepalive then s.tasks else s.tasks + 1)
  }

  function Touched(s: State, addr: Addr, now: nat): State {
    if addr in s.entries then s.(queue := s.queue[s.entries[addr].delay := Slot(addr, now + TTL)]) else s
  }

  function Removed(s: State, addr: Addr): State {
    if addr in s.entries then s.(entries := s.entries - {addr}, queue := s.queue - {s.entries[addr].delay}) else s
  }

  function Pending(queue: map<Key, Slot>, now: nat): map<Key, Slot> {
    map k | k in queue && queue[k].deadline > now :: queue[k]
  }

  /** Everything due is gone from both; the task ends once nothing is left. */
  ghost function Purged(s: State, now: nat): State
    requires Agrees(s)
  {
    var queue := Pending(s.queue, now);
    var entries := map a | a in s.entries && s.entries[a].delay in queue :: s.entries[a];
    if queue == map[] then State(entries, queue, false, if s.tasks == 0 then 0 else s.tasks - 1)
    else s.(entries := entries, queue := queue)
  }

  function Cleaned(s: State): State {
    s.(entries := map[], queue := map[])
  }

  /** An insertion keeps the correspondence exactly when its key is new: one that
      is overwritten leaves its old deadline behind. */
  lemma InsertKeepsIff(s: State, addr: Addr, stub: Stub, newKey: Key, now: nat)
    requires Inv(s) && newKey !in s.queue
    ensures Inv(Inserted(s, addr, stub, newKey, now)) <==> addr !in s.entries
  {
    var t := Inserted(s, addr, stub, newKey, now);
    if addr in s.entries {
      var old1 := s.entries[addr].delay;
      assert old1 in t.queue && t.queue[old1].addr == addr && t.entries[addr].delay == newKey;
    }
  }

  lemma TouchNothing(s: State, addr: Addr, now: nat)
    requires addr !in s.entries
    ensures Touched(s, addr, now) == s
  {
  }

  lemma TouchKeeps(s: State, addr: Addr, now: nat)
    requires Inv(s)
    ensures Inv(Touched(s, addr, now))
  {
  }

  lemma RemoveKeeps(s: State, addr: Addr)
    requires Inv(s)
    ensures Inv(Removed(s, addr))
  {
  }

  lemma PurgeKeeps(s: State, now: nat)
    requires Inv(s)
    ensures Inv(Purged(s, now))
  {
    var t := Purged(s, now);
    forall k | k in t.queue
      ensures t.queue[k].addr in t.entries
    {
      assert k in s.queue;
    }
  }

  function Popped(s: State, key: Key): State
    requires key in s.queue
  {
    s.(entries := s.entries - {s.queue[key].addr}, queue := s.queue - {key})
  }

  /** Popping something that is due does not change what the purge comes to. */
  lemma PopOne(s: State, key: Key, now: nat)
    requires Agrees(s) && key in s.queue && s.queue[key].deadline <= now
    ensures Agrees(Popped(s, key)) && Purged(Popped(s, key), now) == Purged(s, now)
  {
    var t := Popped(s, key);
    assert Pending(t.queue, now) == Pending(s.queue, now);
    assert Purged(t, now).entries == Purged(s, now).entries;
  }

  /** And it has come to an end when nothing is due. */
  lemma NothingDue(s: State, now: nat)
    requires Agrees(s) && Pending(s.queue, now) == s.queue && s.tasks > 0
    ensures Purged(s, now) == if s.queue == map[] then s.(keepalive := false, tasks := s.tasks - 1) else s
  {
    assert forall a | a in s.entries :: s.entries[a].delay in s.queue;
    assert Purged(s, now).entries == s.entries;
  }

  // ----- what it stands for

  datatype Touch = Touch(stub: Stub, at: int)
  type Stubs = map<Addr, Touch>

  /** Each stub with the time it was last touched. */
  ghost function Live(s: State): Stubs
    requires Agrees(s)
  {
    map a | a in s.entries :: Touch(s.entries[a].stub, s.queue[s.entries[a].delay].deadline - TTL)
  }

  /** A packet from the south (with the stub that could be built for it, if it
      needs one), a stub that closed, a turn of the purge task, the end. */
  datatype Event =
    | South(src: Addr, now: nat, built: Option<Stub>, newKey: Key)
    | Closed(src: Addr)
    | Tick(now: nat)
    | Cleanup

  function Expired(m: Stubs, now: nat): Stubs {
    map a | a in m && m[a].at + TTL > now :: m[a]
  }

  /** The same events on the plain map. */
  function Next(m: Stubs, e: Event): Stubs {
    match e
    case South(src, now, built, _) =>
      if src in m then m[src := Touch(m[src].stub, now)]
      else if built.Some? then m[src := Touch(built.value, now)]
      else m
    case Closed(src) => m - {src}
    case Tick(now) => Expired(m, now)
    case Cleanup => map[]
  }

  /** The queue hands out keys that are not in use; only a running task is polled. */
  predicate CanHappen(s: State, e: Event) {
    match e
    case South(src, _, built, newKey) => src !in s.entries && built.Some? ==> newKey !in s.queue
    case Closed(_) => true
    case Tick(_) => s.tasks > 0
    case Cleanup => true
  }

  /** `on_udp_proxy_south`: look up, build if there is none, look up again. */
  function Served(s: State, src: Addr, now: nat, built: Option<Stub>, newKey: Key): State {
    if src in s.entries || built.None? then Touched(s, src, now)
    else Touched(Inserted(s, src, built.value, newKey, now), src, now)
  }

  ghost function Step(s: State, e: Event): State
    requires Agrees(s)
  {
    match e
    case South(src, now, built, newKey) => Served(s, src, now, built, newKey)
    case Closed(src) => Removed(s, src)
    case Tick(now) => Purged(s, now)
    case Cleanup => Cleaned(s)
  }

  lemma InsertRefines(s: State, addr: Addr, stub: Stub, newKey: Key, now: nat)
    requires Inv(s) && addr !in s.entries && newKey !in s.queue
    ensures Inv(Inserted(s, addr, stub, newKey, now))
    ensures Live(Inserted(s, addr, stub, newKey, now)) == Live(s)[addr := Touch(stub, now)]
  {
    InsertKeepsIff(s, addr, stub, newKey, now);
    var t, m := Inserted(s, addr, stub, newKey, now), Live(s)[addr := Touch(stub, now)];
    assert Live(t).Keys == m.Keys;
    assert forall a | a in m :: Live(t)[a] == m[a];
  }

  lemma TouchRefines(s: State, addr: Addr, now: nat)
    requires Inv(s)
    ensures Inv(Touched(s, addr, now))
    ensures Live(Touched(s, addr, now)) ==
            if addr in Live(s) then Live(s)[addr := Touch(Live(s)[addr].stub, now)] else Live(s)
  {
    TouchKeeps(s, addr, now);
    var t := Touched(s, addr, now);
    var m := if addr in Live(s) then Live(s)[addr := Touch(Live(s)[addr].stub, now)] else Live(s);
    assert Live(t).Keys == m.Keys;
    assert forall a | a in m :: Live(t)[a] == m[a];
  }

  lemma ServeRefines(s: State, src: Addr, now: nat, built: Option<Stub>, newKey: Key)
    requires Inv(s) && CanHappen(s, South(src, now, built, newKey))
    ensures Inv(Served(s, src, now, built, newKey))
    ensures Live(Served(s, src, now, built, newKey)) == Next(Live(s), South(src, now, built, newKey))
  {
    if src !in s.entries && built.Some? {
      InsertKeepsIff(s, src, built.value, newKey, now);
      InsertRefines(s, src, built.value, newKey, now);
      TouchRefines(Inserted(s, src, built.value, newKey, now), src, now);
    } else {
      TouchRefines(s, src, now);
    }
  }

  lemma RemoveRefines(s: State, src: Addr)
    requires Inv(s)
    ensures Inv(Removed(s, src)) && Live(Removed(s, src)) == Live(s) - {src}
  {
    RemoveKeeps(s, src);
    var t := Removed(s, src);
    forall a | a in t.entries
      ensures Live(t)[a] == Live(s)[a]
    {
      assert t.entries[a].delay in t.queue;
    }
  }

  /** A purge drops exactly what was not touched for the time to live. */
  lemma PurgeRefines(s: State, now: nat)
    requires Inv(s)
    ensures Inv(Purged(s, now)) && Live(Purged(s, now)) == Expired(Live(s), now)
  {
    PurgeKeeps(s, now);
    var t, m := Purged(s, now), Expired(Live(s), now);
    assert Live(t).Keys == m.Keys;
    assert forall a | a in t.entries :: Live(t)[a] == m[a];
  }

  lemma StepRefines(s: State, e: Event)
    requires Inv(s) && CanHappen(s, e)
    ensures Inv(Step(s, e)) && Live(Step(s, e)) == Next(Live(s), e)
  {
    match e
    case South(src, now, built, newKey) => ServeRefines(s, src, now, built, newKey);
    case Closed(src) => RemoveRefines(s, src);
    case Tick(now) => PurgeRefines(s, now);
    case Cleanup =>
  }

  // ----- runs

  ghost predicate IsRun(states: seq<State>, events: seq<Event>) {
    && |states| == |events| + 1 && states[0] == EMPTY
    && (forall i | 0 <= i < |events| ::
          Agrees(states[i]) ==> CanHappen(states[i], events[i]) && states[i + 1] == Step(states[i], events[i]))
  }

  function AllNext(events: seq<Event>): Stubs {
    if events == [] then map[] else Next(AllNext(events[..|events| - 1]), events[|events| - 1])
  }

  /** In every state of every run entries and deadlines agree, a task is running if
      there are entries, and the cache holds what the plain map holds. */
  lemma {:induction false} RunRefines(states: seq<State>, events: seq<Event>, n: nat)
    requires IsRun(states, events) && n < |states|
    ensures Inv(states[n]) && Live(states[n]) == AllNext(events[..n])
  {
    if n > 0 {
      RunRefines(states, events, n - 1);
      StepRefines(states[n - 1], events[n - 1]);
      assert events[..n][..n - 1] == events[..n - 1];
    }
  }

  // ----- how long a stub lives

  /** Nothing that touches or removes the stub of `src`. */
  predicate LeavesAlone(events: seq<Event>, src: Addr) {
    forall e | e in events :: Leaves(e, src)
  }

  predicate Leaves(e: Event, src: Addr) {
    match e
    case South(a, _, _, _) => a != src
    case Closed(a) => a != src
    case Tick(_) => true
    case Cleanup => false
  }

  function AfterAll(m: Stubs, events: seq<Event>): Stubs
    decreases |events|
  {
    if events == [] then m else AfterAll(Next(m, events[0]), events[1..])
  }

  /** A stub that is left alone lives for 60 seconds from when it was last touched: it
      is there until the purge task looks at that time or later. */
  lemma {:induction false} StubLivesForAMinute(m: Stubs, src: Addr, events: seq<Event>)
    requires src in m && LeavesAlone(events, src)
    ensures src in AfterAll(m, events) <==> forall e | e in events && e.Tick? :: e.now < m[src].at + 60
    ensures src in AfterAll(m, events) ==> AfterAll(m, events)[src] == m[src]
    decreases |events|
  {
    if events != [] {
      var e, m' := events[0], Next(m, events[0]);
      assert e in events && events == [e] + events[1..];
      if src in m' {
        StubLivesForAMinute(m', src, events[1..]);
      } else {
        GoneStaysGone(m', src, events[1..]);
      }
    }
  }

  lemma {:induction false} GoneStaysGone(m: Stubs, src: Addr, events: seq<Event>)
    requires src !in m && LeavesAlone(events, src)
    ensures src !in AfterAll(m, events)
    decreases |events|
  {
    if events != [] {
      assert events[0] in events;
      GoneStaysGone(Next(m, events[0]), src, events[1..]);
    }
  }

  /** Every packet touches the stub it goes to, and a built one is put in its place. */
  lemma PacketsTouch(m: Stubs, src: Addr, now: nat, built: Option<Stub>, key: Key)
    ensures var m' := Next(m, South(src, now, built, key));
      && (src in m' <==> src in m || built.Some?)
      && (src in m' ==> m'[src] == Touch(if src in m then m[src].stub else built.value, now))
      && (forall a | a != src :: a in m' <==> a in m) && (forall a | a in m && a != src :: m'[a] == m[a])
  {
  }

  // ----- in place

  datatype Poll = Ready(slot: Slot) | AllDone | NotYet

  /** The timer queue. Its keys are looked up without a check: resetting or removing
      one that is not in the queue panics. */
  class DelayQueue {
    var slots: map<Key, Slot>

    constructor ()
      ensures slots == map[]
    {
      slots := map[];
    }

    method Insert(addr: Addr, deadline: nat, newKey: Key)
      requires newKey !in slots
      modifies this
      ensures slots == old(slots)[newKey := Slot(addr, deadline)]
    {
      slots := slots[newKey := Slot(addr, deadline)];
    }

    method Reset(key: Key, deadline: nat)
      requires key in slots
      modifies this
      ensures slots == old(slots)[key := Slot(old(slots)[key].addr, deadline)]
    {
      slots := slots[key := Slot(slots[key].addr, deadline)];
    }

    method Remove(key: Key)
      requires key in slots
      modifies this
      ensures slots == old(slots) - {key}
    {
      slots := slots - {key};
    }

    /** Some slot that is due. */
    method PollExpired(now: nat) returns (r: Poll, ghost key: Key)
      modifies this
      ensures r.Ready? ==> key in old(slots) && r.slot == old(slots)[key] && r.slot.deadline <= now
                           && slots == old(slots) - {key}
      ensures !r.Ready? ==> slots == old(slots) && Pending(slots, now) == slots
      ensures r.AllDone? <==> old(slots) == map[]
    {
      key := 0;
      if k :| k in slots && slots[k].deadline <= now {
        r := Ready(slots[k]);
        key := k;
        slots := slots - {k};
      } else {
        r := if slots == map[] then AllDone else NotYet;
      }
    }
  }

  class Cache {
    var entries: map<Addr, Entry>
    const expirations: DelayQueue
    var isInKeepalive: bool
    var tasks: nat

    ghost function Value(): State
      reads this, expirations
    {
      State(entries, expirations.slots, isInKeepalive, tasks)
    }

    ghost predicate Valid()
      reads this, expirations
    {
      Inv(Value())
    }

    constructor ()
      ensures fresh(expirations) && Value() == EMPTY && Valid()
    {
      entries, isInKeepalive, tasks := map[], false, 0;
      expirations := new DelayQueue();
    }

    /** The state is still well formed exactly if there was no entry, see `InsertKeepsIff`. */
    method Insert(key: Addr, value: Stub, newKey: Key, now: nat)
      requires newKey !in expirations.slots
      modifies this, expirations
      ensures Value() == Inserted(old(Value()), key, value, newKey, now)
    {
      expirations.Insert(key, now + TTL, newKey);
      entries := entries[key := Entry(value, newKey)];
      if !isInKeepalive {
        TaskKeepalive();
      }
    }

    method TaskKeepalive()
      modifies this
      ensures tasks == old(tasks) + 1 && isInKeepalive && entries == old(entries)
    {
      tasks := tasks + 1;
      isInKeepalive := true;
    }

    method Get(key: Addr, now: nat) returns (r: Option<Stub>)
      requires Agrees(Value())
      modifies expirations
      ensures Value() == Touched(old(Value()), key, now)
      ensures r == if key in entries then Some(entries[key].stub) else None
    {
      if key in entries {
        expirations.Reset(entries[key].delay, now + TTL);
        return Some(entries[key].stub);
      }
      return None;
    }

    method Remove(key: Addr)
      requires Agrees(Value())
      modifies this, expirations
      ensures Value() == Removed(old(Value()), key)
    {
      if key in entries {
        var delay := entries[key].delay;
        entries := entries - {key};
        expirations.Remove(delay);
      }
    }

    method Cleanup()
      requires Agrees(Value())
      modifies this, expirations
      ensures Value() == Cleaned(old(Value()))
    {
      expirations.slots := map[];
      entries := map[];
    }

    /** One turn of the purge task: what is due is popped and removed, and the
        task ends once the queue is empty. */
    method PollPurge(now: nat)
      requires Agrees(Value()) && tasks > 0
      modifies this, expirations
      ensures Value() == Purged(old(Value()), now)
    {
      hide Purged, Agrees, Pending;
      ghost var goal := Purged(Value(), now);
      while true
        invariant Agrees(Value()) && Purged(Value(), now) == goal && tasks > 0
        decreases |expirations.slots|
      {
        ghost var was := Value();
        var r, k := expirations.PollExpired(now);
        if !r.Ready? {
          NothingDue(was, now);
          if r.NotYet? {
            return;
          }
          break;
        }
        PopOne(was, k, now);
        entries := entries - {r.slot.addr};
      }
      tasks := tasks - 1;
      isInKeepalive := false;
    }
  }

  /** The only caller of the cache. */
  class UdpXMgr {
    const cache: Cache

    constructor ()
      ensures fresh(cache) && fresh(cache.expirations) && cache.Valid() && cache.Value() == EMPTY
    {
      cache := new Cache();
    }

    /** Hands the packet to the stub of its source, a new one if it has none and
        one can be built. */
    method OnUdpProxySouth(src: Addr, now: nat, built: Option<Stub>, newKey: Key) returns (served: Option<Stub>)
      requires cache.Valid() && CanHappen(cache.Value(), South(src, now, built, newKey))
      modifies cache, cache.expirations
      ensures cache.Valid() && cache.Value() == Step(old(cache.Value()), South(src, now, built, newKey))
      ensures served == if src in old(cache.entries) then Some(old(cache.entries)[src].stub) else built
    {
      StepRefines(cache.Value(), South(src, now, built, newKey));
      var stub := cache.Get(src, now);
      if stub.None? {
        TouchNothing(old(cache.Value()), src, now);
        BuildUstub(src, now, built, newKey);
        stub := cache.Get(src, now);
      }
      return stub;
    }

    method BuildUstub(src: Addr, now: nat, built: Option<Stub>, newKey: Key)
      requires cache.Valid() && src !in cache.entries && CanHappen(cache.Value(), South(src, now, built, newKey))
      modifies cache, cache.expirations
      ensures cache.Valid()
      ensures cache.Value() == if built.Some? then Inserted(old(cache.Value()), src, built.value, newKey, now)
                               else old(cache.Value())
    {
      if built.Some? {
        InsertKeepsIff(cache.Value(), src, built.value, newKey, now);
        cache.Insert(src, built.value, newKey, now);
      }
    }

    method OnUstubClosed(src: Addr)
      requires cache.Valid()
      modifies cache, cache.expirations
      ensures cache.Valid() && cache.Value() == Step(old(cache.Value()), Closed(src))
    {
      RemoveKeeps(cache.Value(), src);
      cache.Remove(src);
    }
  }
}
