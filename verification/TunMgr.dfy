/** The tunnel manager: a table of tunnels, each kept alive by its own task that
    connects, serves and ends; a queue of indexes to reconnect; and the selector
    that places requests. Every handler is one atomic step. */
module TunMgrs {
  import opened Bytes
  import opened Wire
  import opened Slots
  import opened Tunnels
  import opened Selector

  /** `connecting` and `serving` are the tasks that `tunbuilder::connect` has
      spawned and that have not ended, by index and stage. */
  datatype Mgr = Mgr(
    reqCap: u16,
    tunnels: seq<Option<TunState>>,
    sorted: seq<nat>,
    current: nat,
    queue: seq<nat>,
    discarded: bool,
    connecting: multiset<nat>,
    serving: multiset<nat>)

  function NoTunnels(n: nat): (s: seq<Option<TunState>>)
    ensures |s| == n && forall i | 0 <= i < n :: s[i] == None
  {
    seq(n, _ => None)
  }

  /** After `new` and `init`: every index is connecting. */
  function Boot(count: u16, reqCap: u16): Mgr {
    Mgr(reqCap, NoTunnels(count), Indexes(count), 0, [], false, multiset(Indexes(count)), multiset{})
  }

  // ----- the handlers on values

  /** `on_tunnel_created`, with the end of the connecting stage. `None` is the
      panic "there is tunnel already". */
  function Created(m: Mgr, i: nat): Option<Mgr>
    requires i < |m.tunnels|
  {
    var ended := m.(connecting := m.connecting - multiset{i});
    if m.discarded then Some(ended)
    else if m.tunnels[i].Some? then None
    else Some(ended.(tunnels := m.tunnels[i := Some(NewTunnel(m.reqCap))], serving := m.serving + multiset{i}))
  }

  /** `on_tunnel_build_error` */
  function BuildFailed(m: Mgr, i: nat): Mgr {
    m.(connecting := m.connecting - multiset{i}, queue := if m.discarded then m.queue else m.queue + [i])
  }

  /** `on_tunnel_closed`; the closed tunnel is dropped with its slots cleared. */
  function Lost(m: Mgr, i: nat): Mgr
    requires i < |m.tunnels|
  {
    m.(serving := m.serving - multiset{i}, tunnels := m.tunnels[i := None],
       queue := if m.tunnels[i].Some? && !m.discarded then m.queue + [i] else m.queue)
  }

  function IsEligible(t: Option<TunState>): bool {
    t.Some? && Truncate16(t.value.reqCount + 1) < t.value.capacity
  }

  function Flags(m: Mgr): (ok: seq<bool>)
    requires forall k | 0 <= k < |m.sorted| :: m.sorted[k] < |m.tunnels|
    ensures |ok| == |m.sorted|
  {
    seq(|m.sorted|, k requires 0 <= k < |m.sorted| => IsEligible(m.tunnels[m.sorted[k]]))
  }

  ghost predicate WellFormed(m: Mgr) {
    && |m.tunnels| <= 0xFFFF && |m.sorted| == |m.tunnels|
    && (forall k | 0 <= k < |m.sorted| :: m.sorted[k] < |m.tunnels|)
    && (m.current < |m.sorted| || m.current == 0)
    && (forall i | 0 <= i < |m.tunnels| && m.tunnels[i].Some? :: Balanced(m.tunnels[i].value))
  }

  /** `on_request_created`: the stub, and what the tunnel sends. */
  ghost function Request(m: Mgr, tx: Channel, target: seq<u8>): (r: (Mgr, Option<(nat, Handle)>, seq<Effect>))
    requires WellFormed(m)
  {
    if m.discarded then (m, None, [])
    else
      var pos := Pick(Flags(m), m.current);
      if pos.None? then (m, None, [])
      else
        var i := m.sorted[pos.value];
        var (t, h, sent) := OpenRequest(m.tunnels[i].value, tx, target);
        (m.(tunnels := m.tunnels[i := Some(t)], current := Behind(|m.sorted|, pos.value)),
         if h.None? then None else Some((i, h.value)), sent)
  }

  /** `on_request_closed` for a stub of tunnel `i`, and what the tunnel sends. */
  function Closed(m: Mgr, i: nat, h: Handle): (r: (Mgr, seq<Effect>))
    requires i < |m.tunnels|
  {
    if m.tunnels[i].None? then (m, [])
    else
      var (t, sent) := CloseRequest(m.tunnels[i].value, h);
      (m.(tunnels := m.tunnels[i := Some(t)]), sent)
  }

  /** A message on the link of tunnel `i`. */
  function Arrived(m: Mgr, i: nat, f: seq<u8>): Mgr
    requires i < |m.tunnels|
  {
    if m.tunnels[i].None? || Receive(m.tunnels[i].value, f).None? then m
    else m.(tunnels := m.tunnels[i := Some(Receive(m.tunnels[i].value, f).value.0)])
  }

  /** What the sort is trusted with: its result is a permutation, and ascending
      when no tunnel is missing (the comparison is not an order otherwise). */
  ghost predicate SortedByBusy(m: Mgr, order: seq<nat>) {
    && |order| == |m.sorted| && multiset(order) == multiset(m.sorted)
    && ((forall i | 0 <= i < |m.tunnels| :: m.tunnels[i].Some?) ==>
          forall j, k | 0 <= j < k < |order| && order[j] < |m.tunnels| && order[k] < |m.tunnels| ::
            m.tunnels[order[j]].value.busy <= m.tunnels[order[k]].value.busy)
  }

  function ResetBusy(tunnels: seq<Option<TunState>>): (r: seq<Option<TunState>>)
    ensures |r| == |tunnels|
    ensures forall i | 0 <= i < |r| ::
      r[i] == if tunnels[i].None? then None else Some(tunnels[i].value.(busy := 0))
  {
    seq(|tunnels|, i requires 0 <= i < |tunnels| =>
      if tunnels[i].None? then None else Some(tunnels[i].value.(busy := 0)))
  }

  /** `keepalive`: re-sort, then start a connect for every queued index. */
  function Keepalive(m: Mgr, order: seq<nat>): Mgr {
    if m.discarded then m
    else m.(sorted := order, tunnels := ResetBusy(m.tunnels), queue := [],
            connecting := m.connecting + multiset(m.queue))
  }

  function Stop(m: Mgr): Mgr {
    m.(discarded := true)
  }

  // ----- steps and the invariant

  datatype Event =
    | Connected(i: nat)
    | ConnectFailed(i: nat)
    | LinkEnded(i: nat)
    | NewRequest(tx: Channel, target: seq<u8>)
    | RequestEnded(i: nat, h: Handle)
    | Incoming(i: nat, f: seq<u8>)
    | Timer(order: seq<nat>)
    | Discard

  /** Which events the tasks, the timer and honest requests and peers can cause. */
  ghost predicate Possible(m: Mgr, e: Event) {
    match e
    case Connected(i) => i in m.connecting
    case ConnectFailed(i) => i in m.connecting
    case LinkEnded(i) => i in m.serving
    case NewRequest(_, _) => true
    case RequestEnded(i, h) => i < |m.tunnels| && (m.tunnels[i].Some? ==> !FreesUnused(m.tunnels[i].value.pool, h))
    case Incoming(i, f) =>
      i in m.serving && i < |m.tunnels| && m.tunnels[i].Some? && Receive(m.tunnels[i].value, f).Some?
      && (ClosedBy(f).Some? ==> !FreesUnused(m.tunnels[i].value.pool, ClosedBy(f).value))
    case Timer(order) => SortedByBusy(m, order)
    case Discard => true
  }

  /** How often an index is somewhere on its way: connecting, live, or queued. */
  function Places(m: Mgr, i: nat): nat {
    m.connecting[i] + m.serving[i] + multiset(m.queue)[i]
  }

  /** A live tunnel of capacity at least 1 keeps one slot that the selector never uses up. */
  predicate KeepsRoom(t: TunState) {
    t.capacity > 0 ==> t.reqCount < t.capacity
  }

  ghost predicate Inv(m: Mgr) {
    && WellFormed(m)
    && IsPermutation(m.sorted, |m.tunnels|)
    && (forall i: nat :: Places(m, i) <= if i < |m.tunnels| then 1 else 0)
    && (!m.discarded ==> forall i: nat | i < |m.tunnels| :: Places(m, i) == 1)
    && (forall i: nat | i < |m.tunnels| :: m.tunnels[i].Some? <==> i in m.serving)
    && (forall i: nat | i < |m.tunnels| && m.tunnels[i].Some? :: KeepsRoom(m.tunnels[i].value))
  }

  ghost function Next(m: Mgr, e: Event): (r: Option<Mgr>)
    requires Inv(m) && Possible(m, e)
  {
    match e
    case Connected(i) => InRange(m, i); Created(m, i)
    case ConnectFailed(i) => Some(BuildFailed(m, i))
    case LinkEnded(i) => InRange(m, i); Some(Lost(m, i))
    case NewRequest(tx, target) => Some(Request(m, tx, target).0)
    case RequestEnded(i, h) => Some(Closed(m, i, h).0)
    case Incoming(i, f) => Some(Arrived(m, i, f))
    case Timer(order) => Some(Keepalive(m, order))
    case Discard => Some(Stop(m))
  }

  lemma InRange(m: Mgr, i: nat)
    requires Inv(m) && (i in m.connecting || i in m.serving || i in m.queue)
    ensures i < |m.tunnels|
  {
    assert Places(m, i) <= if i < |m.tunnels| then 1 else 0;
  }

  // ----- every step keeps the invariant

  lemma BootIsInv(count: u16, reqCap: u16)
    ensures Inv(Boot(count, reqCap))
    ensures var m := Boot(count, reqCap);
      && |m.tunnels| == count && m.reqCap == reqCap && m.queue == [] && !m.discarded && m.current == 0
      && (forall i | 0 <= i < count :: m.connecting[i] == 1 && m.tunnels[i] == None && m.sorted[i] == i)
  {
    var m := Boot(count, reqCap);
    IndexesArePermutation(count);
    PermutationPositions(m.sorted, count);
    forall i: nat
      ensures Places(m, i) == if i < count then 1 else 0
    {
      assert m.connecting == multiset(m.sorted) && multiset(m.sorted)[i] == if i < count then 1 else 0;
    }
  }

  /** The panic "there is tunnel already" is unreachable. */
  lemma NoTunnelAlready(m: Mgr, i: nat)
    requires Inv(m) && i in m.connecting
    ensures i < |m.tunnels| && m.tunnels[i].None? && Created(m, i).Some?
  {
    InRange(m, i);
    assert Places(m, i) <= 1;
  }

  /** What a task's step does to its own index, and that it leaves the others alone. */
  lemma Moved(m: Mgr, m': Mgr, i: nat, c: int, s: int, q: int)
    requires c == 0 || (c == -1 && i in m.connecting)
    requires s == 0 || s == 1 || (s == -1 && i in m.serving)
    requires q == 0 || q == 1
    requires m'.connecting == if c == 0 then m.connecting else m.connecting - multiset{i}
    requires m'.serving == if s == 0 then m.serving
                           else if s == 1 then m.serving + multiset{i} else m.serving - multiset{i}
    requires m'.queue == if q == 0 then m.queue else m.queue + [i]
    ensures Places(m', i) == Places(m, i) + c + s + q && m'.serving[i] == m.serving[i] + s
    ensures forall j: nat | j != i :: Places(m', j) == Places(m, j) && m'.serving[j] == m.serving[j]
  {
  }

  lemma MoveKeepsInv(m: Mgr, m': Mgr, i: nat)
    requires Inv(m) && i < |m.tunnels|
    requires m'.sorted == m.sorted && m'.current == m.current && m'.discarded == m.discarded
    requires |m'.tunnels| == |m.tunnels| && m'.tunnels == m.tunnels[i := m'.tunnels[i]]
    requires Places(m', i) == 1 || (m.discarded && Places(m', i) <= 1)
    requires forall j: nat | j != i :: Places(m', j) == Places(m, j) && m'.serving[j] == m.serving[j]
    requires m'.tunnels[i].Some? <==> m'.serving[i] > 0
    requires m'.tunnels[i].Some? ==> Balanced(m'.tunnels[i].value) && KeepsRoom(m'.tunnels[i].value)
    ensures Inv(m')
  {
    forall j: nat
      ensures Places(m', j) <= if j < |m'.tunnels| then 1 else 0
      ensures !m'.discarded && j < |m'.tunnels| ==> Places(m', j) == 1
    {
      assert j != i ==> Places(m', j) == Places(m, j);
    }
  }

  lemma BuildFailedKeepsInv(m: Mgr, i: nat)
    requires Inv(m) && i in m.connecting
    ensures Inv(BuildFailed(m, i))
  {
    InRange(m, i);
    var m' := BuildFailed(m, i);
    Moved(m, m', i, -1, 0, if m.discarded then 0 else 1);
    MoveKeepsInv(m, m', i);
  }

  lemma CreatedKeepsInv(m: Mgr, i: nat)
    requires Inv(m) && i in m.connecting
    ensures i < |m.tunnels| && Created(m, i).Some? && Inv(Created(m, i).value)
  {
    NoTunnelAlready(m, i);
    NewIsBalanced(m.reqCap);
    var m' := Created(m, i).value;
    Moved(m, m', i, -1, if m.discarded then 0 else 1, 0);
    MoveKeepsInv(m, m', i);
  }

  lemma LostKeepsInv(m: Mgr, i: nat)
    requires Inv(m) && i in m.serving
    ensures i < |m.tunnels| && Inv(Lost(m, i))
  {
    InRange(m, i);
    var m' := Lost(m, i);
    Moved(m, m', i, 0, -1, if m.discarded then 0 else 1);
    MoveKeepsInv(m, m', i);
  }

  /** A step that only changes one tunnel's own state. */
  lemma TunnelKeepsInv(m: Mgr, i: nat, t: TunState, current: nat)
    requires Inv(m) && i < |m.tunnels| && m.tunnels[i].Some?
    requires Balanced(t) && KeepsRoom(t) && (current < |m.sorted| || current == 0)
    ensures Inv(m.(tunnels := m.tunnels[i := Some(t)], current := current))
  {
    var m' := m.(tunnels := m.tunnels[i := Some(t)], current := current);
    assert forall j: nat :: Places(m', j) == Places(m, j);
  }

  lemma TimerKeepsInv(m: Mgr, order: seq<nat>)
    requires Inv(m) && SortedByBusy(m, order)
    ensures Inv(Keepalive(m, order))
  {
    if !m.discarded {
      var m' := Keepalive(m, order);
      assert IsPermutation(m'.sorted, |m.tunnels|);
      PermutationPositions(m'.sorted, |m.tunnels|);
      assert forall j: nat :: Places(m', j) == Places(m, j);
      forall i | 0 <= i < |m'.tunnels| && m'.tunnels[i].Some?
        ensures Balanced(m'.tunnels[i].value) && KeepsRoom(m'.tunnels[i].value)
      {
        assert m.tunnels[i].Some? && Balanced(m.tunnels[i].value);
      }
    }
  }

  /** Where the selector points, the following allocation succeeds, and one slot
      stays free. A request fails exactly when no live tunnel has two free
      slots left. */
  lemma SelectionImpliesAllocation(m: Mgr, tx: Channel, target: seq<u8>)
    requires Inv(m) && !m.discarded
    ensures Request(m, tx, target).1.None? <==>
            forall i | 0 <= i < |m.tunnels| && m.tunnels[i].Some? ::
              m.tunnels[i].value.reqCount + 1 >= m.tunnels[i].value.capacity
    ensures Request(m, tx, target).1.None? ==> Request(m, tx, target).0 == m
    ensures Inv(Request(m, tx, target).0)
  {
    var ok := Flags(m);
    PickIsComplete(ok, m.current);
    PermutationPositions(m.sorted, |m.tunnels|);
    var pos := Pick(ok, m.current);
    if pos.Some? {
      var i := m.sorted[pos.value];
      var t := m.tunnels[i].value;
      assert IsEligible(m.tunnels[i]) && KeepsRoom(t) && Balanced(t);
      OpenKeeps(t, tx, target);
      var t' := OpenRequest(t, tx, target).0;
      TunnelKeepsInv(m, i, t', Behind(|m.sorted|, pos.value));
    } else {
      forall i | 0 <= i < |m.tunnels| && m.tunnels[i].Some?
        ensures m.tunnels[i].value.reqCount + 1 >= m.tunnels[i].value.capacity
      {
        assert i in m.sorted && KeepsRoom(m.tunnels[i].value);
        var k :| 0 <= k < |m.sorted| && m.sorted[k] == i;
        assert !ok[k];
      }
    }
  }

  lemma ReleaseKeepsRoom(t: TunState, h: Handle)
    requires Balanced(t) && KeepsRoom(t) && !FreesUnused(t.pool, h)
    ensures Balanced(Release(t, h).0) && KeepsRoom(Release(t, h).0)
  {
    ReleaseKeeps(t, h);
  }

  lemma ReceiveKeepsRoom(t: TunState, f: seq<u8>)
    requires Balanced(t) && KeepsRoom(t) && Receive(t, f).Some?
    requires ClosedBy(f).Some? ==> !FreesUnused(t.pool, ClosedBy(f).value)
    ensures Balanced(Receive(t, f).value.0) && KeepsRoom(Receive(t, f).value.0)
  {
    ReceiveKeepsIff(t, f);
    if ClosedBy(f).Some? {
      ReleaseKeepsRoom(t.(busy := t.busy + (|f| - 2)), ClosedBy(f).value);
    }
  }

  lemma StepKeepsInv(m: Mgr, e: Event)
    requires Inv(m) && Possible(m, e)
    ensures Next(m, e).Some? && Inv(Next(m, e).value)
  {
    match e
    case Connected(i) => CreatedKeepsInv(m, i);
    case ConnectFailed(i) => BuildFailedKeepsInv(m, i);
    case LinkEnded(i) => LostKeepsInv(m, i);
    case NewRequest(tx, target) =>
      if !m.discarded {
        SelectionImpliesAllocation(m, tx, target);
      }
    case RequestEnded(i, h) =>
      if m.tunnels[i].Some? {
        assert Balanced(m.tunnels[i].value) && KeepsRoom(m.tunnels[i].value);
        ReleaseKeepsRoom(m.tunnels[i].value, h);
        TunnelKeepsInv(m, i, CloseRequest(m.tunnels[i].value, h).0, m.current);
      }
    case Incoming(i, f) =>
      assert Balanced(m.tunnels[i].value) && KeepsRoom(m.tunnels[i].value);
      ReceiveKeepsRoom(m.tunnels[i].value, f);
      TunnelKeepsInv(m, i, Receive(m.tunnels[i].value, f).value.0, m.current);
    case Timer(order) => TimerKeepsInv(m, order);
    case Discard =>
      assert forall j: nat :: Places(Stop(m), j) == Places(m, j);
  }

  // ----- what the steps do to the tunnels

  /** Only tunnel `i` may differ. */
  ghost predicate OthersStay(m: Mgr, m': Mgr, i: nat) {
    |m.tunnels| == |m'.tunnels| && forall j | 0 <= j < |m.tunnels| && j != i :: m'.tunnels[j] == m.tunnels[j]
  }

  /** A request that is placed gets a stub that names the tunnel it was placed in, a
      live one, which now has one request more, holds its channel under the handle,
      and has announced it. A request that is not placed changes nothing. */
  lemma StubNamesItsTunnel(m: Mgr, tx: Channel, target: seq<u8>)
    requires Inv(m)
    ensures var (m', stub, sent) := Request(m, tx, target);
      if stub.None? then m' == m && sent == []
      else
        var (i, h) := stub.value;
        && i < |m.tunnels| && OthersStay(m, m', i) && m.tunnels[i].Some? && m'.tunnels[i].Some?
        && m'.tunnels[i].value.reqCount == m.tunnels[i].value.reqCount + 1
        && Lookup(m'.tunnels[i].value.pool, h) == Some(tx)
        && sent == OpenRequest(m.tunnels[i].value, tx, target).2
        && OpenRequest(m.tunnels[i].value, tx, target).1 == Some(h)
  {
    hide Encode, NoTunnels, Bump;
    if !m.discarded {
      PickIsComplete(Flags(m), m.current);
      var pos := Pick(Flags(m), m.current);
      if pos.Some? {
        var t := m.tunnels[m.sorted[pos.value]].value;
        assert IsEligible(Some(t)) && KeepsRoom(t) && Balanced(t);
        AllocKeeps(t.pool, tx);
        OpenKeeps(t, tx, target);
      }
    }
  }

  /** A closed request reaches the tunnel of its stub and no other, if that is live. */
  lemma CloseReachesItsTunnel(m: Mgr, i: nat, h: Handle)
    requires i < |m.tunnels|
    ensures var (m', sent) := Closed(m, i, h);
      && OthersStay(m, m', i) && m' == m.(tunnels := m'.tunnels)
      && (if m.tunnels[i].None? then m' == m && sent == []
          else m'.tunnels[i].Some? && (m'.tunnels[i].value, sent) == CloseRequest(m.tunnels[i].value, h))
  {
  }

  /** A message reaches the tunnel of its link and no other. */
  lemma MessageReachesItsTunnel(m: Mgr, i: nat, f: seq<u8>)
    requires i < |m.tunnels| && m.tunnels[i].Some? && Receive(m.tunnels[i].value, f).Some?
    ensures var m' := Arrived(m, i, f);
      && OthersStay(m, m', i) && m' == m.(tunnels := m'.tunnels)
      && m'.tunnels[i] == Some(Receive(m.tunnels[i].value, f).value.0)
  {
  }

  /** Before `stop`, a tunnel that is created starts with all the slots that are
      asked for, and one that is lost is gone; after it, none comes. */
  lemma TunnelsComeAndGo(m: Mgr, i: nat)
    requires Inv(m) && i < |m.tunnels|
    ensures i in m.connecting ==> Created(m, i).Some?
    ensures i in m.connecting ==> var m' := Created(m, i).value;
      && OthersStay(m, m', i) && m'.tunnels[i] == if m.discarded then None else Some(NewTunnel(m.reqCap))
    ensures var t := NewTunnel(m.reqCap); t.capacity == |t.pool.free| == m.reqCap && t.reqCount == t.busy == 0
    ensures OthersStay(m, Lost(m, i), i) && Lost(m, i).tunnels[i] == None
    ensures i in m.connecting ==> BuildFailed(m, i).tunnels == m.tunnels
    ensures !m.discarded ==> BuildFailed(m, i).queue == m.queue + [i]
    ensures !m.discarded && m.tunnels[i].Some? ==> Lost(m, i).queue == m.queue + [i]
    ensures m.discarded ==> BuildFailed(m, i).queue == Lost(m, i).queue == m.queue
  {
    if i in m.connecting {
      NoTunnelAlready(m, i);
    }
  }

  /** Before `stop`, the timer empties the queue into connecting tasks, and every live
      tunnel starts counting its load afresh. */
  lemma TimerStartsAfresh(m: Mgr, order: seq<nat>, i: nat)
    requires Inv(m) && SortedByBusy(m, order) && i < |m.tunnels|
    ensures var m' := Keepalive(m, order);
      if m.discarded then m' == m
      else
        && m'.queue == [] && m'.connecting[i] == m.connecting[i] + multiset(m.queue)[i] && m'.sorted == order
        && (if m.tunnels[i].None? then m'.tunnels[i] == None
            else m'.tunnels[i].Some? && m'.tunnels[i].value.busy == 0
                 && m'.tunnels[i].value.(busy := m.tunnels[i].value.busy) == m.tunnels[i].value)
  {
  }

  // ----- whole runs

  /** The state after a run; `None` once something impossible was asked for. */
  ghost function RunFrom(m: Mgr, events: seq<Event>): (r: Option<Mgr>)
    requires Inv(m)
    ensures r.Some? ==> Inv(r.value)
    decreases |events|
  {
    if events == [] then Some(m)
    else if !Possible(m, events[0]) then None
    else
      StepKeepsInv(m, events[0]);
      RunFrom(Next(m, events[0]).value, events[1..])
  }

  ghost function Run(count: u16, reqCap: u16, events: seq<Event>): (r: Option<Mgr>)
    ensures r.Some? ==> Inv(r.value)
  {
    BootIsInv(count, reqCap);
    RunFrom(Boot(count, reqCap), events)
  }

  lemma {:induction false} RunKeepsSize(m: Mgr, events: seq<Event>)
    requires Inv(m) && RunFrom(m, events).Some?
    ensures |RunFrom(m, events).value.tunnels| == |m.tunnels|
    decreases |events|
  {
    if events != [] {
      StepKeepsInv(m, events[0]);
      RunKeepsSize(Next(m, events[0]).value, events[1..]);
    }
  }

  /** In every run, before `stop`, each index is in exactly one of three places:
      it has one connecting task, or one serving task and a live tunnel, or one
      entry in the reconnect queue. No run reaches the panic. */
  lemma EveryIndexHasOnePlace(count: u16, reqCap: u16, events: seq<Event>, i: nat)
    requires Run(count, reqCap, events).Some? && i < count
    ensures var m := Run(count, reqCap, events).value;
      && |m.tunnels| == count
      && (!m.discarded ==> m.connecting[i] + multiset(m.queue)[i] + (if m.tunnels[i].Some? then 1 else 0) == 1)
      && (m.tunnels[i].Some? <==> i in m.serving)
      && (forall j: nat | j in m.connecting :: j < count && Created(m, j).Some?)
  {
    BootIsInv(count, reqCap);
    RunKeepsSize(Boot(count, reqCap), events);
    var m := Run(count, reqCap, events).value;
    assert Places(m, i) <= 1 && (!m.discarded ==> Places(m, i) == 1);
    forall j: nat | j in m.connecting
      ensures j < count && Created(m, j).Some?
    {
      NoTunnelAlready(m, j);
    }
  }

  /** In every run, each live tunnel that has a slot at all has a free one. */
  lemma LiveTunnelsKeepAFreeSlot(count: u16, reqCap: u16, events: seq<Event>, i: nat)
    requires Run(count, reqCap, events).Some? && i < |Run(count, reqCap, events).value.tunnels|
    requires Run(count, reqCap, events).value.tunnels[i].Some?
    ensures var t := Run(count, reqCap, events).value.tunnels[i].value;
            t.capacity > 0 ==> t.pool.free != []
  {
    var m := Run(count, reqCap, events).value;
    assert Balanced(m.tunnels[i].value) && KeepsRoom(m.tunnels[i].value);
  }

  /** After `stop` nothing starts any more: whatever happens, the connecting and
      serving tasks only become fewer, and no request is placed. */
  lemma {:induction false} NothingStartsAfterStop(m: Mgr, events: seq<Event>)
    requires Inv(m) && m.discarded && RunFrom(m, events).Some?
    ensures var m' := RunFrom(m, events).value;
      m'.discarded && m'.connecting <= m.connecting && m'.serving <= m.serving
    ensures forall tx, target :: Request(m, tx, target) == (m, None, [])
    decreases |events|
  {
    hide Inv, WellFormed;
    if events != [] {
      StepKeepsInv(m, events[0]);
      NothingStartsAfterStop(Next(m, events[0]).value, events[1..]);
    }
  }

  // ----- fairness

  /** The position that a step picks, if it selects a tunnel. */
  ghost function Selected(m: Mgr, e: Event): (pos: Option<nat>)
    requires Inv(m)
    ensures pos.Some? ==> pos.value < |m.sorted|
  {
    if e.NewRequest? && !m.discarded then Pick(Flags(m), m.current) else None
  }

  lemma StepMovesCursor(m: Mgr, e: Event)
    requires Inv(m) && Possible(m, e) && !e.Timer?
    ensures Next(m, e).Some? && Inv(Next(m, e).value) && Next(m, e).value.sorted == m.sorted
    ensures Next(m, e).value.current ==
            if Selected(m, e).Some? then Behind(|m.sorted|, Selected(m, e).value) else m.current
  {
    StepKeepsInv(m, e);
  }

  /** The selections of a run: at each of them, which positions were eligible,
      and which one was picked. */
  ghost function Selections(m: Mgr, events: seq<Event>): (r: (seq<seq<bool>>, seq<nat>))
    requires Inv(m) && RunFrom(m, events).Some?
    decreases |events|
  {
    if events == [] then ([], [])
    else
      StepKeepsInv(m, events[0]);
      var (oks, picks) := Selections(Next(m, events[0]).value, events[1..]);
      var pos := Selected(m, events[0]);
      if pos.Some? then ([Flags(m)] + oks, [pos.value] + picks) else (oks, picks)
  }

  /** Between two sorts, the selections of any run go round: `FairBetweenPicks`
      is about them. */
  lemma {:induction false} SelectionsGoRound(m: Mgr, events: seq<Event>)
    requires Inv(m) && RunFrom(m, events).Some? && m.current < |m.sorted|
    requires forall e | e in events :: !e.Timer?
    ensures Picks(|m.sorted|, Selections(m, events).0, m.current, Selections(m, events).1)
    decreases |events|
  {
    if events != [] {
      var e := events[0];
      assert e in events;
      StepMovesCursor(m, e);
      var m' := Next(m, e).value;
      SelectionsGoRound(m', events[1..]);
      var (oks, picks) := Selections(m', events[1..]);
      if Selected(m, e).Some? {
        assert ([Flags(m)] + oks)[1..] == oks && ([Selected(m, e).value] + picks)[1..] == picks;
      }
    }
  }

  /** So, between two picks of one tunnel, another that stays eligible is picked
      once, and once more for every selection that goes past the first: exactly
      once if and only if none does. */
  lemma TunnelsTakeTurns(m: Mgr, events: seq<Event>, mid: seq<nat>, p: nat, q: nat)
    requires Inv(m) && RunFrom(m, events).Some? && (forall e | e in events :: !e.Timer?)
    requires p < |m.sorted| && q < |m.sorted| && p != q && q !in mid
    requires m.current == Behind(|m.sorted|, q) && Selections(m, events).1 == mid + [q]
    requires EligibleThroughout(|m.sorted|, Selections(m, events).0, p)
    ensures var skips := SkipCount(|m.sorted|, Selections(m, events).0, m.current, mid + [q], q);
      multiset(mid)[p] == 1 + skips && (multiset(mid)[p] == 1 <==> skips == 0)
  {
    SelectionsGoRound(m, events);
    FairBetweenPicks(|m.sorted|, Selections(m, events).0, mid, p, q);
  }

  // ----- a run in which a tunnel is picked twice

  /** Two live tunnels with two slots each, of which the selector uses one. */
  ghost predicate IsPair(m: Mgr, full: seq<bool>) {
    && Inv(m) && !m.discarded && m.sorted == [0, 1] && m.current < 2 && |m.tunnels| == |full| == 2
    && (forall i | 0 <= i < 2 :: m.tunnels[i].Some? && m.tunnels[i].value.capacity == 2
                                 && m.tunnels[i].value.reqCount == if full[i] then 1 else 0)
  }

  lemma PairFlags(m: Mgr, full: seq<bool>)
    requires IsPair(m, full)
    ensures Flags(m) == [!full[0], !full[1]]
  {
    assert m.sorted[0] == 0 && m.sorted[1] == 1;
  }

  ghost predicate Serves(m: Mgr, i: nat, h: Handle) {
    && i < |m.tunnels| && m.tunnels[i].Some? && h.idx < |m.tunnels[i].value.pool.elements|
    && m.tunnels[i].value.pool.elements[h.idx].tag == h.tag && h.tag % 2 == 1
  }

  lemma OpenServes(t: TunState, tx: Channel)
    requires Balanced(t) && t.reqCount < t.capacity
    ensures var (t', h, _) := OpenRequest(t, tx, []);
      && t'.capacity == t.capacity && t'.reqCount == t.reqCount + 1 && h.Some?
      && h.value.idx < |t'.pool.elements| && t'.pool.elements[h.value.idx].tag == h.value.tag && h.value.tag % 2 == 1
  {
    AllocKeeps(t.pool, tx);
    OpenKeeps(t, tx, []);
  }

  lemma PairPlaces(m: Mgr, full: seq<bool>, i: nat, tx: Channel) returns (m': Mgr, h: Handle)
    requires IsPair(m, full) && i < 2 && Pick([!full[0], !full[1]], m.current) == Some(i)
    ensures Next(m, NewRequest(tx, [])) == Some(m') && IsPair(m', full[i := true]) && m'.current == Behind(2, i)
    ensures Selected(m, NewRequest(tx, [])) == Some(i) && Serves(m', i, h) && m'.tunnels[1 - i] == m.tunnels[1 - i]
  {
    hide Inv, Pick, Balanced, OpenRequest;
    PairFlags(m, full);
    StepKeepsInv(m, NewRequest(tx, []));
    PairIsBalanced(m, full, i);
    SizeIsSmall(m.tunnels[i].value.pool);
    m' := Next(m, NewRequest(tx, [])).value;
    var t := m.tunnels[i].value;
    OpenServes(t, tx);
    assert m.sorted[i] == i;
    h := OpenRequest(t, tx, []).1.value;
  }

  lemma PairIsBalanced(m: Mgr, full: seq<bool>, i: nat)
    requires IsPair(m, full) && i < 2
    ensures Balanced(m.tunnels[i].value) && Conserved(m.tunnels[i].value.pool) && (!full[i] ==> m.tunnels[i].value.reqCount < m.tunnels[i].value.capacity)
  {
  }

  lemma PairEnds(m: Mgr, full: seq<bool>, i: nat, h: Handle) returns (m': Mgr)
    requires IsPair(m, full) && i < 2 && full[i] && Serves(m, i, h)
    ensures Possible(m, RequestEnded(i, h)) && Next(m, RequestEnded(i, h)) == Some(m') && IsPair(m', full[i := false])
    ensures m'.current == m.current && m'.tunnels[1 - i] == m.tunnels[1 - i]
  {
    hide Inv, Pick, Balanced, Conserved;
    PairIsBalanced(m, full, i);
    StepKeepsInv(m, RequestEnded(i, h));
    m' := Next(m, RequestEnded(i, h)).value;
    ReleaseKeeps(m.tunnels[i].value, h);
  }

  /** One step of a run and its selection. */
  lemma RunStep(m: Mgr, e: Event, rest: seq<Event>, m': Mgr)
    requires Inv(m) && Possible(m, e) && Next(m, e) == Some(m') && Inv(m') && RunFrom(m', rest).Some?
    ensures RunFrom(m, [e] + rest) == RunFrom(m', rest)
    ensures var (oks, picks) := Selections(m', rest);
      Selections(m, [e] + rest) ==
      if Selected(m, e).Some? then ([Flags(m)] + oks, [Selected(m, e).value] + picks) else (oks, picks)
  {
    assert ([e] + rest)[1..] == rest;
  }

  lemma NothingRuns(m: Mgr)
    requires Inv(m)
    ensures RunFrom(m, []) == Some(m) && Selections(m, []) == ([], [])
  {
  }

  lemma BootOfTwo()
    ensures var m := Boot(2, 2);
      && Inv(m) && m.sorted == [0, 1] && m.current == 0 && !m.discarded && m.reqCap == 2
      && |m.tunnels| == 2 && m.connecting[0] == 1 && m.connecting[1] == 1
  {
    BootIsInv(2, 2);
    IndexesArePermutation(2);
    assert Indexes(2) == [0, 1];
  }

  lemma ConnectsOne(m: Mgr, i: nat) returns (m': Mgr)
    requires Inv(m) && i in m.connecting && i < |m.tunnels| && !m.discarded
    ensures Possible(m, Connected(i)) && Next(m, Connected(i)) == Some(m') && Inv(m') && Selected(m, Connected(i)).None?
    ensures m' == m.(tunnels := m.tunnels[i := Some(NewTunnel(m.reqCap))], connecting := m.connecting - multiset{i},
                     serving := m.serving + multiset{i})
  {
    hide Inv;
    StepKeepsInv(m, Connected(i));
    NoTunnelAlready(m, i);
    m' := Next(m, Connected(i)).value;
  }

  /** Two tunnels connect, and the first takes a request. */
  lemma PairStarts() returns (before: seq<Event>, m: Mgr, h: Handle)
    ensures Run(2, 2, before) == Some(m) && IsPair(m, [true, false]) && m.current == Behind(2, 0) && Serves(m, 0, h)
  {
    hide Inv, RunFrom, Boot, Next, Possible, Selections, Flags;
    BootOfTwo();
    var m1 := ConnectsOne(Boot(2, 2), 0);
    var m2 := ConnectsOne(m1, 1);
    m, h := PairPlaces(m2, [false, false], 0, 0);
    assert [false, false][0 := true] == [true, false];
    PairIsInv(m, [true, false]);
    NothingRuns(m);
    RunStep(m2, NewRequest(0, []), [], m);
    var rest := [NewRequest(0, [])] + [];
    RunStep(m1, Connected(1), rest, m2);
    RunStep(Boot(2, 2), Connected(0), [Connected(1)] + rest, m1);
    before := [Connected(0)] + ([Connected(1)] + rest);
  }

  lemma PairIsInv(m: Mgr, full: seq<bool>)
    requires IsPair(m, full)
    ensures Inv(m) && |m.sorted| == 2
  {
  }

  /** "Exactly once" is false of the code: from the start, tunnel 0 takes a
      request, tunnel 1 takes two while tunnel 0 is full, and then tunnel 0 is
      picked again. Tunnel 1 could have taken a request all the time. */
  lemma TwiceInARun() returns (before: seq<Event>, events: seq<Event>)
    ensures Run(2, 2, before).Some? && RunFrom(Run(2, 2, before).value, events).Some?
    ensures var m := Run(2, 2, before).value;
      && (forall e | e in events :: !e.Timer?)
      && m.sorted == [0, 1] && m.current == Behind(2, 0) && Selections(m, events).1 == [1, 1] + [0]
      && EligibleThroughout(2, Selections(m, events).0, 1)
  {
    hide Inv, RunFrom, Next, Possible, Selections, Flags;
    var idle, left, right, both := [false, false], [true, false], [false, true], [true, true];
    assert left[1 := true] == both && both[1 := false] == left && both[0 := false] == right && right[1 := false] == idle;
    var m, h0;
    before, m, h0 := PairStarts();
    var m1, h1 := PairPlaces(m, left, 1, 1);
    var m2 := PairEnds(m1, both, 1, h1);
    var m3, h2 := PairPlaces(m2, left, 1, 2);
    var m4 := PairEnds(m3, both, 0, h0);
    var m5 := PairEnds(m4, right, 1, h2);
    var m6, h3 := PairPlaces(m5, idle, 0, 3);
    PairFlags(m, left);
    PairFlags(m2, left);
    PairFlags(m5, idle);
    NothingRuns(m6);
    var e6 := [NewRequest(3, [])] + [];
    RunStep(m5, NewRequest(3, []), [], m6);
    var e5 := [RequestEnded(1, h2)] + e6;
    RunStep(m4, RequestEnded(1, h2), e6, m5);
    var e4 := [RequestEnded(0, h0)] + e5;
    RunStep(m3, RequestEnded(0, h0), e5, m4);
    var e3 := [NewRequest(2, [])] + e4;
    RunStep(m2, NewRequest(2, []), e4, m3);
    var e2 := [RequestEnded(1, h1)] + e3;
    RunStep(m1, RequestEnded(1, h1), e3, m2);
    events := [NewRequest(1, [])] + e2;
    RunStep(m, NewRequest(1, []), e2, m1);
    assert Selections(m, events).0 == [[false, true], [false, true], [true, true]];
  }

  // ----- the class

  class TunMgr {
    const reqCap: u16
    var tunnels: seq<Option<TunState>>
    var sortedTunIndies: seq<nat>
    var currentTunIdx: nat
    var reconnectQueue: seq<nat>
    var discarded: bool
    var connecting: multiset<nat>
    var serving: multiset<nat>

    ghost function Value(): Mgr
      reads this
    {
      Mgr(reqCap, tunnels, sortedTunIndies, currentTunIdx, reconnectQueue, discarded, connecting, serving)
    }

    /** `new`, then `init`: one connect per index. */
    constructor (count: u16, reqCap: u16)
      ensures Value() == Boot(count, reqCap)
    {
      this.reqCap, discarded := reqCap, false;
      tunnels, sortedTunIndies, currentTunIdx, reconnectQueue := [], [], 0, [];
      connecting, serving := multiset{}, multiset{};
      new;
      for n := 0 to count
        invariant tunnels == NoTunnels(n) && sortedTunIndies == Indexes(n)
        invariant Value() == Mgr(reqCap, tunnels, sortedTunIndies, 0, [], false, multiset{}, multiset{})
      {
        tunnels := tunnels + [None];
        sortedTunIndies := sortedTunIndies + [n];
      }
      for n := 0 to count
        invariant connecting == multiset(Indexes(n))
        invariant Value() == Mgr(reqCap, NoTunnels(count), Indexes(count), 0, [], false, connecting, multiset{})
      {
        assert Indexes(n + 1) == Indexes(n) + [n];
        Connect(n);
      }
    }

    /** `tunbuilder::connect` spawns the task of an index. */
    method Connect(i: nat)
      modifies this`connecting
      ensures connecting == old(connecting) + multiset{i}
    {
      connecting := connecting + multiset{i};
    }

    /** The answer is false when the manager has been discarded; reaching the
        branch of the panic is ruled out by the invariant of every run. */
    method OnTunnelCreated(i: nat) returns (accepted: bool)
      requires Inv(Value()) && i in connecting && i < |tunnels|
      modifies this
      ensures Created(old(Value()), i) == Some(Value()) && accepted == !discarded
    {
      NoTunnelAlready(Value(), i);
      connecting := connecting - multiset{i};
      if discarded {
        return false;
      }
      assert tunnels[i].None?;
      tunnels := tunnels[i := Some(NewTunnel(reqCap))];
      serving := serving + multiset{i};
      return true;
    }

    method OnTunnelBuildError(i: nat)
      modifies this
      ensures Value() == BuildFailed(old(Value()), i)
    {
      connecting := connecting - multiset{i};
      if discarded {
        return;
      }
      reconnectQueue := reconnectQueue + [i];
    }

    method OnTunnelClosed(i: nat)
      requires i < |tunnels|
      modifies this
      ensures Value() == Lost(old(Value()), i)
    {
      serving := serving - multiset{i};
      var t := tunnels[i];
      if t.Some? {
        tunnels := tunnels[i := None];
        if discarded {
          return;
        }
        reconnectQueue := reconnectQueue + [i];
      } else {
        assert tunnels == tunnels[i := None];
      }
    }

    method Advance(n: nat, length: nat)
      requires n < length
      modifies this`currentTunIdx
      ensures currentTunIdx == Behind(length, n)
    {
      currentTunIdx := (n + 1) % length;
    }

    /** One loop of `alloc_tunnel_for_req`: the first position in `[from, end)` whose
        tunnel is live and has room. */
    method Search(from: nat, end: nat) returns (pos: Option<nat>)
      requires WellFormed(Value()) && from <= end <= |sortedTunIndies|
      ensures pos == FirstIn(Flags(Value()), from, end)
    {
      ghost var ok := Flags(Value());
      for n := from to end
        invariant FirstIn(ok, from, end) == FirstIn(ok, n, end)
      {
        var t := tunnels[sortedTunIndies[n]];
        assert ok[n] == IsEligible(t);
        if t.Some? && !(Truncate16(t.value.reqCount + 1) >= t.value.capacity) {
          return Some(n);
        }
      }
      return None;
    }

    /** From the cursor to the end, then from the start to the cursor; the answer
        is a tunnel index. */
    method AllocTunnelForReq() returns (r: Option<nat>)
      requires WellFormed(Value())
      modifies this`currentTunIdx
      ensures var pos := Pick(Flags(Value()), old(currentTunIdx));
        if pos.None? then r.None? && currentTunIdx == old(currentTunIdx)
        else r == Some(sortedTunIndies[pos.value]) && currentTunIdx == Behind(|sortedTunIndies|, pos.value)
    {
      hide FirstIn, Balanced;
      var length := |sortedTunIndies|;
      var n := Search(currentTunIdx, length);
      if n.None? {
        n := Search(0, currentTunIdx);
      }
      if n.None? {
        return None;
      }
      Advance(n.value, length);
      return Some(sortedTunIndies[n.value]);
    }

    method OnRequestCreated(tx: Channel, target: seq<u8>) returns (stub: Option<(nat, Handle)>, sent: seq<Effect>)
      requires WellFormed(Value())
      modifies this
      ensures (Value(), stub, sent) == Request(old(Value()), tx, target)
    {
      if discarded {
        return None, [];
      }
      var i := AllocTunnelForReq();
      if i.None? {
        return None, [];
      }
      var (t, h, messages) := OpenRequest(tunnels[i.value].value, tx, target);
      tunnels := tunnels[i.value := Some(t)];
      return if h.None? then None else Some((i.value, h.value)), messages;
    }

    method OnRequestClosed(i: nat, h: Handle) returns (sent: seq<Effect>)
      requires i < |tunnels|
      modifies this
      ensures (Value(), sent) == Closed(old(Value()), i, h)
    {
      var item := tunnels[i];
      sent := [];
      if item.Some? {
        var (t, messages) := CloseRequest(item.value, h);
        tunnels := tunnels[i := Some(t)];
        sent := messages;
      }
    }

    method SortTunnelsByBusy(order: seq<nat>)
      requires SortedByBusy(Value(), order)
      modifies this`sortedTunIndies, this`tunnels
      ensures sortedTunIndies == order && tunnels == ResetBusy(old(tunnels))
    {
      sortedTunIndies := order;
      var n := 0;
      while n < |tunnels|
        invariant n <= |tunnels| == |old(tunnels)| && sortedTunIndies == order
        invariant forall i | 0 <= i < n :: tunnels[i] == ResetBusy(old(tunnels))[i]
        invariant forall i | n <= i < |tunnels| :: tunnels[i] == old(tunnels)[i]
      {
        if tunnels[n].Some? {
          tunnels := tunnels[n := Some(tunnels[n].value.(busy := 0))];
        }
        n := n + 1;
      }
      assert tunnels == ResetBusy(old(tunnels));
    }

    /** Every queued index is popped and gets a connect of its own. */
    method ProcessReconnect()
      modifies this`reconnectQueue, this`connecting
      ensures reconnectQueue == [] && connecting == old(connecting) + multiset(old(reconnectQueue))
    {
      while reconnectQueue != []
        invariant connecting + multiset(reconnectQueue) == old(connecting) + multiset(old(reconnectQueue))
        decreases |reconnectQueue|
      {
        var last := |reconnectQueue| - 1;
        var index := reconnectQueue[last];
        assert reconnectQueue == reconnectQueue[..last] + [index];
        reconnectQueue := reconnectQueue[..last];
        Connect(index);
      }
    }

    method OnKeepalive(order: seq<nat>)
      requires SortedByBusy(Value(), order)
      modifies this
      ensures Value() == Keepalive(old(Value()), order)
    {
      if discarded {
        return;
      }
      SortTunnelsByBusy(order);
      ProcessReconnect();
    }

    method Discard()
      modifies this
      ensures Value() == Stop(old(Value()))
    {
      discarded := true;
    }
  }
}
