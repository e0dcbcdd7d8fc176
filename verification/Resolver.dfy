/** The resolver's memo of pending requests: two generations of a map, which refine
    a log of requests with the time each was made, counted in keepalives. */
module Resolvers {
  import opened Bytes

  type Addr = nat
  type Key = seq<u8>

  const COLON: u8 := 58

  // ----- keys

  /** The digits of a number in decimal. */
  function Decimal(n: nat): (ds: seq<u8>)
    ensures forall i | 0 <= i < |ds| :: 48 <= ds[i] < 58
  {
    if n < 10 then [48 + n] else Decimal(n / 10) + [48 + n % 10]
  }

  function Value(ds: seq<u8>): int {
    if ds == [] then 0 else 10 * Value(ds[..|ds| - 1]) + ds[|ds| - 1] - 48
  }

  lemma {:induction false} DecimalValue(n: nat)
    ensures Value(Decimal(n)) == n
  {
    if n >= 10 {
      DecimalValue(n / 10);
      assert Decimal(n)[..|Decimal(n)| - 1] == Decimal(n / 10);
    }
  }

  /** `format!("{}:{}", qname, identify)` */
  function KeyOf(qname: seq<u8>, identify: u16): Key {
    qname + [COLON] + Decimal(identify)
  }

  /** The name, a colon, and the digits of the number. */
  lemma KeyLayout(q: seq<u8>, id: u16)
    ensures KeyOf(q, id)[..|q|] == q && KeyOf(q, id)[|q|] == 58
    ensures Value(KeyOf(q, id)[|q| + 1..]) == id
    ensures id > 0 ==> KeyOf(q, id)[|q| + 1] != 48
    ensures id == 0 ==> KeyOf(q, id) == q + [58, 48]
  {
    assert KeyOf(q, id)[|q| + 1..] == Decimal(id);
    DecimalValue(id);
    NoLeadingZero(id);
  }

  lemma {:induction false} NoLeadingZero(n: nat)
    ensures Decimal(n) != [] && (n > 0 ==> Decimal(n)[0] != 48)
  {
    if n >= 10 {
      NoLeadingZero(n / 10);
    }
  }

  lemma LastColon(q: seq<u8>, id: u16)
    ensures KeyOf(q, id)[|q|] == COLON
    ensures forall i | |q| < i < |KeyOf(q, id)| :: KeyOf(q, id)[i] != COLON
  {
    forall i | |q| < i < |KeyOf(q, id)|
      ensures KeyOf(q, id)[i] != COLON
    {
      assert KeyOf(q, id)[i] == Decimal(id)[i - |q| - 1];
    }
  }

  /** The last colon tells the parts apart, whatever the name contains. */
  lemma KeyIsInjective(q: seq<u8>, id: u16, q2: seq<u8>, id2: u16)
    ensures KeyOf(q, id) == KeyOf(q2, id2) <==> q == q2 && id == id2
  {
    if KeyOf(q, id) == KeyOf(q2, id2) {
      var k, d, d2 := KeyOf(q, id), Decimal(id), Decimal(id2);
      LastColon(q, id);
      LastColon(q2, id2);
      assert k[..|q|] == q && k[..|q2|] == q2;
      assert k[|q| + 1..] == d && k[|q2| + 1..] == d2;
      DecimalValue(id);
      DecimalValue(id2);
    }
  }

  // ----- the two generations

  datatype Memo = Memo(current: map<Key, Addr>, history: map<Key, Addr>)

  datatype Event =
    | Request(key: Key, addr: Addr)
    | Take(key: Key)
    | Keepalive

  function Step(m: Memo, e: Event): Memo {
    match e
    case Request(key, addr) => m.(current := m.current[key := addr])
    case Take(key) => if key in m.history then m.(history := m.history - {key}) else m.(current := m.current - {key})
    case Keepalive => Memo(map[], m.current)
  }

  function Lookup(m: map<Key, Addr>, key: Key): Option<Addr> {
    if key in m then Some(m[key]) else None
  }

  /** What `take` answers. */
  function Taken(m: Memo, key: Key): Option<Addr> {
    if key in m.history then Lookup(m.history, key) else Lookup(m.current, key)
  }

  function Run(m: Memo, events: seq<Event>): Memo
    decreases |events|
  {
    if events == [] then m else Run(Step(m, events[0]), events[1..])
  }

  // ----- the log

  datatype Record = Record(key: Key, addr: Addr, at: nat)

  /** Requests with the keepalive period they were made in; nothing is ever moved,
      and a record is forgotten only by being taken or overwritten. */
  datatype Log = Log(records: set<Record>, now: nat)

  /** Fewer than two keepalives have passed. */
  predicate IsLive(log: Log, r: Record) {
    log.now <= r.at + 1
  }

  ghost predicate IsOldest(log: Log, key: Key, r: Record) {
    && r in log.records && r.key == key && IsLive(log, r)
    && (forall o | o in log.records && o.key == key && IsLive(log, o) :: r.at <= o.at)
  }

  /** The oldest live record of a key, if there is one. */
  ghost function Oldest(log: Log, key: Key): Option<Record> {
    if r :| IsOldest(log, key, r) then Some(r) else None
  }

  ghost function LogTaken(log: Log, key: Key): Option<Addr> {
    match Oldest(log, key)
    case None => None
    case Some(r) => Some(r.addr)
  }

  ghost function LogStep(log: Log, e: Event): Log {
    match e
    case Request(key, addr) =>
      var others := set r | r in log.records && !(r.key == key && r.at == log.now);
      log.(records := others + {Record(key, addr, log.now)})
    case Take(key) =>
      (match Oldest(log, key)
       case None => log
       case Some(r) => log.(records := log.records - {r}))
    case Keepalive => log.(now := log.now + 1)
  }

  /** Each generation holds the records of one period. */
  ghost predicate HoldsPeriod(m: map<Key, Addr>, log: Log, at: int) {
    && (forall k | k in m :: at >= 0 && Record(k, m[k], at) in log.records)
    && (forall r | r in log.records && r.at == at :: r.key in m && m[r.key] == r.addr)
  }

  ghost predicate Refines(m: Memo, log: Log) {
    && HoldsPeriod(m.current, log, log.now) && HoldsPeriod(m.history, log, log.now - 1)
    && (forall r | r in log.records :: r.at <= log.now)
  }

  /** Of two requests under one key the older one is answered first. */
  lemma OldestIs(m: Memo, log: Log, key: Key)
    requires Refines(m, log)
    ensures Oldest(log, key) ==
      if key in m.history then Some(Record(key, m.history[key], log.now - 1))
      else if key in m.current then Some(Record(key, m.current[key], log.now))
      else None
  {
    if key in m.history {
      var r := Record(key, m.history[key], log.now - 1);
      assert IsOldest(log, key, r);
    } else if key in m.current {
      var r := Record(key, m.current[key], log.now);
      assert IsOldest(log, key, r);
    }
  }

  lemma RequestRefines(m: Memo, log: Log, key: Key, addr: Addr)
    requires Refines(m, log)
    ensures Refines(Step(m, Request(key, addr)), LogStep(log, Request(key, addr)))
  {
  }

  lemma TakeRefines(m: Memo, log: Log, key: Key)
    requires Refines(m, log)
    ensures Refines(Step(m, Take(key)), LogStep(log, Take(key)))
    ensures Taken(m, key) == LogTaken(log, key)
  {
    hide IsOldest, Oldest;
    OldestIs(m, log, key);
  }

  lemma KeepaliveRefines(m: Memo, log: Log)
    requires Refines(m, log)
    ensures Refines(Step(m, Keepalive), LogStep(log, Keepalive))
  {
  }

  lemma StepRefines(m: Memo, log: Log, e: Event)
    requires Refines(m, log)
    ensures Refines(Step(m, e), LogStep(log, e))
    ensures e.Take? ==> Taken(m, e.key) == LogTaken(log, e.key)
  {
    hide *;
    match e
    case Request(key, addr) => RequestRefines(m, log, key, addr);
    case Take(key) => TakeRefines(m, log, key);
    case Keepalive => KeepaliveRefines(m, log);
  }

  ghost function LogRun(log: Log, events: seq<Event>): Log
    decreases |events|
  {
    if events == [] then log else LogRun(LogStep(log, events[0]), events[1..])
  }

  /** After every run the memo answers as the log does. */
  lemma {:induction false} RunRefines(m: Memo, log: Log, events: seq<Event>, key: Key)
    requires Refines(m, log)
    ensures Refines(Run(m, events), LogRun(log, events))
    ensures Taken(Run(m, events), key) == LogTaken(LogRun(log, events), key)
    decreases |events|
  {
    if events == [] {
      StepRefines(m, log, Take(key));
    } else {
      StepRefines(m, log, events[0]);
      RunRefines(Step(m, events[0]), LogStep(log, events[0]), events[1..], key);
    }
  }

  lemma EmptyRefines()
    ensures Refines(Memo(map[], map[]), Log({}, 0))
  {
  }

  /** From a new resolver on, every run answers as the log of its requests. */
  lemma RunFromNothing(events: seq<Event>, key: Key)
    ensures Taken(Run(Memo(map[], map[]), events), key) == LogTaken(LogRun(Log({}, 0), events), key)
  {
    EmptyRefines();
    RunRefines(Memo(map[], map[]), Log({}, 0), events, key);
  }

  // ----- how long an entry can be taken

  function Keepalives(events: seq<Event>): nat {
    if events == [] then 0 else (if events[0] == Keepalive then 1 else 0) + Keepalives(events[1..])
  }

  predicate LeavesAlone(events: seq<Event>, key: Key) {
    forall i | 0 <= i < |events| :: events[i].Keepalive? || events[i].key != key
  }

  lemma {:induction false} KeyAfter(m: Memo, events: seq<Event>, key: Key)
    requires LeavesAlone(events, key)
    ensures var n, after := Keepalives(events), Run(m, events);
      && Lookup(after.current, key) == (if n == 0 then Lookup(m.current, key) else None)
      && Lookup(after.history, key) ==
           (if n == 0 then Lookup(m.history, key) else if n == 1 then Lookup(m.current, key) else None)
    decreases |events|
  {
    if events != [] {
      KeyAfter(Step(m, events[0]), events[1..], key);
    }
  }

  /** A request that nobody else touches can be taken until two keepalives have
      passed; before the first, one left from the last period goes first. */
  lemma TakenUntilTwoKeepalives(m: Memo, key: Key, addr: Addr, events: seq<Event>)
    requires LeavesAlone(events, key)
    ensures Taken(Run(Step(m, Request(key, addr)), events), key) == (
      match Keepalives(events)
      case 0 => if key in m.history then Some(m.history[key]) else Some(addr)
      case 1 => Some(addr)
      case _ => None)
  {
    KeyAfter(Step(m, Request(key, addr)), events, key);
  }

  /** How many keepalives have already done their work. */
  function Emptied(m: Memo): nat {
    if m.current != map[] then 0 else if m.history != map[] then 1 else 2
  }

  /** Two keepalives without a request empty both generations. */
  lemma {:induction false} TwoKeepalivesForget(m: Memo, events: seq<Event>)
    requires forall i | 0 <= i < |events| :: !events[i].Request?
    ensures Keepalives(events) + Emptied(m) >= 1 ==> Run(m, events).current == map[]
    ensures Keepalives(events) + Emptied(m) >= 2 ==> Run(m, events) == Memo(map[], map[])
    decreases |events|
  {
    if events != [] {
      TwoKeepalivesForget(Step(m, events[0]), events[1..]);
    }
  }

  // ----- in place

  class LocalResolver {
    var requestMemo: map<Key, Addr>
    var requestMemoHistory: map<Key, Addr>

    function State(): Memo
      reads this
    {
      Memo(requestMemo, requestMemoHistory)
    }

    constructor ()
      ensures State() == Memo(map[], map[])
    {
      requestMemo, requestMemoHistory := map[], map[];
    }

    /** Nothing is noted when there is no socket to send on, and none can be built. */
    method DoRequest(qname: seq<u8>, identify: u16, srcAddr: Addr, hasTx: bool)
      modifies this
      ensures State() == if hasTx then Step(old(State()), Request(KeyOf(qname, identify), srcAddr)) else old(State())
    {
      if !hasTx {
        return;
      }
      var key := KeyOf(qname, identify);
      requestMemo := requestMemo[key := srcAddr];
    }

    method DoTake(qname: seq<u8>, identify: u16) returns (r: Option<Addr>)
      modifies this
      ensures r == Taken(old(State()), KeyOf(qname, identify))
      ensures State() == Step(old(State()), Take(KeyOf(qname, identify)))
    {
      var key := KeyOf(qname, identify);
      if key in requestMemoHistory {
        r := Some(requestMemoHistory[key]);
        requestMemoHistory := requestMemoHistory - {key};
      } else {
        r := if key in requestMemo then Some(requestMemo[key]) else None;
        requestMemo := requestMemo - {key};
      }
    }

    method DoKeepalive()
      modifies this
      ensures State() == Step(old(State()), Keepalive)
    {
      var left, moved := requestMemo, map[];
      while left != map[]
        invariant requestMemo.Keys == left.Keys + moved.Keys
        invariant forall k | k in left :: left[k] == requestMemo[k]
        invariant forall k | k in moved :: moved[k] == requestMemo[k]
        decreases |left|
      {
        var k :| k in left;
        moved := moved[k := left[k]];
        left := left - {k};
      }
      assert moved == requestMemo;
      requestMemoHistory, requestMemo := moved, map[];
    }
  }
}
