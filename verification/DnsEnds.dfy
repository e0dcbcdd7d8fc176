/** When reading a whole packet comes to an end: exactly when every name that the
    reading comes to does, for one if all pointers point backwards. */
module DnsEnds {
  import opened Bytes
  import opened DnsNames
  import opened DnsBuffer
  import opened DnsSections
  import opened DnsPackets

  /** Outside the buffer there is no name to read. */
  predicate StartsIn(starts: set<nat>, pos: nat) {
    pos < SIZE ==> pos in starts
  }

  /** The names in the data of a record. */
  predicate HostStartsIn(starts: set<nat>, num: u16, pos: nat) {
    match TypeFrom(num)
    case TypeNS => StartsIn(starts, pos)
    case TypeCNAME => StartsIn(starts, pos)
    case TypeMX => StartsIn(starts, pos + 2)
    case _ => true
  }

  predicate RecordStartsIn(buf: Packet512, starts: set<nat>, pos: nat) {
    && StartsIn(starts, pos)
    && (ReadHead(buf, pos).Got? ==> HostStartsIn(starts, ReadHead(buf, pos).value.num, ReadHead(buf, pos).next))
  }

  function QuestionsIn(starts: set<nat>): nat -> bool {
    (p: nat) => StartsIn(starts, p)
  }

  function RecordsIn(buf: Packet512, starts: set<nat>): nat -> bool {
    (p: nat) => RecordStartsIn(buf, starts, p)
  }

  /** Each of `n` readings starts where `ok` holds, as far as they go. */
  ghost predicate AllStart<T>(dec: nat -> Decoded<T>, pos: nat, n: nat, ok: nat -> bool)
    decreases n
  {
    n == 0 || (ok(pos) && (dec(pos).Got? ==> AllStart(dec, dec(pos).next, n - 1, ok)))
  }

  /** All names that reading a packet comes to start in `starts`. */
  ghost predicate NamesStartIn(buf: Packet512, pos: nat, starts: set<nat>) {
    match ReadHeader(buf, pos)
    case Got(h, p1) => SectionsStartIn(buf, h, p1, starts)
    case _ => true
  }

  ghost predicate SectionsStartIn(buf: Packet512, h: Header, p1: nat, starts: set<nat>) {
    && AllStart(QuestionAt(buf), p1, h.questions, QuestionsIn(starts))
    && match ReadAll(QuestionAt(buf), p1, h.questions)
       case Got(_, p2) => RecordsStartIn(buf, h, p2, starts)
       case _ => true
  }

  ghost predicate RecordsStartIn(buf: Packet512, h: Header, p2: nat, starts: set<nat>) {
    && AllStart(RecordAt(buf), p2, h.answers, RecordsIn(buf, starts))
    && match ReadAll(RecordAt(buf), p2, h.answers)
       case Got(_, p3) =>
         && AllStart(RecordAt(buf), p3, h.authoritativeEntries, RecordsIn(buf, starts))
         && (match ReadAll(RecordAt(buf), p3, h.authoritativeEntries)
             case Got(_, p4) => AllStart(RecordAt(buf), p4, h.resourceEntries, RecordsIn(buf, starts))
             case _ => true)
       case _ => true
  }

  /** Where names end. */
  ghost function Ending(buf: Packet512): set<nat> {
    set p: nat | p < SIZE && Terminates(buf, p)
  }

  lemma NameEndsIff(buf: Packet512, pos: nat)
    ensures ReadName(buf, pos) != Diverges <==> StartsIn(Ending(buf), pos)
  {
    TerminatesIff(buf, pos);
  }

  lemma HeadEndsIff(buf: Packet512, pos: nat)
    ensures ReadHead(buf, pos) != Diverges <==> StartsIn(Ending(buf), pos)
  {
    hide StartsIn, ReadName;
    NameEndsIff(buf, pos);
  }

  lemma RecordEndsIff(buf: Packet512, pos: nat)
    ensures ReadRecord(buf, pos) != Diverges <==> RecordStartsIn(buf, Ending(buf), pos)
  {
    hide ReadHead, ReadName, Ending, ReadIpv6;
    HeadEndsIff(buf, pos);
    if ReadHead(buf, pos).Got? {
      var next := ReadHead(buf, pos).next;
      NameEndsIff(buf, next);
      NameEndsIff(buf, next + 2);
      Ipv6Ends(buf, next);
    }
  }

  lemma Ipv6Ends(buf: Packet512, pos: nat)
    ensures ReadIpv6(buf, pos) != Diverges
  {
  }

  lemma {:induction false} AllEndIff<T>(dec: nat -> Decoded<T>, pos: nat, n: nat, ok: nat -> bool)
    requires forall p: nat :: ok(p) <==> dec(p) != Diverges
    ensures ReadAll(dec, pos, n) != Diverges <==> AllStart(dec, pos, n, ok)
    decreases n
  {
    if n > 0 && dec(pos).Got? {
      AllEndIff(dec, dec(pos).next, n - 1, ok);
    }
  }

  /** Reading a packet comes to an end if and only if it does for every name that
      the reading comes to. */
  lemma PacketEndsIff(buf: Packet512, pos: nat)
    ensures ReadPacket(buf, pos) != Diverges <==> NamesStartIn(buf, pos, Ending(buf))
  {
    hide ReadHeader, ReadAll, AllStart, StartsIn, RecordStartsIn, ReadRecord, ReadQuestion, ReadName, Ending;
    HeaderEnds(buf, pos);
    forall p: nat, n: nat
      ensures ReadAll(QuestionAt(buf), p, n) != Diverges <==> AllStart(QuestionAt(buf), p, n, QuestionsIn(Ending(buf)))
      ensures ReadAll(RecordAt(buf), p, n) != Diverges <==> AllStart(RecordAt(buf), p, n, RecordsIn(buf, Ending(buf)))
    {
      QuestionsEndIff(buf, p, n);
      RecordsEndIff(buf, p, n);
    }
  }

  lemma HeaderEnds(buf: Packet512, pos: nat)
    ensures ReadHeader(buf, pos) != Diverges
  {
  }

  lemma QuestionsEndIff(buf: Packet512, pos: nat, n: nat)
    ensures ReadAll(QuestionAt(buf), pos, n) != Diverges <==> AllStart(QuestionAt(buf), pos, n, QuestionsIn(Ending(buf)))
  {
    hide ReadAll, AllStart, StartsIn, ReadName, Ending;
    forall p: nat
      ensures QuestionsIn(Ending(buf))(p) <==> QuestionAt(buf)(p) != Diverges
    {
      NameEndsIff(buf, p);
    }
    AllEndIff(QuestionAt(buf), pos, n, QuestionsIn(Ending(buf)));
  }

  lemma RecordsEndIff(buf: Packet512, pos: nat, n: nat)
    ensures ReadAll(RecordAt(buf), pos, n) != Diverges <==>
            AllStart(RecordAt(buf), pos, n, RecordsIn(buf, Ending(buf)))
  {
    hide ReadAll, AllStart, RecordStartsIn, ReadRecord, Ending;
    forall p: nat
      ensures RecordsIn(buf, Ending(buf))(p) <==> RecordAt(buf)(p) != Diverges
    {
      RecordEndsIff(buf, p);
    }
    AllEndIff(RecordAt(buf), pos, n, RecordsIn(buf, Ending(buf)));
  }

  // ----- descending pointers

  lemma DescendingEnds(buf: Packet512, starts: set<nat>, pos: nat)
    requires Descends(buf, starts) && StartsIn(starts, pos)
    ensures StartsIn(Ending(buf), pos)
  {
    if pos < SIZE {
      DescendingTerminates(buf, starts, pos, pos);
    }
  }

  lemma {:induction false} MoreStarts<T>(dec: nat -> Decoded<T>, pos: nat, n: nat, ok: nat -> bool, more: nat -> bool)
    requires AllStart(dec, pos, n, ok) && forall p: nat :: ok(p) ==> more(p)
    ensures AllStart(dec, pos, n, more)
    decreases n
  {
    if n > 0 && dec(pos).Got? {
      MoreStarts(dec, dec(pos).next, n - 1, ok, more);
    }
  }

  /** So a packet is read to an end if the names that the reading comes to start
      at places from where all pointers descend. */
  lemma DescendingPacketEnds(buf: Packet512, pos: nat, starts: set<nat>)
    requires Descends(buf, starts) && NamesStartIn(buf, pos, starts)
    ensures ReadPacket(buf, pos) != Diverges
  {
    hide ReadHeader, ReadAll, AllStart, StartsIn, Ending, ReadPacket, Descends, ReadHead;
    var ending := Ending(buf);
    forall p: nat
      ensures QuestionsIn(starts)(p) ==> QuestionsIn(ending)(p)
      ensures RecordsIn(buf, starts)(p) ==> RecordsIn(buf, ending)(p)
    {
      RecordDescends(buf, starts, p);
    }
    forall p: nat, n: nat
      ensures AllStart(QuestionAt(buf), p, n, QuestionsIn(starts)) ==> AllStart(QuestionAt(buf), p, n, QuestionsIn(ending))
      ensures AllStart(RecordAt(buf), p, n, RecordsIn(buf, starts)) ==>
              AllStart(RecordAt(buf), p, n, RecordsIn(buf, ending))
    {
      if AllStart(QuestionAt(buf), p, n, QuestionsIn(starts)) {
        MoreStarts(QuestionAt(buf), p, n, QuestionsIn(starts), QuestionsIn(ending));
      }
      if AllStart(RecordAt(buf), p, n, RecordsIn(buf, starts)) {
        MoreStarts(RecordAt(buf), p, n, RecordsIn(buf, starts), RecordsIn(buf, ending));
      }
    }
    PacketEndsIff(buf, pos);
  }

  lemma RecordDescends(buf: Packet512, starts: set<nat>, pos: nat)
    requires Descends(buf, starts)
    ensures StartsIn(starts, pos) ==> StartsIn(Ending(buf), pos)
    ensures RecordStartsIn(buf, starts, pos) ==> RecordStartsIn(buf, Ending(buf), pos)
  {
    hide Descends, StartsIn, Ending, ReadHead;
    forall p: nat
      ensures StartsIn(starts, p) ==> StartsIn(Ending(buf), p)
    {
      if StartsIn(starts, p) {
        DescendingEnds(buf, starts, p);
      }
    }
  }
}
