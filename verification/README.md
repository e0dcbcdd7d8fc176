# A model of lproxy-cv

lproxy-cv is the client end of a multiplexing proxy. Many TCP requests share a
few tunnels; a tunnel is one TLS link that, after an HTTP upgrade, carries
private frames: a 16-bit little-endian length, a command byte and a four-byte
request handle. Beside the tunnels it runs a DNS forwarder, a UDP relay and a
list of domains whose addresses go into a kernel ipset.

This project models the four parts of it that are more than sockets and shell
commands, and proves what they promise.

- **The wire pipeline** (`Transport`, `Framing`, `Handshake`, `Outbound`,
  `Wire`, `ReqServ`, `EndToEnd`, `Protocols`). The decoder is a resumable state
  machine fed by arbitrary partial reads, the encoder is drained by arbitrary
  partial writes. A read or write is one entry of a script, so a statement over all
  scripts is a statement over all chunkings. What a link yields depends on its
  bytes alone, and each request gets its own bytes back in order.
- **Slots, tunnels and the manager** (`Counting`, `Slots`, `Tunnels`, `TunnelRuns`,
  `Selector`, `TunMgrs`, and the peer role `XTunnels`). All of it runs on one
  thread, so each handler is one atomic step and a run is any sequence of steps.
- **DNS messages** (`Names`, `DnsNames`, `DnsBuffer`, `DnsSections`,
  `DnsPackets`, `DnsWire`, `DnsEnds`, `DnsUnknown`, `DnsExact`, `DnsWhole`, `DnsMessages`):
  section 4.1 of RFC 1035 and section 2.2 of RFC 3596, with name compression,
  back-patched lengths and a 512-byte cursor.
- **Indexes that must agree with something simple** (`DomainMaps`, `Resolvers`,
  `Caches`, `Netlinks`).

Code that changes things in place is a class or a method over an array, proved
against a function on values; the laws are lemmas about those functions.

Integers are those of a release build: 16-bit arithmetic wraps, and the model
writes the wrap out.

## What is false, and when

- A length of 1 makes `remaining_mut` subtract below zero (`src/lws/msg.rs:54`).
  `Framing.ParseIsUnique` says on which streams.
- The peer polls on after a rejected length (`src/xport/xtunserv.rs:60-76`), which
  is harmless or not by the length and by how many bytes follow:
  `Framing.PollingOnIsHarmlessIff`.
- A message of more than 65536 bytes can be cut short by the 16-bit cursor
  (`src/lws/msg.rs:107-126`): `Outbound.WholeIffShort`.
- `Reqq::free` checks only the tag, so the current tag of an unused slot frees it
  twice: `Slots.FreeKeepsIff`, `Tunnels.ReceiveKeepsIff`,
  `Tunnels.CloseOfUnusedSlot`.
- Tags repeat after 32768 allocations: `TunnelRuns.StaleHandleWorksIff`. There are
  runs in which an old handle frees the slot of another request,
  `TunnelRuns.StaleHandleWorksInARun`, and in which it brings a closed tunnel back,
  `TunnelRuns.ClosedTunnelRevives`.
- "Exactly once between two picks": a tunnel is picked once more for every
  selection that finds everything from the cursor up to the other one full or
  gone: `Selector.FairBetweenPicks`, `TunMgrs.TunnelsTakeTurns`,
  `TunMgrs.TwiceInARun`.
- The peer's unguarded decrement is safe before `stop` exactly up to 65535
  creations: `XTunnels.SafeIffFewCreations`. After `stop` some run takes it below
  zero exactly as long as the link is up: `XTunnels.AfterStopIff`.
- `read_qname` does not end on pointer loops: `DnsNames.TerminatesIff`,
  `DnsNames.SelfPointerDiverges`, and for whole packets `DnsEnds.PacketEndsIff`.
- Names with empty labels or upper-case letters, opcodes of five bits, query types
  in disguise and UNKNOWN records do not survive a round trip:
  `DnsNames.NameRoundTripIff`, `DnsPackets.HeaderRoundTripIff`,
  `DnsPackets.TypeRoundTripIff`, `DnsExact.QuestionRoundTripIff`,
  `DnsExact.RecordRoundTripIff`, `DnsWhole.KnownPacketRoundTripIff`,
  `DnsUnknown.PacketRoundTripIff`.
- Inserting an address that is already cached leaves a stale deadline behind:
  `Caches.InsertKeepsIff`. The only caller never does.
- The error message of `write_qname` speaks of 63 bytes
  (`src/dns/dnspacket.rs:160`); the code refuses labels above 52. The model follows
  the code.

## Model

| member | source | states |
|---|---|---|
| `Transport.Source.Read` | src/lws/lwsframed.rs:77-90 | a read hands over what has arrived, between one byte and what there is room for, or waits, ends or fails, and takes exactly those bytes off the stream |
| `Transport.Destination.Write` | src/lws/lwsframed.rs:147-149 | a write takes some non-empty prefix of what is offered, or none of it, and appends it to what was written |
| `Transport.FateIff` | src/lws/chandshake.rs:81-91 | bytes that are offered until they are gone are all taken exactly if the socket takes that many before it breaks, and it fails exactly if it breaks before; how often it makes the writer wait does not matter |
| `Transport.Destination.Flush` | src/lws/lwsframed.rs:158-160 | the flush of the socket moves no byte, and may be pending, done or failed |
| `Framing.HeadIsStable` | src/lws/msg.rs:62-79 | once the front of a stream is a frame, a rejected length or a length of 1, more bytes do not change that |
| `Framing.IsFrameIff` | src/lws/msg.rs:62-79 | in bytes: a frame starts with its own length, the little end first, from 2 to 8096 |
| `Framing.FrontIs` | src/lws/msg.rs:42-79 | what the front of a stream is, told by its first two bytes and by how many there are |
| `Framing.ParseIsExact` | src/lws/msg.rs:42-91 | the frames of the parse put together again are a prefix of the stream, each is one whole frame, and the parse stops at what comes next |
| `Framing.ParseOfConcat` | src/lws/msg.rs:42-91 | accepted frames written one after the other are parsed as those frames, whatever follows |
| `Framing.ParseIsUnique` | src/lws/msg.rs:42-91 | the parse ends in a given way if and only if some sequence of whole frames leads there, and that sequence is unique; in particular `remaining_mut` underflows if and only if a length of 1 follows whole frames |
| `Framing.LengthOneCrashes` | src/lws/msg.rs:48-55 | the two bytes 1, 0 make `remaining_mut` subtract below zero |
| `Framing.RMessage.constructor` | src/lws/msg.rs:17-24 | a new message is empty, has no length yet and no error |
| `Framing.RMessage.IsCompleted` | src/lws/msg.rs:26-33 | completed exactly when the bytes held are a whole frame or a rejected length |
| `Framing.RMessage.RemainingMut` | src/lws/msg.rs:43-60 | how many bytes are still wanted, never beyond the frame; no answer exactly for a length of 1, and for a length of 0 once its error was taken out |
| `Framing.RMessage.Put` | src/lws/msg.rs:62-80 | appending bytes keeps the cached length and the error in step with the bytes held |
| `Framing.LwsFramed.constructor` | src/lws/lwsframed.rs:20-28 | a link starts unfinished, with the handshake tail unread |
| `Framing.LwsFramed.ReadFromTail` | src/lws/lwsframed.rs:31-42 | as much of the tail as fits is taken from its front, the rest stays the tail |
| `Framing.LwsFramed.Fill` | src/lws/lwsframed.rs:61-91 | one turn of reading moves bytes from the tail, or else the socket, behind the bytes held, and loses none, unless they overflow the buffer |
| `Framing.LwsFramed.Store` | src/lws/msg.rs:62-91 | the bytes held go beyond the 8096 a message asks room for exactly if that many come, which only happens behind a rejected length |
| `Framing.LwsFramed.Turn` | src/lws/lwsframed.rs:52-106 | one round of the loop stops only with an answer that is right for the unread bytes |
| `Framing.LwsFramed.Judge` | src/lws/lwsframed.rs:93-105 | behind stored bytes: a complete message, a rejected length, whose error is taken out, or go on |
| `Framing.LwsFramed.PollNext` | src/lws/lwsframed.rs:50-107 | one poll either waits with nothing lost, exactly when the socket has made it wait or is silent, or reports the front of the unread bytes: a message leaves exactly the bytes behind it, an error or the end is reported only where the bytes and the socket say so; polled again after a rejected length, it underflows or overflows exactly by that length and the bytes held |
| `Framing.LwsFramed.ReceiveAll` | src/lws/lwsframed.rs:50-107 | chunking independence: over a whole link the messages and the verdict are those of the recursive length-prefix parse of tail plus socket bytes, however the reads split them |
| `Framing.DecodeOfFrames` | src/lws/lwsframed.rs:50-107 | frames and then something else are decoded as those frames, and the verdict tells the rest, or how the socket ended, case by case |
| `Framing.PollingOnIsHarmlessIff` | src/xport/xtunserv.rs:60-76 | polling on after a rejected length brings no further message, and ends as if nothing had happened if and only if the length is not 0 and at most 8096 bytes come from there on |
| `Framing.LwsFramed.PollOn` | src/lws/lwsframed.rs:50-107 | however the reads split them, the bytes behind a rejected length alone decide what polling on comes to |
| `Framing.LwsFramed.ReceiveOn` | src/xport/xtunserv.rs:60-76 | the same for a link of the peer, whose loop logs an error and polls on |
| `Handshake.FirstNeedle` | src/lws/chandshake.rs:57-68 | the first blank line at or behind a position, if there is one |
| `Handshake.AfterHeaderIsStable` | src/lws/chandshake.rs:57-68 | later bytes do not move the first blank line |
| `Handshake.BehindBlankLine` | src/lws/chandshake.rs:57-68 | a header, CR LF CR LF and any bytes: what is behind the header is those bytes |
| `Handshake.AfterHeaderIff` | src/lws/chandshake.rs:57-68 | bytes divide at their first CR LF CR LF in exactly one way, or there is none |
| `Handshake.CHandshake.ParseResponse` | src/lws/chandshake.rs:57-68 | found exactly if the buffer has a blank line, and then the buffer is what follows the first one |
| `Handshake.CHandshake.WriteSome` | src/lws/chandshake.rs:81-91 | bytes move from the request to the socket, none lost or repeated |
| `Handshake.CHandshake.ReadSome` | src/lws/chandshake.rs:92-119 | bytes read are appended, and the header is looked for in all that has been read so far |
| `Handshake.CHandshake.Poll` | src/lws/chandshake.rs:77-132 | a handshake that connects has written the whole request, and tail plus unread bytes are exactly the bytes behind the first blank line; it fails for lack of a header only if there is none, and waits for the socket only while the request is unfinished or no blank line has come |
| `Handshake.Connect` | src/lws/chandshake.rs:77-132 | polled until it ends or the side it waits for is silent, the handshake connects exactly if the socket takes the whole request and a blank line comes, and otherwise ends for the one reason that applies |
| `Handshake.Session` | src/lws/chandshake.rs:77-132 | handshake and link together are a function of whether the socket takes the request, of the bytes that arrive and of how they end, however the reads split header, tail and frames and interleave with the writes |
| `Handshake.SessionLinks` | src/lws/chandshake.rs:77-132 | a socket that takes the request and delivers a header, a blank line and frames is linked and yields those frames |
| `Handshake.SessionLinksIff` | src/lws/chandshake.rs:77-132 | a session is linked if and only if the request is taken and a blank line arrives, and yields the decoding of what comes behind the first one |
| `Handshake.SessionFailsIff` | src/lws/chandshake.rs:77-132 | otherwise a write error, the end, a read error and waiting each have their exact cause |
| `Outbound.ShortIsWhole` | src/lws/msg.rs:94-127 | a message of at most 65536 bytes is sent whole however the socket takes it |
| `Outbound.LongIsCut` | src/lws/msg.rs:94-127 | every longer message is cut short by some way of taking it |
| `Outbound.WholeIffShort` | src/lws/msg.rs:94-127 | exactly the messages of at most 65536 bytes survive every way of taking them |
| `Outbound.HealthySocketTakesAll` | src/lws/lwsframed.rs:142-163 | a drain of queued messages fails only on a socket that breaks, and completes on one that does not break and goes on taking bytes, however often it makes the sink wait |
| `Outbound.WMessage.constructor` | src/lws/msg.rs:99-105 | a message keeps its bytes and where it starts |
| `Outbound.WMessage.Advance` | src/lws/msg.rs:124-126 | the cursor moves by the count, wrapping at 16 bits |
| `Outbound.FramedSink.Turn` | src/lws/lwsframed.rs:147-154 | one round of the loop: what the socket takes leaves the message in hand; it stops only when the socket makes it wait or breaks |
| `Outbound.FramedSink.PollFlush` | src/lws/lwsframed.rs:142-163 | bytes only move from the message in hand to the socket; flushed only when no message is left in hand and the socket is flushed as well; pending exactly when the socket has made it wait or is silent; and failed exactly if the script foretells it |
| `Outbound.FramedSink.PollReady` | src/lws/lwsframed.rs:128-134 | ready only when no message is in hand, and no byte lost on the way there |
| `Outbound.FramedSink.StartSend` | src/lws/lwsframed.rs:136-140 | the message becomes the one in hand |
| `Outbound.FramedSink.SendNext` | src/lws/lwsframed.rs:127-163 | one queued message is handed over and settled, with the outcome that the script foretells |
| `Outbound.FramedSink.Forward` | src/tunnels/tunbuilder.rs:96 | queued messages reach the socket in order through partial writes, nothing lost or repeated; done, waiting or failed exactly as what the socket does foretells |
| `Wire.CmdRoundTrip` | src/tunnels/theader.rs:7-19 | every command is read back from its number |
| `Wire.CmdFrom` | src/tunnels/theader.rs:50-66 | a byte is a command exactly up to 10, and then the one with that number |
| `Wire.CommandsCountUp` | src/tunnels/theader.rs:7-66 | the commands have the numbers 0 to 10 in their order, written and read |
| `Wire.EncodeRoundTrip` | src/tunnels/theader.rs:35-47 | command, handle and payload of an encoded frame are read back, and the decoder accepts the frame exactly if its payload has at most 8089 bytes |
| `Wire.FrameLayout` | src/tunnels/theader.rs:35-47 | the bytes of a frame: length, command, slot and tag, the little end first, and the payload |
| `Wire.StampData` | src/tunnels/reqserv.rs:163-173 | the seven bytes kept free in front of a chunk become the header, and the buffer is the encoded data frame |
| `ReqServ.TcpFramed.PollNext` | src/lws/tcpframed.rs:34-63 | a chunk is a non-empty prefix of the unread bytes, of at most 8089 bytes, behind seven free bytes |
| `ReqServ.Pump` | src/tunnels/reqserv.rs:121-145 | the chunks are those of the reads that the tripwire lets happen, the front of the socket's bytes in order, each within the frame limit, queued as data frames of the handle and closed by one finish frame once the loop has ended |
| `Slots.FreshIsConserved` | src/tunnels/reqq.rs:13-25 | a new pool has every slot free once, the lowest on top |
| `Slots.AllocKeeps` | src/tunnels/reqq.rs:27-44 | allocation keeps the pool conserved; it fails exactly if every slot is in use, otherwise it takes a free slot under the next, odd tag |
| `Slots.FreeKeepsIff` | src/tunnels/reqq.rs:46-64 | a release keeps the pool conserved if and only if it is not the release of an unused slot by its current tag |
| `Slots.FreeIsBounded` | src/tunnels/reqq.rs:8-25 | the free stack is never longer than the table, and shorter while a slot is in use |
| `Slots.Reqq.constructor` | src/tunnels/reqq.rs:13-25 | the table and the stack of a fresh pool |
| `Slots.Reqq.AllocSlot` | src/tunnels/reqq.rs:27-44 | the class refines `Alloc` |
| `Slots.Reqq.FreeSlot` | src/tunnels/reqq.rs:46-64 | the class refines `Free` |
| `Slots.Reqq.ClearSlots` | src/tunnels/reqq.rs:66-74 | the class refines `ClearAll` |
| `Tunnels.Decrement` | src/tunnels/tunnel.rs:147-148 | one less, and 65535 for zero: the release build wraps |
| `Tunnels.NewIsBalanced` | src/tunnels/tunnel.rs:60-73 | in a new tunnel `req_count` mirrors the free stack |
| `Tunnels.OpenKeeps` | src/tunnels/tunnel.rs:292-312 | opening keeps `req_count` + |free| = capacity, and succeeds exactly if `req_count` is below the capacity |
| `Tunnels.ReleaseKeeps` | src/tunnels/tunnel.rs:139-150 | a release keeps the balance exactly if it is not one of an unused slot, and then the decrement never underflows |
| `Tunnels.DropTxKeeps` | src/tunnels/tunnel.rs:261-276 | a finish takes the channel and nothing else |
| `Tunnels.ReceiveKeepsIff` | src/tunnels/tunnel.rs:75-158 | a message keeps the balance if and only if it is not a close of the current tag of an unused slot |
| `Tunnels.CloseOfUnusedSlot` | src/tunnels/tunnel.rs:139-150 | a message that does it: a close of slot 0 with tag 0 in a new tunnel frees the slot twice and wraps the count to 65535 |
| `Tunnels.Tunnel.constructor` | src/tunnels/tunnel.rs:60-73 | a tunnel starts with fresh slots and zero counters |
| `Tunnels.Tunnel.GetRequestTx` | src/tunnels/tunnel.rs:239-259 | the channel of the slot if the tag matches |
| `Tunnels.Tunnel.FreeRequestTx` | src/tunnels/tunnel.rs:261-276 | the class refines `DropTx` |
| `Tunnels.Tunnel.OnTunnelMsg` | src/tunnels/tunnel.rs:75-158 | the class refines `Receive`: state and messages sent; apart from UDP addresses and pong timestamps it panics exactly on an unknown command or a frame too short for the handle its handler reads |
| `Tunnels.Tunnel.OnRequestCreated` | src/tunnels/tunnel.rs:278-312 | the class refines `OpenRequest` |
| `Tunnels.Tunnel.OnRequestClosed` | src/tunnels/tunnel.rs:314-327 | the class refines `CloseRequest` |
| `Tunnels.Tunnel.OnClosed` | src/tunnels/tunnel.rs:329-332 | all slots are cleared |
| `TunnelRuns.TagsRepeat` | src/tunnels/reqq.rs:39 | two allocations of one slot share a tag exactly if they are a multiple of 32768 allocations apart |
| `TunnelRuns.StepKeepsInv` | src/tunnels/tunnel.rs:75-327 | every step of a run with honest handles keeps slots, tags and releases in order |
| `TunnelRuns.RunFrom` | src/tunnels/tunnel.rs:75-332 | every state of every honest run satisfies the invariant |
| `TunnelRuns.Run` | src/tunnels/tunnel.rs:75-332 | every state of every honest run from the creation of a tunnel satisfies the invariant |
| `TunnelRuns.SlotsAreConserved` | src/tunnels/reqq.rs:13-82 | over every honest run the free stack lists exactly the slots with an even tag, each once, and `req_count` + |free| = capacity |
| `TunnelRuns.HandlesAreReleasedOnce` | src/tunnels/tunnel.rs:132-150 | among the first 32768 allocations of a slot every handle is different, and each was released exactly once, except the one in use, whichever side closed first |
| `TunnelRuns.StaleHandleWorksIff` | src/tunnels/reqq.rs:46-64 | an issued handle still frees its slot exactly if the slot is in use and has been allocated a multiple of 32768 times since |
| `TunnelRuns.Cycles` | src/tunnels/tunnel.rs:278-327 | from a free slot there is an honest run that allocates and releases it any number of times, and one that leaves it in use at the end |
| `TunnelRuns.StaleHandleWorksInARun` | src/tunnels/reqq.rs:46-64 | a run of 32769 allocations of one slot after which the first handle, long since released, frees it again |
| `TunnelRuns.StaleHandleIsInert` | src/tunnels/tunnel.rs:97-150 | within 32768 allocations of its own a stale handle frees, finishes and delivers nothing |
| `TunnelRuns.ClosedTunnelIsDead` | src/tunnels/tunnel.rs:329-332 | right after `on_closed` allocation fails, and an issued handle frees a slot exactly if it was unused and is 32767 (modulo 32768) allocations old, so never below that bound |
| `TunnelRuns.ClosedTunnelStaysDead` | src/tunnels/tunnel.rs:75-332 | below that bound it stays so: whatever honest steps still come, no slot changes, no request is opened, nothing is delivered |
| `TunnelRuns.ReleaseRevives` | src/tunnels/reqq.rs:46-74 | past the bound an honest close that frees its slot after `on_closed` makes the tunnel open its next request there |
| `TunnelRuns.ClosedTunnelRevives` | src/tunnels/reqq.rs:46-74 | a run of 32768 allocations after which that happens with the first handle ever issued |
| `EndToEnd.PumpedFrames` | src/tunnels/reqserv.rs:161-224 | a request queues its chunks as frames the decoder accepts, and nothing for any other handle |
| `EndToEnd.ShuffleKeeps` | src/tunnels/reqserv.rs:177-178 | whatever the interleaving of several requests' queues, a handle's data frames stay those its own request queued, in order |
| `EndToEnd.OpenCarries` | src/tunnels/tunnel.rs:278-312 | a request opened with a new channel gets a handle that carries it and has had nothing delivered, which is what the following results start from |
| `EndToEnd.FirstRequestCarries` | src/tunnels/tunnel.rs:278-312 | so they apply to the first request of every new tunnel with a slot |
| `EndToEnd.MessageDelivers` | src/tunnels/tunnel.rs:97-131 | a message reaches the channel of a handle exactly if it is data for that handle |
| `EndToEnd.RunDelivers` | src/tunnels/tunnel.rs:75-158 | over any run that spares the handle, its channel gets exactly the data frames received for it, in order |
| `EndToEnd.SharedFrames` | src/lws/msg.rs:42-91 | the decoder yields the shared queue, and the data of a handle in it is what its request queued |
| `EndToEnd.PumpsShare` | src/tunnels/reqserv.rs:121-145 | requests with different handles that pump into one tunnel, finish frames included and interleaved with the tunnel's own messages, form a shared link for each of them |
| `EndToEnd.EndToEndTransparency` | src/tunnels/tunnel.rs:97-131 | end to end: with several requests interleaved on one tunnel, the bytes delivered for a handle are exactly the first n chunks sent under it, and all of them once all its data was received |
| `EndToEnd.Dispatch` | src/tunnels/tunbuilder.rs:79-94 | the receive loop hands every frame in turn to the tunnel: the messages sent are those of the run |
| `EndToEnd.Relay` | src/tunnels/tunbuilder.rs:75-99 | the whole path in place, from any state of a run in which nothing was delivered to the channel yet: queue onto the wire through partial writes, any re-chunking, decoding, dispatch, and out to the socket; complete exactly if both sockets take what they are given, and then the socket has exactly the concatenated chunks |
| `EndToEnd.Emit` | src/tunnels/tunbuilder.rs:96 | a drained queue leaves exactly its bytes on the socket, and it is drained exactly if the socket takes it all |
| `Selector.FirstIn` | src/tunnels/tunmgr.rs:223-241 | the first eligible position of a range, and none before it |
| `Selector.PickIsComplete` | src/tunnels/tunmgr.rs:218-264 | nothing is picked exactly if nothing is eligible |
| `Selector.PickIsNearest` | src/tunnels/tunmgr.rs:218-264 | the pick is the eligible position least far ahead of the cursor |
| `Selector.NearerComesFirst` | src/tunnels/tunmgr.rs:218-264 | a position that stays eligible is picked before any position further ahead |
| `Selector.PickedOncePerSkip` | src/tunnels/tunmgr.rs:218-264 | up to the next pick of one position, another that stays eligible is picked once for every selection that goes past the first, and once more if it lies nearer |
| `Selector.FairBetweenPicks` | src/tunnels/tunmgr.rs:218-264 | between two consecutive picks of one position, another that stays eligible is picked 1 + (number of selections that go past the first) times: exactly once if and only if no selection finds everything from the cursor up to the first ineligible |
| `Selector.EligibleIsNotSkipped` | src/tunnels/tunmgr.rs:218-264 | no selection goes past a position that stays eligible |
| `Selector.PermutationPositions` | src/tunnels/tunmgr.rs:50-53 | in a permutation every index stands at exactly one position |
| `Selector.IndexesArePermutation` | src/tunnels/tunmgr.rs:50-53 | the initial order is a permutation |
| `TunMgrs.BootIsInv` | src/tunnels/tunmgr.rs:44-89 | after `init` every index has one connecting task and no tunnel, in order, with nothing queued |
| `TunMgrs.NoTunnelAlready` | src/tunnels/tunmgr.rs:110-112 | the panic "there is tunnel already" is unreachable |
| `TunMgrs.SelectionImpliesAllocation` | src/tunnels/tunmgr.rs:188-264 | a request fails exactly if no live tunnel has `req_count` + 1 below its capacity; a selected tunnel always allocates |
| `TunMgrs.StubNamesItsTunnel` | src/tunnels/tunmgr.rs:188-202 | a placed request gets a stub with the index of the live tunnel that took it, which counts one more, holds its channel under the handle and announces it; no other tunnel changes |
| `TunMgrs.CloseReachesItsTunnel` | src/tunnels/tunmgr.rs:204-216 | a closed request reaches the tunnel of its stub and no other |
| `TunMgrs.MessageReachesItsTunnel` | src/tunnels/tunbuilder.rs:79-94 | a message reaches the tunnel of its link and no other |
| `TunMgrs.TunnelsComeAndGo` | src/tunnels/tunmgr.rs:98-175 | a tunnel that is created starts with all its slots free, unless the manager was stopped; a lost one is gone, and its index or that of a failed connect is queued last; no other changes |
| `TunMgrs.TimerStartsAfresh` | src/tunnels/tunmgr.rs:266-342 | the timer turns the queue into connecting tasks and resets the load of every live tunnel, and nothing else of it |
| `TunMgrs.StepKeepsInv` | src/tunnels/tunmgr.rs:98-365 | every handler keeps the lifecycle invariant and none reaches the panic |
| `TunMgrs.RunFrom` | src/tunnels/tunmgr.rs:98-365 | every state of every run satisfies the invariant |
| `TunMgrs.EveryIndexHasOnePlace` | src/tunnels/tunmgr.rs:98-175 | before `stop` each index is in exactly one of connecting, live or queued, and no connecting task can reach the panic |
| `TunMgrs.LiveTunnelsKeepAFreeSlot` | src/tunnels/tunmgr.rs:233-236 | in every run each live tunnel of capacity at least 1 keeps a free slot |
| `TunMgrs.NothingStartsAfterStop` | src/tunnels/tunmgr.rs:344-365 | after `stop` connecting and serving tasks only become fewer and no request is placed |
| `TunMgrs.SelectionsGoRound` | src/tunnels/tunmgr.rs:218-264 | between two sorts the selections of any run go round |
| `TunMgrs.TunnelsTakeTurns` | src/tunnels/tunmgr.rs:218-264 | the same over runs of the manager: exactly once if and only if no selection goes past the other tunnel |
| `TunMgrs.TwiceInARun` | src/tunnels/tunmgr.rs:234-236 | a run of the manager from its start in which a tunnel that could always take a request is picked twice between two picks of the other |
| `TunMgrs.TunMgr.constructor` | src/tunnels/tunmgr.rs:44-89 | no tunnels, indexes in order, one connect per index |
| `TunMgrs.TunMgr.Search` | src/tunnels/tunmgr.rs:223-241 | the first position of a range whose tunnel is live and has room |
| `TunMgrs.TunMgr.OnTunnelCreated` | src/tunnels/tunmgr.rs:98-124 | the class refines `Created`; refused exactly when discarded |
| `TunMgrs.TunMgr.OnTunnelBuildError` | src/tunnels/tunmgr.rs:148-159 | the class refines `BuildFailed` |
| `TunMgrs.TunMgr.OnTunnelClosed` | src/tunnels/tunmgr.rs:126-175 | the class refines `Lost` |
| `TunMgrs.TunMgr.AllocTunnelForReq` | src/tunnels/tunmgr.rs:218-264 | the two loops find the position of `Pick` and leave the cursor behind it |
| `TunMgrs.TunMgr.OnRequestCreated` | src/tunnels/tunmgr.rs:188-202 | the class refines `Request`: state, stub, and the create message the tunnel sends |
| `TunMgrs.TunMgr.OnRequestClosed` | src/tunnels/tunmgr.rs:204-216 | the class refines `Closed`: state and the close message the tunnel sends |
| `TunMgrs.TunMgr.SortTunnelsByBusy` | src/tunnels/tunmgr.rs:266-295 | the new order is taken and every busy counter reset |
| `TunMgrs.TunMgr.ProcessReconnect` | src/tunnels/tunmgr.rs:312-322 | every queued index is connected exactly once and the queue is empty |
| `TunMgrs.TunMgr.OnKeepalive` | src/tunnels/tunmgr.rs:328-342 | the class refines `Keepalive`; nothing happens when discarded |
| `TunMgrs.TunMgr.Discard` | src/tunnels/tunmgr.rs:344-365 | the class refines `Stop` |
| `XTunnels.NewIsCovered` | src/xport/xtunnel.rs:37-58 | a new peer tunnel has 128 slots, none in use, and is not connected |
| `XTunnels.CounterNeverUnderflows` | src/xport/xtunnel.rs:429-447 | for every message sequence, however dishonest, with fewer than 65536 creations and before stop, the slots in use are at most `req_count` and the unguarded decrement never underflows |
| `XTunnels.StepStaysCovered` | src/xport/xtunnel.rs:100-447 | every step keeps slots in use <= `req_count` <= creations |
| `XTunnels.UnderflowAfterStop` | src/xport/xtunnel.rs:566-567 | a run with a stop in which the decrement underflows |
| `XTunnels.CountRunsOut` | src/xport/xtunnel.rs:429-447 | with the link up after stop, uncounted requests that are created and closed bring the counter to zero and then below |
| `XTunnels.AfterStopIff` | src/xport/xtunnel.rs:429-447 | after stop some run takes the counter below zero if and only if the link is up |
| `XTunnels.UnderflowAfterManyCreates` | src/xport/xtunnel.rs:329-331 | a run of a new tunnel: 65536 creations of one slot wrap the counter to zero, and the decrement underflows |
| `XTunnels.SafeIffFewCreations` | src/xport/xtunnel.rs:319-332 | the bound is exact: no run before stop with at most n creations underflows if and only if n is below 65536 |
| `XTunnels.XRunDelivers` | src/xport/xtunnel.rs:262-337 | the channel of a handle gets exactly the data frames received for it, in order |
| `XTunnels.UpstreamTransparency` | src/xport/xtunnel.rs:262-295 | end to end towards the peer role: the first n chunks of the request, and all of them once all its data was received |
| `XTunnels.XRunSends` | src/xport/xtunnel.rs:516-556 | the data frames for a handle among the messages of a run are its accepted chunks, in order |
| `XTunnels.XRunShares` | src/xport/xtunnel.rs:516-556 | so what a run sends is a shared link in the sense of `EndToEndTransparency`, with the accepted chunks as that handle's part: the direction from peer to client |
| `XTunnels.XReqq.AllocSlot` | src/xport/xrequest.rs:56-72 | the class refines `XAlloc` |
| `XTunnels.XReqq.FreeSlot` | src/xport/xrequest.rs:74-93 | the class refines `XFree` |
| `XTunnels.XReqq.ClearSlots` | src/xport/xrequest.rs:95-100 | the class refines `XClearAll` |
| `XTunnels.XTunnel.SaveRequestTx` | src/xport/xtunnel.rs:558-584 | the class refines `SaveTx` |
| `XTunnels.XTunnel.OnTunnelProxyMsg` | src/xport/xtunnel.rs:262-337 | the class refines `XProxy` |
| `XTunnels.XTunnel.OnTunnelMsg` | src/xport/xtunnel.rs:238-260 | the class refines `XReceive` |
| `XTunnels.XTunnel.OnRequestClosed` | src/xport/xtunnel.rs:429-474 | the class refines `XRequestClosed` |
| `XTunnels.XTunnel.OnRequestRecvFinished` | src/xport/xtunnel.rs:476-514 | a finish message is sent exactly if the slot is valid and the tunnel is up |
| `XTunnels.XTunnel.OnRequestMsg` | src/xport/xtunnel.rs:516-556 | a chunk is stamped and sent exactly if its slot is valid and the tunnel is up |
| `XTunnels.XTunnel.OnTunnelCreated` | src/xport/xtunnel.rs:82-98 | the class refines `XTunnelCreated` |
| `XTunnels.XTunnel.OnTunnelClosed` | src/xport/xtunnel.rs:100-118 | the class refines `XTunnelClosed` |
| `XTunnels.XTunnel.OnTunnelBuildError` | src/xport/xtunnel.rs:120-133 | the class refines `XBuildError` |
| `XTunnels.XTunnel.OnKeepalive` | src/xport/xtunnel.rs:139-156 | a connect is due exactly if a reconnect was wanted and nothing is discarded |
| `XTunnels.XTunnel.Stop` | src/xport/xtunnel.rs:69-80 | the class refines `XStop` |
| `Protocols.OpenSays` | src/tunnels/tunnel.rs:373-437 | a request that is opened sends exactly one message, which reads as a create of its handle with the target as payload; one that is not opened changes and sends nothing |
| `Protocols.CloseSays` | src/tunnels/tunnel.rs:439-468 | a request that is closed and was there sends exactly one close of its handle, any other nothing |
| `Protocols.FinishSays` | src/tunnels/reqserv.rs:195-224 | what a pump queues last reads as the finish of its handle |
| `Protocols.PeerSays` | src/xport/xtunnel.rs:429-556 | the peer's close, finish and data messages read as such, for the requests it has while it is connected, and for no other |
| `Protocols.CreateArrives` | src/xport/xtunnel.rs:319-332 | a create message panics exactly without a port; it takes the slot of its handle, whatever was there, gives it its channel and counts it unless the tunnel was stopped, and changes no other slot |
| `Protocols.OpenArrives` | src/tunnels/tunnel.rs:278-312 | so a request that is opened at the client exists at the peer, under the same handle |
| `Protocols.CloseArrives` | src/xport/xtunnel.rs:307-318 | a close message releases a valid request: slot unused, channel gone, one fewer in use and counted, no other slot changed; any other handle does nothing |
| `Protocols.FinishArrives` | src/xport/xtunnel.rs:296-306 | a finish message takes the channel of its request, and the slot stays in use |
| `Protocols.DataArrives` | src/xport/xtunnel.rs:269-295 | data goes to the channel of its handle at either end, with the header of seven bytes to be skipped |
| `Protocols.ServerClosedArrives` | src/tunnels/tunnel.rs:140-150 | the peer's close frees the slot under the next tag, without its channel, and one request fewer is counted; a stale handle does nothing |
| `Protocols.ServerFinishedArrives` | src/tunnels/tunnel.rs:132-139 | the peer's finish takes the channel, and the slot keeps its tag |
| `Protocols.ClosedHasNoChannels` | src/tunnels/tunnel.rs:329-332 | once the link is lost no request of the tunnel keeps a channel |
| `Protocols.LinkLost` | src/xport/xtunnel.rs:100-118 | nor does one at the peer, or stay in use, unless a stopped tunnel was up |
| `Protocols.ReconnectIff` | src/xport/xtunnel.rs:100-156 | a reconnect comes to be wanted exactly when, before stop, a link that was up is lost or one could not be built, and is seen to by the timer alone |
| `Protocols.SavedIff` | src/xport/xtunnel.rs:558-584 | a channel is stored exactly before stop and for the tag in the slot |
| `Protocols.PingIsAnswered` | src/tunnels/tunnel.rs:160-181 | a ping is answered by itself with only the command byte changed to that of a pong, at the peer only while connected; a pong is not answered |
| `Protocols.UdpIsHandedOn` | src/tunnels/tunnel.rs:552-581 | a message from the UDP side is handed on without its length and command |
| `Names.Split` | src/dns/dnspacket.rs:153 | splitting at dots gives at least one label and no label has a dot |
| `Names.LowerLetters` | src/dns/dnspacket.rs:107 | A to Z become a to z, and no other byte changes |
| `Names.JoinStep` | src/dns/dnspacket.rs:104-109 | labels are joined by the byte 46 |
| `Names.JoinOfSplit` | src/dns/dnspacket.rs:153 | joining the labels of a name gives the name |
| `Names.JoinAppend` | src/dns/dnspacket.rs:104-109 | appending a label behind a delimiter is joining the longer list |
| `Names.JoinOfLower` | src/dns/dnspacket.rs:107 | lower-casing label by label lower-cases the name |
| `DnsNames.PieceAt` | src/dns/dnspacket.rs:76-112 | a label is never empty and leads forward inside the buffer |
| `DnsNames.TerminatesIff` | src/dns/dnspacket.rs:71-119 | `read_qname` ends if and only if it ends within 513 turns |
| `DnsNames.DescendingTerminates` | src/dns/dnspacket.rs:71-119 | it ends for every name from which each pointer lands before the start of the label run it leaves, whatever stands in bytes that reading does not come to |
| `DnsNames.SelfPointerDiverges` | src/dns/dnspacket.rs:83-95 | a pointer to itself is never left |
| `DnsEnds.PacketEndsIff` | src/dns/dnspacket.rs:632-680 | reading a packet ends if and only if it does for every name that the reading comes to |
| `DnsEnds.DescendingPacketEnds` | src/dns/dnspacket.rs:632-680 | it ends for every packet whose names start at places from where all pointers descend |
| `DnsNames.ReadsWritten` | src/dns/dnspacket.rs:152-173 | written labels are read back in lower case up to the first empty one |
| `DnsNames.NameRoundTripIff` | src/dns/dnspacket.rs:152-173 | a written name comes back, with the cursor at its end, if and only if it has no empty label and no upper-case letter |
| `DnsWire.CompressedLabels` | src/dns/dnspacket.rs:71-119 | labels and a pointer read as those labels, in lower case, and whatever the target reads as, errors and loops included; the cursor ends behind the pointer |
| `DnsWire.CompressedName` | src/dns/dnspacket.rs:71-119 | in bytes: labels and a pointer to other labels read as all of them, joined, in lower case |
| `DnsWire.CompressedSuffix` | src/dns/dnspacket.rs:71-119 | the same for a pointer to a name that was written earlier |
| `DnsWire.RefusedIff` | src/dns/dnspacket.rs:152-173 | a name is refused if and only if it has a label of more than 52 bytes |
| `DnsBuffer.U16RoundTrip` | src/dns/dnspacket.rs:56-60 | a 16-bit number is read as written |
| `DnsBuffer.U32RoundTrip` | src/dns/dnspacket.rs:62-69 | a 32-bit number is read as written |
| `DnsWire.BigEnd` | src/dns/dnspacket.rs:136-150 | the big end is written first |
| `DnsBuffer.WalkReads` | src/dns/dnspacket.rs:71-119 | compression is transparent: the loop returns the dot-joined labels of the recursive expansion, and the cursor stops behind the zero byte or behind the first pointer, whatever later jumps do |
| `DnsBuffer.BytePacketBuffer.constructor` | src/dns/dnspacket.rs:12-14 | the cursor starts at 0 |
| `DnsBuffer.BytePacketBuffer.Step` | src/dns/dnspacket.rs:20-24 | the cursor moves without a check |
| `DnsBuffer.BytePacketBuffer.Read` | src/dns/dnspacket.rs:32-40 | the byte at the cursor, or an error at 512 |
| `DnsBuffer.BytePacketBuffer.Get` | src/dns/dnspacket.rs:42-47 | the byte at a position below 512 |
| `DnsBuffer.BytePacketBuffer.GetRange` | src/dns/dnspacket.rs:49-54 | a range that ends before 512, the last byte excluded |
| `DnsBuffer.BytePacketBuffer.ReadU16` | src/dns/dnspacket.rs:56-60 | the big-endian number at the cursor |
| `DnsBuffer.BytePacketBuffer.ReadU32` | src/dns/dnspacket.rs:62-69 | the big-endian number at the cursor |
| `DnsBuffer.BytePacketBuffer.ReadQName` | src/dns/dnspacket.rs:71-119 | the name that the recursive expansion gives, and its cursor |
| `DnsBuffer.BytePacketBuffer.WriteU8` | src/dns/dnspacket.rs:121-134 | written exactly if it fits, and no other byte changes |
| `DnsBuffer.BytePacketBuffer.WriteU16` | src/dns/dnspacket.rs:136-141 | two bytes, exactly if they fit |
| `DnsBuffer.BytePacketBuffer.WriteU32` | src/dns/dnspacket.rs:143-150 | four bytes, exactly if they fit |
| `DnsBuffer.BytePacketBuffer.WriteQName` | src/dns/dnspacket.rs:152-173 | the encoded labels, exactly if each has at most 52 bytes and all fit |
| `DnsBuffer.BytePacketBuffer.SetU16` | src/dns/dnspacket.rs:175-186 | two bytes are set in place, nothing else changes |
| `DnsPackets.RcodeNum` | src/dns/dnspacket.rs:190-211 | every result code has a four-bit number that is read back as it |
| `DnsPackets.HeaderRoundTripIff` | src/dns/dnspacket.rs:258-319 | a header survives if and only if its opcode is below 16; a fifth bit comes back as the response bit |
| `DnsPackets.FlagsARoundTrip` | src/dns/dnspacket.rs:285-311 | bit by bit, the first flag byte |
| `DnsPackets.FlagsBRoundTrip` | src/dns/dnspacket.rs:285-311 | bit by bit, the second flag byte |
| `DnsWire.RcodeNumbers` | src/dns/dnspacket.rs:190-210 | the response codes have the numbers 0 to 5, and any other number counts as no error |
| `DnsWire.HeaderLayout` | src/dns/dnspacket.rs:285-311 | the twelve bytes of a header |
| `DnsPackets.TypeRoundTripIff` | src/dns/dnspacket.rs:323-345 | a query type survives if and only if it is not a known number in disguise |
| `DnsWire.TypeNumbers` | src/dns/dnspacket.rs:314-345 | the types have the numbers of RFC 1035 and RFC 3596, for questions and records, written and read |
| `DnsWire.QuestionLayout` | src/dns/dnspacket.rs:369-378 | the bytes of a question: name, type, class IN |
| `DnsWire.ReadsAnyQuestion` | src/dns/dnspacket.rs:361-367 | a question of any class is read |
| `DnsPackets.Ipv4RoundTrip` | src/dns/dnspacket.rs:429-436 | four address bytes are read as written |
| `DnsPackets.Ipv6RoundTrip` | src/dns/dnspacket.rs:444-460 | eight address segments are read as written |
| `DnsPackets.RecordRoundTrip` | src/dns/dnspacket.rs:418-608 | a canonical record is read as written, and skipping by RDLENGTH lands where decoding lands |
| `DnsWire.DataLayout` | src/dns/dnspacket.rs:511-603 | the data of each kind of record, in bytes |
| `DnsWire.RecordLayout` | src/dns/dnspacket.rs:511-603 | the bytes of a record: owner, type, class IN, time to live, the length of the data, the data |
| `DnsWire.ReadsAnyHead` | src/dns/dnspacket.rs:418-427 | what stands between owner and data is read whatever the class |
| `DnsWire.UnknownIsSkipped` | src/dns/dnspacket.rs:497-506 | a record of any other type is skipped as its length says, and its fields are kept |
| `DnsWire.CompressedAnswer` | src/dns/dnspacket.rs:418-443 | the usual answer, an address whose owner is a pointer to an earlier name, is read |
| `DnsPackets.PacketRoundTrip` | src/dns/dnspacket.rs:632-680 | a canonical packet is read back with its section counts, and reading stops where writing stopped |
| `DnsExact.NameValueIff` | src/dns/dnspacket.rs:152-173 | the text of a written name comes back exactly if the name is canonical or empty, and the empty one leaves the cursor a byte short |
| `DnsExact.QuestionRoundTripIff` | src/dns/dnspacket.rs:361-377 | exactly the canonical questions survive |
| `DnsExact.RecordRoundTripIff` | src/dns/dnspacket.rs:418-608 | exactly the canonical records survive: no unknown type, owner and host without empty labels and upper-case letters |
| `DnsUnknown.PacketRoundTripIff` | src/dns/dnspacket.rs:603-605 | of the packets that are canonical apart from UNKNOWN records exactly those without such records survive |
| `DnsWhole.ShiftedLabels` | src/dns/dnspacket.rs:152-173 | read from a byte 1 in front of it, a name never gives its own text |
| `DnsWhole.KnownPacketRoundTripIff` | src/dns/dnspacket.rs:632-680 | a packet of known records comes back with its counts and the cursor at its end if and only if it is canonical |
| `DnsMessages.WriteHeader` | src/dns/dnspacket.rs:285-319 | the twelve header bytes, exactly if they fit, nothing else changed |
| `DnsMessages.WriteQuestion` | src/dns/dnspacket.rs:369-377 | the bytes of the question, exactly if it can be written and fits |
| `DnsMessages.ThenHost` | src/dns/dnspacket.rs:532-587 | the reserved length is patched with the number of bytes that follow it, and no other byte changes |
| `DnsMessages.WriteRecord` | src/dns/dnspacket.rs:511-608 | the bytes of the record with the right RDLENGTH, exactly if it can be written and fits; the size is the cursor advance; nothing outside the written range changes |
| `DnsMessages.WritePacket` | src/dns/dnspacket.rs:658-680 | the counts are set and the bytes of the packet written, exactly if every part can be and all fits |
| `DnsMessages.ReadHeaderFrom` | src/dns/dnspacket.rs:258-283 | the header the reference reads, and its cursor |
| `DnsMessages.ReadQuestionFrom` | src/dns/dnspacket.rs:361-367 | the question the reference reads, and its cursor |
| `DnsMessages.ReadRecordFrom` | src/dns/dnspacket.rs:418-509 | the record the reference reads, and its cursor |
| `DnsMessages.FromBuffer` | src/dns/dnspacket.rs:632-656 | the packet the reference reads, and its cursor |
| `DnsMessages.WriteThenRead` | src/dns/dnspacket.rs:632-680 | in place: a canonical packet that could be written is read back with its counts, and the cursor is back where writing left it |
| `DomainMaps.InsertAddsItsLine` | src/dns/domap.rs:33-69 | inserting a path adds exactly the answers on its line: its prefixes and its extensions |
| `DomainMaps.AcceptedIff` | src/dns/domap.rs:91-111 | a name is accepted if and only if it has a dot and does not end with one |
| `DomainMaps.HasIffScan` | src/dns/domap.rs:91-126 | the tree agrees with a list scan: `has` holds iff the name has two labels and its reversed labels and those of some accepted inserted name are one a prefix of the other |
| `DomainMaps.HasIffNested` | src/dns/domap.rs:91-126 | the same in terms of names: some accepted name is the name, lies under it or has it under it |
| `DomainMaps.OrderIsIrrelevant` | src/dns/domap.rs:91-111 | lists of the same names, in any order and number, give the same answers |
| `DomainMaps.SubDomain.constructor` | src/dns/domap.rs:26-31 | a new node has no children and is no leaf |
| `DomainMaps.SubDomain.GetOrInsert` | src/dns/domap.rs:45-53 | the child of a label, a new one if there was none, and nothing else changed |
| `DomainMaps.SubDomain.Insert` | src/dns/domap.rs:33-43 | the tree of nodes refines `Inserted` |
| `DomainMaps.SubDomain.Has` | src/dns/domap.rs:55-69 | the tree of nodes answers as `HasPath` |
| `DomainMaps.DomainMap.constructor` | src/dns/domap.rs:85-89 | the map starts without names |
| `DomainMaps.DomainMap.Insert` | src/dns/domap.rs:91-111 | the map stands for the names inserted so far and this one |
| `DomainMaps.DomainMap.Has` | src/dns/domap.rs:113-126 | the answer is that of a scan over all names inserted so far |
| `Caches.InsertKeepsIff` | src/udpx/cache.rs:33-43 | an insertion keeps entries and deadlines in one-to-one correspondence if and only if its address is new |
| `Caches.PopOne` | src/udpx/cache.rs:86-97 | popping what is due does not change what the purge comes to |
| `Caches.PurgeRefines` | src/udpx/cache.rs:86-98 | a purge drops exactly the entries untouched for the time to live |
| `Caches.StepRefines` | src/udpx/cache.rs:33-98 | every event keeps the correspondence and does on the cache what it does on a plain map of stubs with the time of their last touch |
| `Caches.RunRefines` | src/udpx/udpxmgr.rs:107-145 | in every state reachable through the manager entries and deadlines agree, one purge task runs if there are entries, and the cache holds what the plain map holds |
| `Caches.StubLivesForAMinute` | src/udpx/cache.rs:33-98 | a stub that is left alone is there until the purge task looks 60 seconds after it was last touched, or later |
| `Caches.PacketsTouch` | src/udpx/udpxmgr.rs:107-141 | a packet touches the stub it goes to, a new one if it was built, and no other |
| `Caches.DelayQueue.PollExpired` | src/udpx/cache.rs:87 | some slot that is due; nothing else exactly if none is, and the end exactly if the queue is empty |
| `Caches.Cache.Insert` | src/udpx/cache.rs:33-43 | the class refines `Inserted`, overwriting included |
| `Caches.Cache.Get` | src/udpx/cache.rs:45-53 | the stub if there is one, its deadline put off; the key it resets is live |
| `Caches.Cache.Remove` | src/udpx/cache.rs:80-84 | entry and deadline go together; the key it removes is live |
| `Caches.Cache.Cleanup` | src/udpx/cache.rs:55-61 | both are empty |
| `Caches.Cache.PollPurge` | src/udpx/cache.rs:86-98 | the loop comes to the closed form of the purge, and the task ends exactly if nothing is left |
| `Caches.UdpXMgr.OnUdpProxySouth` | src/udpx/udpxmgr.rs:107-130 | the packet goes to the stub of its source, a new one if there is none and one can be built; the cache only ever inserts new addresses |
| `Caches.UdpXMgr.BuildUstub` | src/udpx/udpxmgr.rs:132-141 | a stub that was built is inserted |
| `Caches.UdpXMgr.OnUstubClosed` | src/udpx/udpxmgr.rs:143-145 | the stub is removed |
| `Resolvers.DecimalValue` | src/dns/lresolver.rs:123 | the decimal digits of a number stand for it |
| `Resolvers.KeyIsInjective` | src/dns/lresolver.rs:123 | the key "qname:id" determines name and id, whatever the name contains |
| `Resolvers.KeyLayout` | src/dns/lresolver.rs:123 | the key is the name, a colon, and the digits of the number without leading zeros |
| `Resolvers.OldestIs` | src/dns/lresolver.rs:122-129 | of two live requests under one key the older one is found |
| `Resolvers.StepRefines` | src/dns/lresolver.rs:122-138 | every event keeps the two generations in step with the log, and `take` answers as the log does |
| `Resolvers.RunRefines` | src/dns/lresolver.rs:122-172 | after every run the memo answers as a log that only counts keepalives |
| `Resolvers.RunFromNothing` | src/dns/lresolver.rs:122-172 | so does every run of a new resolver |
| `Resolvers.TakenUntilTwoKeepalives` | src/dns/lresolver.rs:122-138 | a request nobody else touches can be taken until two keepalives have passed, an older one left under its key going first |
| `Resolvers.TwoKeepalivesForget` | src/dns/lresolver.rs:131-138 | two keepalives without a request empty both maps |
| `Resolvers.LocalResolver.DoRequest` | src/dns/lresolver.rs:166-172 | noted exactly if there is a socket to send on |
| `Resolvers.LocalResolver.DoTake` | src/dns/lresolver.rs:122-129 | the class refines `Taken` and `Step` |
| `Resolvers.LocalResolver.DoKeepalive` | src/dns/lresolver.rs:131-138 | the drain makes the current generation the old one |
| `Netlinks.Align4` | src/dns/netlink.rs:42-44 | the next multiple of four |
| `Netlinks.KernelNumbers` | src/dns/netlink.rs:11-23 | the constants of the message, in numbers |
| `Netlinks.MachineOrder` | src/dns/netlink.rs:57-94 | which end of a number comes first on which machine |
| `Netlinks.AddrKinds` | src/dns/netlink.rs:123-128 | addresses of four bytes go under the kind of IPv4, of sixteen under that of IPv6 |
| `Netlinks.WalkOne` | src/dns/netlink.rs:96-115 | a walk steps over an attribute by its aligned length |
| `Netlinks.ReadsHead` | src/dns/netlink.rs:57-94 | the headers are read as written |
| `Netlinks.SizesFit` | src/dns/netlink.rs:101-109 | the 16-bit size arithmetic does not truncate in a message of at most 65535 bytes |
| `Netlinks.PiecesDecode` | src/dns/netlink.rs:117-261 | a walk at each level, ending exactly where the level ends, recovers protocol, set name, address and mask |
| `Netlinks.WriteHead` | src/dns/netlink.rs:61-67 | the message header in the machine's byte order |
| `Netlinks.WriteNfGen` | src/dns/netlink.rs:89-93 | the four bytes of the second header |
| `Netlinks.WriteAttr` | src/dns/netlink.rs:111-114 | length and kind of an attribute, behind what is already written |
| `Netlinks.ConstructIphashPacket` | src/dns/netlink.rs:117-183 | for either byte order the output decodes to the entry, its length is `hdr.length`, and no padding byte nor any byte behind it has changed; the bytes are written even if only the last padding does not fit |
| `Netlinks.ConstructV4NethashPacket` | src/dns/netlink.rs:185-261 | the same with the mask as a second child of the data |

## Left out

- TLS, tokio tasks, wakers and channels: a read or write is an entry of a script, a channel a sequence, a closed trigger a flag.
- Connecting: DNS lookup, certificates and sockets decide only whether a connect succeeds; both outcomes are steps.
- `header too large` (`src/lws/chandshake.rs:95-101`): a `BytesMut` always has room in the version of the `bytes` crate the repository uses, so the branch cannot be reached.
- `Framing.LwsFramed.ReceiveOn`: ends at the first error of the socket, because what a broken socket says when it is polled again is not part of this model.
- `Tunnels.Tunnel.OnTunnelMsg`: round-trip times, ping counts and the assertion that a pong is not stamped in the future (`src/tunnels/tunnel.rs:183-216`), because timestamps are not part of this model; nor the addresses in a message from the UDP side (`src/tunnels/tunnel.rs:583-607`), on which a short message panics if a UDP channel is set: it is handed over whole.
- `XTunnels.XTunnel.OnTunnelMsg`: as for `Tunnels.Tunnel.OnTunnelMsg`.
- Quotas, access log and statistics of requests.
- `TunMgrs.TunMgr`: its tunnels are values rather than shared cells, so that two owners of one tunnel object, as a serving task and the manager are, is not captured; each handler runs to its end before the next.
- `TunMgrs.TunMgr.SortTunnelsByBusy`: the library sort is any permutation, ordered by load if every tunnel is live, because the comparator is not an order when one is missing.
- Requests that outlive their tunnel and reach its successor at the same index: handle identity is proved within the life of one `Tunnel`.
- `TunMgrs.TunMgr.OnKeepalive`: pings and the closing of sockets are effects on the socket only; that a socket closes is an event of its own.
- `TunMgrs.TunMgr.Discard`: as for `TunMgrs.TunMgr.OnKeepalive`.
- `XTunnels.XTunnel.OnKeepalive`: as for `TunMgrs.TunMgr.OnKeepalive`.
- `XTunnels.XTunnel.Stop`: as for `TunMgrs.TunMgr.OnKeepalive`.
- `ReqServ.Pump`: a send that fails because the tunnel is gone ends the loop as well; what is queued then reaches nobody.
- `Outbound.FramedSink.PollFlush`: conserves bytes for messages of at most 65536 bytes, which is exactly where that is true, see `Outbound.WholeIffShort`; every message of the tunnels is shorter.
- Capacities and tunnel counts above 65535.
- Non-ASCII names: `Names.Lower` maps ASCII letters only, and bytes from 128 on are kept as they are.
- `DnsBuffer.BytePacketBuffer`: the buffer has 512 bytes, as in `src/dns/mydns.rs`; shorter slices, on which the reads would panic, are not modelled.
- `DnsBuffer.BytePacketBuffer.ReadQName`: entered only where it ends; where it does not, the model says so with `Diverges` and gives no run.
- `DnsPackets.PacketRoundTrip`: one direction, for canonical packets; `DnsWhole.KnownPacketRoundTripIff` and `DnsUnknown.PacketRoundTripIff` make it exact for packets without unknown records and for packets that are canonical apart from them. A packet with an unknown record and another flaw is left open: reading the unknown record skips as many bytes as some later record's data says.
- Flag bytes are composed by sums of distinct powers of two instead of bit operations.
- `Caches.RunRefines`: a timer error ends the purge task early and is not modelled; time is exact to the second.
- The hash of source and destination that picks a tunnel for UDP, and the sockets of stubs.
- `Resolvers.LocalResolver.DoRequest`: rebuilding the socket is the parameter `hasTx`.
- `Netlinks.ConstructIphashPacket`: set names and addresses whose message fits 16-bit lengths and whose written bytes fit the buffer; the only caller has a buffer of 256 bytes, and a longer message panics.
- `Netlinks.ConstructV4NethashPacket`: as for `Netlinks.ConstructIphashPacket`.
- `NLSocket`, ipset shell commands, iptables and process control.
- `src/dns/forwarder.rs` and `src/dns/dnstunnel.rs`: they repeat the lifecycle of `TunMgr` and `Tunnel`.
- The HTTP client, configuration, JSON and gzip: thin wrappers over libraries.
