# Verified core of a game server

A Dafny model of the parts of the server whose correctness rests on invariants that no single
function shows: three lock-free queues, packet framing and the send pipeline, the timer wheel, a
table-driven CRC-32, the LRU cache, and the bookkeeping of a section's objects.
`dafny verify dfyconfig.toml` checks everything.

| files | what they model | form |
|---|---|---|
| `Common.dfy` | options and a few facts on sequences that the others share | |
| `Mpmc.dfy` | ticket/turn ring, any number of threads | one step per atomic operation, any interleaving |
| `Mpsc.dfy` | exchange-then-link list, many producers and one consumer | one step per atomic operation, any interleaving |
| `Spsc.dfy`, `SpscHeap.dfy` | list with recycled nodes | one step per atomic operation; and linked nodes on the heap |
| `Wire.dfy`, `Framing.dfy`, `Chunking.dfy` | packet layout, the incremental receiver, what it makes of any cut of a stream | class over a buffer; lemmas on streams |
| `Output.dfy`, `Sending.dfy`, `RoundTrip.dfy` | segmented byte queue, send state machine, both ends together | classes over arrays; lemmas |
| `Wheel.dfy`, `Timers.dfy` | the timer as a value and a flush as a run of small steps; the ring of linked lists and the heap | functions and lemmas; classes |
| `CrcTable.dfy`, `Crc32.dfy` | CRC-32 | 32-bit vectors, a loop over a string |
| `LruCache.dfy` | hash index over a recency list | class over list nodes |
| `Registry.dfy`, `Sections.dfy` | six containers of a section that must agree | classes over maps and lists |

**How to read the concurrent models.** A state holds the shared memory and, for each thread, where it
is. `Apply` lets one thread take one atomic step (load, store, exchange, fetch_add or compare_exchange)
under sequential consistency; `Exec` runs any list of such actions. A theorem about `Exec(…, acts)` for
all `acts` speaks of every interleaving of any length. Reachability is proved from an inductive
invariant. The queues' histories (`pushed`, `done`, `exchanged`, `enqueued`, …) are only there to be talked
about; the calls they are compared with (`Begun`, `Arguments`) are read off the list of actions itself.

**How to read the imperative models.** A class keeps the fields of the source's class; `Valid()` (or
`Agree()`) is its invariant; a ghost function gives the value it stands for (`Contents()`,
`Abstract()`, `Entries()`), and each method's contract ties the new value to the old one.

**What is assumed of the outside.** The socket hands received bytes to the front of the receive buffer
and takes bytes of the lent view in order. The clock does not go back. A protocol accepts or rejects a
packet by its bytes alone. Headers are little-endian, as on the platforms the server runs on. Object
numbers issued by `UniqueId` are not 0. A protobuf message writes exactly the bytes its size
announces. What callbacks of a timer flush reserve is a parameter of the flush (a script with one entry
per callback), since their code is not part of this model.

## Results that are not what one might expect

- Rejected packets make the outcome depend on how the network cuts the stream: a rejected packet that
  one read holds whole is skipped, one that is split over reads ends the connection.
  `Chunking.CutsAgreeExactly` gives the exact condition, `Chunking.RejectedFits` two cuts that differ for
  every stream that does not meet it, and `Chunking.RejectedExample` a concrete one.
- A flush stays punctual exactly when no callback reserves for a tick before that of the slot it runs
  from: such an entry lands in a slot the flush has left and waits for the ring to come round
  (`Wheel.FlushPunctualExactly`, `Wheel.LateStays`, and `Wheel.LateExample`). That nothing runs early needs no condition.
- Removing an object that carries the number of another one leaves the containers in disagreement
  (`Sections.Section.RemoveGameObject`), and destroying a section leaves the spawn counts standing
  (`Sections.Section.OnDestroyed`): both contracts say exactly when, and `Sections.ImpostorExample` and
  `Sections.DestroyedExample` each build a case.
- Clearing an MPSC queue leaves one node allocated, and its destructor does nothing else
  (`Mpsc.ClearLeavesOneNode`).
- A protobuf message without a body reports failure after its header has been written; the bytes are
  sent all the same (`Sending.SerializeTo`).

## Model

| member | source | states |
|---|---|---|
| Mpmc.Reachable | Source/Core/Container/MPMC.h:150-240 | every interleaving of emplace, try_emplace, pop and try_pop from an empty queue keeps the ticket/turn protocol: each slot's turn and cell say exactly which tickets of it are unfinished |
| Mpmc.EveryCallAccounted | Source/Core/Container/MPMC.h:150-240 | in every run, for every thread: its calls end in order, each with a result it may have; every emplace that returned owns one push ticket with its argument, every pop one pop ticket with the value handed over, a try one exactly if it returned true; and the thread has drawn no other ticket but the one it holds |
| Mpmc.PopReturnsPushed | Source/Core/Container/MPMC.h:150-159 | the pop that draws ticket t returns the value brought by the push that drew ticket t |
| Mpmc.HistoryGrows | Source/Core/Container/MPMC.h:153-153 | a ticket is drawn once and a pop returns once: nothing in the history is ever rewritten, and a pop about to return has not returned before |
| Mpmc.ExclusiveSlot | Source/Core/Container/MPMC.h:155-158 | between turn check and turn store no two threads have the same slot |
| Mpmc.StorageSafe | Source/Core/Container/MPMC.h:76-88 | objects are constructed in raw storage only, moved out of live objects only, destroyed only after that |
| Mpmc.QuiescentSlots | Source/Core/Container/MPMC.h:70-74 | with no operation in flight a slot's turn is odd exactly when it holds a live value, and that value is one push brought and no pop took |
| Mpmc.QuiescentTickets | Source/Core/Container/MPMC.h:139-144 | conversely every unpopped push sits in a slot with an odd turn, so the destructor destroys exactly the unpopped elements |
| Mpmc.MatchedTicketsProgress | Source/Core/Container/MPMC.h:211-217 | while push t and pop t are issued and not both finished, a holder of a ticket of that slot no later than t can move on |
| Mpmc.TryPushFailsWhenFull | Source/Core/Container/MPMC.h:164-181 | whenever try_emplace returns false: at its last check of a turn, head was its ticket and the value one lap earlier had not been popped |
| Mpmc.TryPopFailsWhenEmpty | Source/Core/Container/MPMC.h:220-240 | whenever try_pop returns false: at its last check of a turn, tail was its ticket and the push of that ticket had not been issued or was still held |
| Mpmc.PushAlone | Source/Core/Container/MPMC.h:150-182 | undisturbed, emplace and try_emplace store the value within six steps if there is no value one lap earlier or it has been popped; otherwise try_emplace returns false with nothing changed and emplace waits |
| Mpmc.PopAlone | Source/Core/Container/MPMC.h:210-240 | undisturbed, pop and try_pop take the next value within six steps if its push has finished; otherwise try_pop returns false with nothing changed and pop waits |
| Mpmc.TicketsOfSlot | Source/Core/Container/MPMC.h:258-260 | tickets of one slot are ordered like their laps, so turns tell them apart |
| Mpsc.Reachable | Source/Core/Container/MPSC.h:47-81 | every interleaving of producers and the consumer keeps one chain from tail to head in exchange order |
| Mpsc.NoUseAfterFree | Source/Core/Container/MPSC.h:47-51 | no step of any thread touches a freed node; a producer's previous head is never one |
| Mpsc.PopsFollowExchanges | Source/Core/Container/MPSC.h:67-81 | the values returned are the exchanged ones, in that order |
| Mpsc.PushesAreExchanged | Source/Core/Container/MPSC.h:47-51 | in every run, for every thread: the values of its Push calls, in order, are those it has exchanged in and the one it is about to; no call drops, repeats, changes or reorders a value |
| Mpsc.BegunAsMultiset | Source/Core/Container/MPSC.h:47-51 | over all threads, as multisets of (thread, value) pairs: the calls begun are the exchanges and the calls still before theirs |
| Mpsc.PopsFollowCalls | Source/Core/Container/MPSC.h:47-81 | first in, first out for every producer: what has been popped of its values is a prefix of its Push calls |
| Mpsc.ChainBrokenAtPendingLinks | Source/Core/Container/MPSC.h:49-50 | the chain has no repetition and is broken behind a node exactly while the producer that exchanged in the next one has not linked it |
| Mpsc.TryPopFailsOnlyWhenEmptyOrUnlinked | Source/Core/Container/MPSC.h:71-73 | whenever TryPop returns false: it did so at its load of next, when everything exchanged had been popped or the link behind the tail was still in flight |
| Mpsc.TryPopTakesTheNext | Source/Core/Container/MPSC.h:67-81 | otherwise, whatever the producers do after the load, the call returns the next value in exchange order within five steps |
| Mpsc.PushEnds | Source/Core/Container/MPSC.h:47-51 | Push returns after exactly three steps of its own, whatever the other threads do |
| Mpsc.TryPopEnds | Source/Core/Container/MPSC.h:67-81 | every step of TryPop brings its return nearer, which is at most six steps away |
| Mpsc.CountIsBalance | Source/Core/Container/MPSC.h:77-89 | the node counter is what IncreaseNodeCount added less what DecreaseNodeCount took off less one per pop that has counted down, modulo 2^64 |
| Mpsc.QuiescentNodes | Source/Core/Container/MPSC.h:67-81 | at rest the allocated nodes are exactly the chain, one more than the values left, each linked to the next and holding its value |
| Mpsc.TryPopAlone | Source/Core/Container/MPSC.h:67-81 | at rest a whole TryPop takes the next value if there is one and changes nothing otherwise |
| Mpsc.ClearLeavesOneNode | Source/Core/Container/MPSC.h:43-45 | the loop of Clear, and so the destructor, ends with the first call after the values left; everything exchanged has been popped then and exactly one node is still allocated |
| Spsc.Reachable | Source/Core/Container/SPSC.h:46-68 | every interleaving of one producer and one consumer keeps the invariant of the node chain |
| Spsc.EveryStepSafe | Source/Core/Container/SPSC.h:62-64 | every step touches allocated nodes, constructs in raw storage, and moves out and destroys live values once |
| Spsc.DequeuedIsPrefix | Source/Core/Container/SPSC.h:55-68 | the values dequeued are a prefix of the values enqueued |
| Spsc.OneChain | Source/Core/Container/SPSC.h:148-150 | first_, tail_copy_, tail_ and head_ lie in that order on one chain without repetition |
| Spsc.RecycledNodeIsFree | Source/Core/Container/SPSC.h:140-145 | a node being recycled is neither the consumer's tail nor an occupied node |
| Spsc.DequeueFailsOnlyWhenEmpty | Source/Core/Container/SPSC.h:57-60 | whenever Dequeue returns nothing: it did so at its load of next, when every linked value had been dequeued |
| Spsc.DequeueTakesTheNext | Source/Core/Container/SPSC.h:55-68 | otherwise, whatever the producer does after the load, the call returns the first value not yet dequeued within four steps |
| Spsc.EnqueuedAreArguments | Source/Core/Container/SPSC.h:46-52 | the values enqueued are the arguments of the Enqueue calls of the run, in order |
| Spsc.NewNodeOnlyIfNoneIsFree | Source/Core/Container/SPSC.h:124-138 | Enqueue asks for a new node only if every node there is is the tail, holds a value or is being emptied |
| Spsc.CallsEnd | Source/Core/Container/SPSC.h:46-68 | every step of either call brings its own return nearer, which is at most seven and five steps away |
| SpscHeap.SpscQueue.constructor | Source/Core/Container/SPSC.h:17-21 | one node, no element |
| SpscHeap.SpscQueue.AllocNode | Source/Core/Container/SPSC.h:124-138 | the node given out is a passed one while there is one; a new one only when every node is in use |
| SpscHeap.SpscQueue.AllocateFromCache | Source/Core/Container/SPSC.h:140-145 | the first passed node leaves the chain, the queue's elements stay |
| SpscHeap.SpscQueue.Enqueue | Source/Core/Container/SPSC.h:46-52 | appends the element; the nodes allocated stay one more than the greatest length so far |
| SpscHeap.SpscQueue.Dequeue | Source/Core/Container/SPSC.h:55-68 | takes off the first element, or reports that there is none |
| SpscHeap.SpscQueue.Destroy | Source/Core/Container/SPSC.h:23-43 | deletes every node once and destroys exactly the elements left, in order |
| Wire.HeaderRoundTrip | Source/Core/Network/Packet/Packet.h:14-15 | reading a header undoes writing it, whatever bytes follow |
| Wire.HeaderBytes | Source/Core/Network/Packet/Packet.h:5-7 | writing a header undoes reading it: every 16 bytes are the header of exactly one pair of words |
| Wire.HeaderLayout | Source/Core/Network/Packet/Packet.h:13-14 | the number is the weighted sum of bytes 0 to 7 and the size that of bytes 8 to 15, lowest first; the packet is 16 bytes longer than the size |
| Wire.EncodedLayout | Source/Core/Network/StreamWriter.cpp:6-17 | byte i of a written message is id / 256^i % 256, byte 8 + i is size / 256^i % 256, and from byte 16 on it is the body |
| Wire.ParseIsPartition | Source/Core/Network/Packet/Packet.h:18-33 | the parsed packets and the rest put together are the stream; each packet has the length its header gives; the rest is less than a packet |
| Wire.ParseIsUnique | Source/Core/Network/Packet/Packet.h:18-33 | there is no other such partition of a stream |
| Wire.ParseMore | Source/Core/Network/Connection.cpp:168-262 | bytes that arrive later do not disturb the packets already there |
| Framing.PendingStream.AppendData | Source/Core/Network/NetworkStream.h:14-17 | appends that part of the buffer and keeps the header read |
| Framing.Receiver.constructor | Source/Core/Network/Connection.cpp:102-108 | a new connection keeps no bytes and has delivered nothing |
| Framing.Receiver.OnDataReceived | Source/Core/Network/Connection.cpp:270-276 | delivers the packet exactly if the protocol accepts it |
| Framing.Receiver.ContinuePending | Source/Core/Network/Connection.cpp:172-222 | the branch for a packet begun by an earlier read: it makes progress, and what it has read, delivered and kept is on the way to the call's result; a header whose length wraps ends the connection |
| Framing.Receiver.StartPacket | Source/Core/Network/Connection.cpp:224-261 | the branch for a new packet: it makes progress, and what it has read, delivered and kept is on the way to the call's result |
| Framing.Receiver.ReceiveImpl | Source/Core/Network/Connection.cpp:158-268 | one call ends and has the outcome of parsing kept bytes and new bytes together, or fails at a kept header whose length wraps; what it keeps is a proper beginning of a packet; one notification if anything was delivered; a length beyond the buffer changes nothing |
| Framing.Receiver.OnReceived | Source/Core/Network/Connection.cpp:129-156 | no bytes, an error or a failed call end the connection; otherwise the outcome of the call stands |
| Framing.Receiver.Serve | Source/Core/Network/Connection.cpp:124-156 | over all reads of a connection the outcome is that of the reads fed one by one |
| Framing.WrappedLength | Source/Core/Network/Connection.cpp:196-203 | the 64-bit length is 16 more than the word in bytes 8 to 15, modulo 2^64; it is the packet's exactly if it covers a header, shorter than a header otherwise, and 0 for exactly one size, with which a whole packet would not move the loop on |
| Framing.CallFits | Source/Core/Network/Connection.cpp:197-203 | where no header wraps, the failure at wrapped headers never comes up |
| Framing.Continued | Source/Core/Network/Connection.cpp:194-222 | bytes that complete a kept beginning: the packet is accepted, or the connection fails at its header or its body, and the bytes behind it remain to be parsed |
| Framing.Started | Source/Core/Network/Connection.cpp:224-261 | between packets: the next one is skipped or delivered, or its beginning is all there is left to keep |
| Chunking.ChunkingDoesNotMatter | Source/Core/Network/Connection.cpp:158-268 | for streams of accepted packets, delivered packets and kept bytes after any reads are those of the concatenation |
| Chunking.FeedAccepted | Source/Core/Network/Connection.cpp:158-268 | the same from any state between two reads |
| Chunking.RejectedTooLong | Source/Core/Network/Connection.cpp:216-219 | reads shorter than the first rejected packet: it always ends the connection, after exactly the packets before it |
| Chunking.RejectedFits | Source/Core/Network/Connection.cpp:252-257 | reads that can hold the first rejected packet: two cuts of the same stream with different outcomes |
| Chunking.RejectedExample | Source/Core/Network/Connection.cpp:216-257 | a stream of one header and a protocol that accepts nothing: skipped in one read, fatal byte by byte |
| Chunking.CutsAgreeExactly | Source/Core/Network/Connection.cpp:158-268 | the outcome is the same for all cuts into reads of at most n bytes if and only if no packet is rejected or the first rejected one is longer than n |
| Output.Buffer.constructor | Source/Core/Network/Buffer.cpp:6-12 | an empty buffer over 4096 bytes of its own |
| Output.OutputStream.Next | Source/Core/Network/OutputStream.cpp:14-26 | lends all room left behind the last byte, in a new buffer if the last is full; the queue grows by just that room |
| Output.OutputStream.BackUp | Source/Core/Network/OutputStream.cpp:28-36 | takes exactly count bytes off the end if the last buffer holds them; otherwise aborts, with nothing changed |
| Output.OutputStream.Store | Source/Core/Network/OutputStream.cpp:51-61 | fills lent room and gives the rest back; that never aborts |
| Output.OutputStream.WriteRaw | Source/Core/Network/OutputStream.cpp:42-65 | appends exactly the data across buffers, all but the last of which are full; no byte in front of a buffer's end changes and no buffer begins elsewhere, so lent bytes are never overwritten |
| Output.OutputStream.NextBuffer | Source/Core/Network/OutputStream.cpp:67-85 | nothing exactly if no byte waits; otherwise the non-empty beginning of the queue that lies in the first buffer; the queue stays |
| Output.OutputStream.Consume | Source/Core/Network/Connection.cpp:323-323 | moving the first buffer's start takes exactly those bytes off the front |
| Output.OutputStream.Clear | Source/Core/Network/OutputStream.cpp:87-89 | no byte waits |
| Output.StreamWriter.WriteMessage | Source/Core/Network/StreamWriter.cpp:6-17 | appends the message byte by byte as laid out above, empty bodies included, behind what waits |
| Sending.SerializeTo | Source/Protobuf/Private/ProtobufNode.cpp:16-25 | both kinds of node append the same bytes for a message; only a protobuf node without body reports failure |
| Sending.Sender.BeginConnection | Source/Core/Network/Connection.cpp:102-108 | from any state: idle, nothing queued, waiting or written |
| Sending.Sender.Send | Source/Core/Network/Connection.cpp:58-61 | the node is queued last; nothing else moves |
| Sending.Sender.SerializePending | Source/Core/Network/Connection.cpp:285-294 | serializes the linked nodes in order behind what waits, leaving lent bytes alone; at least one node leaves at least one byte |
| Sending.Sender.FlushSend | Source/Core/Network/Connection.cpp:282-308 | serializes the linked nodes; starts a write only if none runs, and then of the whole first buffer and exactly if there was a linked node; the abort is never reached |
| Sending.Sender.OnSendCompleted | Source/Core/Network/Connection.cpp:315-333 | the bytes taken by the socket are those lent; if bytes are left the next buffer is lent and the queue stays; if none are, the linked nodes are serialized and a write runs exactly if there was one; after a failure none runs and no node is lost |
| Sending.Sender.WireIsPrefix | Source/Core/Network/Connection.cpp:282-333 | bytes written and lent are the beginning of the serialized nodes in queue order, each once; when no write runs nothing serialized is left |
| Sending.Sender.Handle | Source/Core/Network/Connection.cpp:282-333 | one event, in numbers: a flush serializes the linked nodes and starts a write if none runs and there was one; a completion moves exactly the bytes transferred to those written, keeps a write running while bytes are left, and leaves the sender idle only if no linked node waits; a failure ends the connection |
| Sending.Sender.Run | Source/Core/Network/Connection.cpp:282-333 | over every run of sends, flushes and completions: what was sent is what was serialized and what is queued; the socket gets a prefix of it, all of it once idle with nothing queued; and every event has moved the sender as its row above says |
| RoundTrip.DecodeEncode | Source/Core/Network/Packet/Packet.h:22-32 | a written message reads back as its number and body |
| RoundTrip.EncodeDecode | Source/Core/Network/Packet/Packet.h:22-32 | a packet is the writing of what is read from it |
| RoundTrip.DecodeLayout | Source/Core/Network/Packet/Packet.h:21-31 | what a protocol reads off a packet is where the layout puts it: the number in bytes 0 to 7, the length of the body in bytes 8 to 15, the body behind |
| RoundTrip.ParseEncoded | Source/Core/Network/StreamWriter.cpp:6-17 | the packets of a written stream are the messages one by one with nothing over |
| RoundTrip.PrefixDelivered | Source/Core/Network/Connection.cpp:158-268 | whatever beginning of the stream has arrived, in whatever reads, the first messages have been delivered unchanged and in order, and less than one more is kept |
| RoundTrip.AllDelivered | Source/Core/Network/Connection.cpp:158-268 | the whole stream in any reads delivers exactly the messages |
| RoundTrip.Transfer | Source/Core/Network/Connection.cpp:158-333 | a sender after any run and a receiver fed what the socket has written: delivered are the first messages sent, all of them once the sender is idle |
| Wheel.SlotLawStep | Source/Core/System/TimerContext.cpp:65-72 | at any point of a flush a slot's callbacks have run in the order reserved, old ones before those that joined in time; what joined after the flush left the slot is still in it |
| Wheel.DrainLaw | Source/Core/System/TimerContext.cpp:65-72 | the same whenever the flush has finished a slot |
| Wheel.FlushedSlot | Source/Core/System/TimerContext.cpp:55-77 | where every entry of every slot is after a flush, across wrap-around, the cap and reservations made meanwhile |
| Wheel.FlushOrder | Source/Core/System/TimerContext.cpp:65-72 | callbacks run in non-decreasing slot order and inside a slot in reservation order |
| Wheel.FlushNeverEarly | Source/Core/System/TimerContext.cpp:55-93 | whatever callbacks reserve, none runs before its target, and the timer stays such that none will |
| Wheel.ReserveNeverEarly | Source/Core/System/TimerContext.cpp:25-49 | reserving for any tick, past ones included, keeps that |
| Wheel.ReservePunctual | Source/Core/System/TimerContext.cpp:25-49 | outside a flush, reserving for any tick keeps every entry due exactly at its target |
| Wheel.ReservePlaced | Source/Core/System/TimerContext.cpp:25-49 | a reservation 300000 ticks ahead or more goes to the heap, any other to the end of the slot at its distance, one for the past to that of the present |
| Wheel.FlushPunctualExactly | Source/Core/System/TimerContext.cpp:55-93 | a flush keeps entries on time if and only if no callback reserves for an earlier tick than that of its slot |
| Wheel.LateStays | Source/Core/System/TimerContext.cpp:25-36 | a reservation that breaks that rule ends in a slot the flush has left, nearly a whole turn of the ring ahead |
| Wheel.LateExample | Source/Core/System/TimerContext.cpp:25-77 | one such flush: an entry due at tick 1 whose callback reserves for tick 0 |
| Wheel.FlushMeetsDeadlines | Source/Core/System/TimerContext.cpp:55-77 | a non-empty flush runs every entry due when it began, as often as it was reserved, and every ring entry due before the present or, if the flush is more than 1000 ticks behind, before the tick 1000 further on |
| Wheel.FlushRunsWhatWaited | Source/Core/System/TimerContext.cpp:38-93 | if callbacks reserve for now or later only, a flush runs exactly what waited, in order, and stays on time |
| Wheel.FlushLeavesNothingDue | Source/Core/System/TimerContext.cpp:38-93 | and holds nothing afterwards that was due when it began |
| Wheel.FlushConserves | Source/Core/System/TimerContext.cpp:55-93 | every reservation is in ring or heap or has run, exactly once |
| Wheel.FlushHeap | Source/Core/System/TimerContext.cpp:25-93 | what the heap holds after a flush was there before or was reserved in it 300000 ticks ahead or more |
| Wheel.FlushAsks | Source/Core/System/TimerContext.cpp:67-69 | the reservations made in a flush are those of the callbacks that ran, in order |
| Timers.ReserveItemList.Enqueue | Source/Core/System/TimerContext.cpp:103-112 | appends to the linked list |
| Timers.ReserveItemList.Dequeue | Source/Core/System/TimerContext.cpp:114-125 | takes off the first, or reports an empty list |
| Timers.TimerContext.constructor | Source/Core/System/TimerContext.cpp:10-17 | 300000 empty lists, an empty heap, the base at now; nothing in it is early or late |
| Timers.TimerContext.ReserveAt | Source/Core/System/TimerContext.cpp:25-36 | the entry goes to the slot at its distance, to the first if due, to the heap if 300000 ticks away or more |
| Timers.TimerContext.Reserve | Source/Core/System/TimerContext.cpp:38-49 | the same for a delay from now, of either sign |
| Timers.TimerContext.HotloadFromLongTermQueue | Source/Core/System/TimerContext.cpp:79-93 | exactly the due entries of the heap move to the first slot, earliest first |
| Timers.TimerContext.Flush | Source/Core/System/TimerContext.cpp:55-77 | the nested loops over linked lists, with callbacks that reserve while the fields are old, refine the flush on values; the base ends at the present or 1000 ticks on, and all that was due, and for the ring all due before the new base, has run |
| Timers.TimerContext.Handle | Source/Core/System/TimerContext.cpp:25-93 | one reservation or flush: never early, conserved, punctual if callbacks look forward, and all that was due has run |
| Timers.TimerContext.Run | Source/Core/System/TimerContext.cpp:25-93 | over every run with a clock that does not go back: never early, conserved, each flush takes the base to the present or 1000 ticks on; and if callbacks look forward, each flush of at least one tick has run everything reserved so far that was due when it began or, outside the heap, due before the base it reached, and what is still held is on time |
| CrcTable.TableEntry | Source/Core/Misc/Crc32Hash.h:17-46 | each of the 256 entries is its index shifted eight times through the reflected polynomial 0xEDB88320 |
| Crc32.Hash | Source/Core/Misc/Crc32Hash.h:8-14 | the table loop gives the bit-at-a-time CRC of section 8 of RFC 1952 and section 8.1.1.6.2 of ITU-T V.42 on every string |
| Crc32.TableStep | Source/Core/Misc/Crc32Hash.h:11-12 | one table step takes in the eight bits of a character |
| Crc32.CheckValue | Source/Core/Misc/Crc32Hash.h:8-14 | the digits "123456789" have the CRC 0xCBF43926, the check value of CRC-32, and the empty string has 0 |
| Crc32.PeelBits | Source/Core/Misc/Crc32Hash.h:12-12 | feeding n bits one at a time is xoring them in at once and shifting n times |
| Crc32.FoldInjective | Source/Core/Misc/Crc32Hash.h:8-14 | different register states stay different under a common continuation |
| Crc32.WindowDetected | Source/Core/Misc/Crc32Hash.h:8-14 | from one state, different bits of one length up to 32 lead to different states |
| Crc32.BurstDetected | Source/Core/Misc/Crc32Hash.h:8-14 | two messages that differ, but only inside 32 consecutive bits, have different CRCs |
| Crc32.StringBurstDetected | Source/Core/Misc/Crc32Hash.h:8-14 | two strings of one length that differ only inside four consecutive characters hash differently |
| LruCache.Cache.Put | Source/Core/Container/LruCache.h:11-23 | inserts a key that is not there in front and evicts from the end; index and list agree |
| LruCache.Cache.Update | Source/Core/Container/LruCache.h:25-38 | the key is in front with the new value, whether it was there or not |
| LruCache.Cache.Pop | Source/Core/Container/LruCache.h:40-50 | gives what the key holds and takes the key out |
| LruCache.Cache.Get | Source/Core/Container/LruCache.h:52-62 | gives what the key holds, moves the key to the front and leaves it without a value |
| LruCache.Cache.Trim | Source/Core/Container/LruCache.h:72-79 | at most max_size_ keys stay, the last in the list goes, from list and index |
| LruCache.RunKeepsRecency | Source/Core/Container/LruCache.h:11-79 | after any history the keys are distinct, at most max_size_, in the order of their last insertion, update or get, each with what that left |
| LruCache.EvictsLeastRecentlyUsed | Source/Core/Container/LruCache.h:72-79 | a key dropped by an operation was used before every key that stays, and the cache is full |
| LruCache.PopTakesOut | Source/Core/Container/LruCache.h:40-50 | after any history Pop takes out the entry of its key, if there is one, and no other |
| Registry.CountsAdd | Source/Server/Section/SpawnSystem.cpp:82-86 | counting a new NPC keeps every spawner's count equal to its living NPCs |
| Registry.CountsRemove | Source/Server/Section/SpawnSystem.cpp:128-134 | so does counting one off, and the count is never 0 then |
| Registry.ListsSplit | Source/Server/Section/Section.cpp:295-305 | moving the objects that stay out of the waiting list loses and repeats none |
| Registry.EraseFromOne | Source/Server/Section/Section.cpp:254-260 | erasing from one tick list, and from the other only if that found nothing, erases from both |
| Registry.NpcsAdded | Source/Server/Section/SpawnSystem.cpp:96-121 | a batch of new NPCs keeps index and counts those of the registered objects |
| Registry.GameObject.IsExpired | Source/Server/GameObject/GameObject.h:68-71 | an object with a lifetime expires 1000 milliseconds per second of it after its creation; one without never does |
| Registry.BatchNumbers | Source/Server/Section/Section.cpp:195-206 | a batch adds exactly the numbers its objects carry, and every number that was taken keeps its object |
| Registry.BatchGivesToTheFirst | Source/Server/Section/Section.cpp:195-206 | a number that was free goes to the first object of the batch that carries it |
| Sections.SpawnSystem.SpawnNpcOnSection | Source/Server/Section/SpawnSystem.cpp:77-94 | indexes and counts an NPC whose number is free, and nothing otherwise |
| Sections.SpawnSystem.SpawnNpcsOnSection | Source/Server/Section/SpawnSystem.cpp:96-121 | indexes and counts, in order, those of a batch whose numbers are free, and drops the others |
| Sections.SpawnSystem.DespawnNpcOnSection | Source/Server/Section/SpawnSystem.cpp:123-146 | takes an indexed NPC out and counts it off, not below 0 |
| Sections.SpawnSystem.OnGameObjectAdded | Source/Server/Section/SpawnSystem.cpp:57-65 | each kind of object goes to its own index |
| Sections.SpawnSystem.OnGameObjectRemoved | Source/Server/Section/SpawnSystem.cpp:67-75 | each kind of object leaves its own index |
| Sections.CollisionSystem.OnGameObjectAdded | Source/Server/Section/CollisionSystem.cpp:59-64 | an object with a collider is indexed unless its number is taken |
| Sections.CollisionSystem.OnGameObjectRemoved | Source/Server/Section/CollisionSystem.cpp:66-83 | the number leaves the index |
| Sections.Section.AddGameObject | Source/Server/Section/Section.cpp:230-244 | all six containers agree before and after; added exactly if the number is free; the object waits for its first tick |
| Sections.Section.SpawnObject | Source/Server/Section/Section.cpp:185-193 | the same for objects that may be missing or still without a number |
| Sections.Section.RemoveGameObject | Source/Server/Section/Section.cpp:246-267 | the containers agree afterwards if and only if the number was not registered or registered for this very object |
| Sections.Section.DespawnObject | Source/Server/Section/Section.cpp:223-228 | the same for objects that may be missing or without a number |
| Sections.Section.RegisterMany | Source/Server/Section/Section.cpp:195-206 | an object of a batch that has no number gets the one issued where the batch first names it, the others keep theirs; those whose number is neither registered nor earlier in the batch are registered |
| Sections.Section.AwaitFirstTick | Source/Server/Section/Section.cpp:208-215 | the registered objects wait for their first tick and their colliders are indexed |
| Sections.Section.SpawnMany | Source/Server/Section/Section.cpp:195-221 | the same, and all six containers agree after a batch in which numbers may be missing, taken or repeated |
| Sections.Section.UpdateObjects | Source/Server/Section/Section.cpp:286-305 | the expired objects of both lists are set aside, the others are in one list in order |
| Sections.Section.DespawnCollected | Source/Server/Section/Section.cpp:307-310 | exactly the objects set aside leave all containers |
| Sections.Section.OnTick | Source/Server/Section/Section.cpp:281-310 | exactly the objects expired at this tick are gone; the others tick on in their order; all containers agree |
| Sections.Section.OnDestroyed | Source/Server/Section/Section.cpp:154-164 | everything is cleared but the counts: the containers agree afterwards if and only if no count was left |
| Sections.ImpostorExample | Source/Server/Section/Section.cpp:246-267 | removing an object that carries the number of a registered one leaves the containers in disagreement |
| Sections.DestroyedExample | Source/Server/Section/Section.cpp:154-164 | so does destroying a section while a spawner has a living NPC |

## Left out

- Sockets, asio, ODBC, gRPC, curl, JSON, logging, the Go web application, generated protobuf code and vendored libraries: input, output and third-party text.
- Weak memory orderings: the queues are modelled under sequential consistency.
- Wrap-around of MPMC tickets after 2^64 operations, `size` and `empty` of MPMC, and the extra slot and alignment checks of its constructor.
- The actor scheduling built on the MPSC queue's node counter: the counter drops twice per node, in `TryPop` and by `DecreaseNodeCount`, so "no lost wake-up" is not a theorem of the code. `FlushSend` may be called at any time in the model, with any number of linked nodes.
- Sending.Sender.FlushSend: the queue of nodes is a sequence of which the first `ready` can be popped; that the MPSC list behaves like that is what `Mpsc` proves.
- `MPSCQueue::Emplace`'s returned reference, `SPSCQueue::Dequeue(ElementType&)` and `SPSCQueue::Peek`.
- Framing.Receiver.ReceiveImpl: packets that begin in a read (the whole-packet branch) are taken to have a size whose sum with 16 fits 64 bits. The source checks that in the branch for kept bytes only; in the whole-packet branch it asserts nothing, hands the protocol a segment shorter than its header whose body length lies outside the buffer, and for the size 2^64-16 never advances (`Framing.WrappedLength`). What the protocol reads then is not defined by the source.
- Framing.Receiver.OnReceived: the same restriction on packets that begin in the read.
- Framing.Receiver.StartPacket: the same restriction; this is the branch concerned.
- Framing.Started: the same restriction, for the same branch.
- Framing.Receiver.ContinuePending: the same restriction on the packets behind the one it completes; the header it completes may wrap.
- Framing.Continued: the same restriction on the packets behind the completed one.
- Framing.Receiver.Serve: stated for streams in which no header's size plus 16 exceeds 64 bits, for which cutting a stream is shown not to matter.
- Debug assertions are taken as absent, as in a release build.
- The loop `ProcessBuffer`, its branches `ContinuePending` and `StartPacket`, and `CompleteHeader` and `AppendMissing` are part of `ReceiveImpl` in the source; they are separate methods here to keep proofs small. So are `WriteSome`, `Store`, `Copy` and others in `Output.dfy`, `RunSlot` and `RunCallback` in `Timers.dfy`, `MoveOut` in `LruCache.dfy`, and the two halves of `OnTick` and `SpawnMany`. `Reserve` calls `ReserveAt`, whose lines the source repeats.
- Connection.cpp outside receiving and sending: resolving, connecting, delegates, and completions of an older connection that arrive after `BeginConnection`.
- The buffer pools: a new buffer is a fresh array of 4096 bytes.
- The order of the heap's entries with equal targets is left open; the heap itself is a multiset with a smallest element on top.
- Timer callbacks beyond what they reserve, `PeriodicTimer`, and the destructors of the timer.
- Destruction of values in the LRU cache; a value moved out by `Get` is recorded as gone.
- `pcs_` (keyed through the session's character), `Multicast` and all notifications, collision states and geometry, `Update`, `BeginPlay` and `EndPlay` of objects, sessions and ownership of a section, `IsValidSpawnInfo` and `MakeNpcsFromSpawner`.
- The 32-bit width of spawn counts, and floating-point rounding of an object's age: ages are exact fractions of a second.
