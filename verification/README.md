# Universal Network, verified

A Dafny model of the C networking library `universal-network-c`, with proofs. It covers:

- the UDP reliability layer: the 35-slot ring of sent packets, the wrapping sequence numbers, the `ack` and 32-bit
  `ackBits` summary, loss and byte accounts, the flow controller, the timer that drives them, and two such peers over a
  network that loses, duplicates and reorders;
- request/response transactions over a reference-counted packet pool, with their retries, timers and socket;
- the in-place data structures: the intrusive free list of the pool, the index-linked list in a growable array, the
  queue that recycles its nodes;
- the wire codecs: the bounded bitstream, stream packets, peer lists, and STUN messages.

## How it is arranged

Each component that changes state in place is a class whose methods have the C functions' branches and loops. Beside it
stands a small value model, and every method is proved to take that model exactly one step; theorems about whole runs
are then lemmas about the value model.

| files | what they hold |
|---|---|
| `Basics`, `MachineInts`, `NetAddr`, `AckBits`, `SequenceNumbers` | shared definitions, fixed-width integers, addresses, bit operations, wrapping counters |
| `Receiver` | the receiving half: `ack` and `ackBits` |
| `ReliabilityModel`, `StreamReliability` | the sending half as a window of values, and the ring in an array that refines it |
| `ReliabilityRuns`, `AckAttribution` | whole runs of one record: ring shape, no overrun, conservation, attribution, round-trip estimate |
| `EndToEnd`, `EndToEndLaps`, `LapEnds` | two peers and a network, before and beyond the first wrap of the counter, and the packet at each wrap |
| `StreamFlow`, `StreamDriver`, `DriverTiming` | the flow controller, the timer, send and receive callbacks, and when they send |
| `PoolModel`, `Pool` | the packet pool, as values and in place |
| `Transactions`, `PacketOwnership`, `TransactionLifecycle`, `TransactionSteps`, `IdReuse`, `LateDisable`, `TransactionService` | the transaction state machine, who holds each packet, the life of a transaction, what each step does, what a reused id does, what a disable misses, and the fields in place |
| `Queue`, `List` | the linked structures |
| `Bitstream`, `StreamProtocol`, `TransactionProtocol`, `StunProtocol` | the codecs |
| `WireLayout`, `StunLayout` | where every field lies, by the positional value of bytes and bit by bit |

Time and round-trip times are reals. The serial queues are sequences of closures, and each closure, timer event or
socket event is one atomic step; a run is any legal interleaving of them. The network, the application's callbacks, the
contents of datagrams, the clock and the order of events are parameters.

`dafny verify dfyconfig.toml` checks everything.

## What the code does that its text does not say

- The sender counts modulo 65535 while the receiver and the ack lookup use 65536. `SenderWrapLosesPredecessor` and
  `SlotNamedIffNoWrap` say exactly what that costs, and the last packet of each lap is never acknowledged
  (`LapEndsNeverFlagged`, `LapEndsCountLost`).
- A jump of 32 or more clears the whole field, bit 0 of the arriving packet included (`AckFieldCompleteIffNoJump`).
- The comment in the ack walk speaks of 32 bits; the loop looks at 31.
- Far enough behind, the walk comes round the ring to the newest packets and can acknowledge what nobody received
  (`AliasingRunFails`); `AttributionExactIff` gives the condition under which it is exact.
- Overwriting a packet in the ring does not take its bytes off `sentBytes` (`SendConservesBytesIff`, `UncreditedIff`).
- A response that matches no transaction, and a datagram of length zero, keep a packet for ever
  (`UnmatchedResponseLoses`, `EmptyDatagramLoses`, `LostForever`); counts are exact if and only if neither happens
  (`CountsExactIffNeverLoses`).
- Transaction ids come round after 255; inserting one still in use strands the older transaction for good, and its retry
  goes to the newer one (`InsertStrandsIff`, `IdReuseStrands`, `StrandedForever`).
- A disable misses a transaction whose insertion is still queued, and no other (`DisableMissesIff`); its error callback
  can come after the disable (`ErrorAfterDisable`).
- The verdict on a peer list is the verdict on its last attribute only; earlier refusals are overwritten
  (`VerdictIsLast`, `ListVerdictIff`, `RefusedIdAccepted`).
- `bitstream.h` calls all serialized data big-endian, but byte strings go out reversed on a little-endian build, and the
  `_endian` integers low byte first.
- The STUN loop counts by the lengths it reads, but an address always takes eight bytes and an error code four
  (`ShortAddressReadsOn`); `InStepIff` and `ReadExactlyIff` say when the two agree.

## Model

| member | source | states |
|---|---|---|
| `EndToEnd.AckedWasReceived` | src/stream_reliability.c:86-155 | in every state two peers reach over a network that loses, duplicates and reorders, a packet flagged acked at its sender has been received by the other side, given under 65535 sends and no looked-at bit aliased; nothing is asked of the order of arrivals |
| `EndToEnd.InvariantAlways` | src/stream.c:253-304 | the joint invariant behind it: every message ever put on the network told the truth about what its sender had received |
| `EndToEnd.PromptIsUnaliased` | src/stream_reliability.c:128-142 | a message whose ack lags the counter by at most five sends cannot alias |
| `EndToEnd.AliasingRunFails` | src/stream_reliability.c:141 | a concrete legal run, with one aliased bit, that flags a packet nobody received |
| `EndToEndLaps.AckedWasReceived` | src/stream.c:253-304 | the same with no bound on the sends, packets told apart by their number since the start: given that accepted numbers and acks lie within 32767 and that a looked-at bit from beyond the ring, or from before the wrap without the next bit set, meets a flagged slot |
| `EndToEndLaps.InvariantAlways` | src/stream_reliability.c:86-155 | the invariant behind it, on numbers unwrapped to 65536 a lap |
| `EndToEndLaps.NamedIsSlot` | src/stream_reliability.c:128-142 | inside the present lap a bit names the packet in the slot it lands on, and across the wrap the next bit does |
| `EndToEndLaps.PromptFullLandsRight` | src/stream_reliability.c:128-142 | with nothing lost and an ack at most five behind every bit lands where it may, at a wrap too |
| `LapEnds.LapEndsNeverFlagged` | src/stream_reliability.c:61 | in every such run no acknowledgement flags the packet sent under the counter's last value, received or not: the number whose bit lands on it is one no packet has |
| `LapEnds.LapEndNamedInVain` | src/stream_reliability.c:128-152 | an acknowledgement that names the last packet of the lap before is never attributed exactly |
| `LapEnds.LapEndsCountLost` | src/stream_reliability.c:171-188 | so each such packet, once out of the sent window, was counted lost or overwritten |
| `Receiver.ProcessSequenceSound` | src/stream_reliability.c:86-117 | whatever 32-bit numbers arrive, in any order, a set bit names modulo 65536 a number that arrived |
| `Receiver.ProcessSequenceRefines` | src/stream_reliability.c:86-117 | on arrivals within 32767 of the newest, the wrapped arithmetic and shifts implement a set of kept numbers across every wrap |
| `Receiver.AckFieldNeverWrong` | src/stream_reliability.c:86-117 | after any such run ack is the largest number received and each set bit names a number received |
| `Receiver.AckFieldCompleteIffNoJump` | src/stream_reliability.c:99-102 | the field is complete at every moment of a run if and only if no arrival ran ahead by 32 or more, which clears even bit 0 |
| `Receiver.SenderWrapLosesPredecessor` | src/stream_reliability.c:61 | senders count modulo 65535 and receivers modulo 65536, so the bit of the predecessor survives if and only if the sender did not wrap in between |
| `SequenceNumbers.MoreRecentIsLater` | src/stream_reliability.h:89-92 | inside a window of 32767 the comparison is the order of the unwrapped numbers and the gap their distance |
| `SequenceNumbers.WrappedGapResidue` | src/stream_reliability.c:92 | the unsigned gap is congruent to the difference for all 32-bit numbers |
| `SequenceNumbers.Increase` | src/stream_reliability.h:79-82 | the counter steps by one and restarts at the modulus |
| `AckBits.SetBit` | src/stream_reliability.c:97 | setting a bit sets that bit and no other |
| `AckBits.ShiftLeftBit` | src/stream_reliability.c:96 | a left shift on 32 bits moves every bit up, drops those past bit 31 and brings in zeros |
| `AckBits.ShiftRightBit` | src/stream_reliability.c:139-152 | walking the field by shifting right looks at bit n after n steps |
| `StreamReliability.StreamReliability.constructor` | src/stream_reliability.c:11-39 | a cleared record is the empty window |
| `StreamReliability.StreamReliability.PacketSent` | src/stream_reliability.c:41-74 | the ring update, with both overwrite branches, is one step of the window of the last 35 packets |
| `StreamReliability.StreamReliability.PacketReceived` | src/stream_reliability.c:76-84 | receiver half, ack half and counter together are one step of the model |
| `StreamReliability.StreamReliability.ProcessSequence` | src/stream_reliability.c:86-117 | changes the receiver half alone |
| `StreamReliability.StreamReliability.ProcessAck` | src/stream_reliability.c:119-155 | the walk backwards round the ring is the model walk over its slots |
| `StreamReliability.StreamReliability.Update` | src/stream_reliability.c:157-219 | the aging loop, the two expiry loops and the tally loop are the model update; all terminate by ring distance |
| `ReliabilityRuns.RingShapeAlways` | src/stream_reliability.c:41-74 | under any interleaving: the sent window is a suffix of the acked window, ages never rise towards the newest packet, and the slot k behind the end holds the k-th most recent send |
| `ReliabilityRuns.NoOverrun` | src/stream_reliability.c:157-188 | with at most one send between updates of at least 1/15 s the windows never exceed 16 and 30 slots, despite the frozen clock of an empty window |
| `ReliabilityRuns.Conservation` | src/stream_reliability.c:58-70 | in every run each packet is in flight, left acked, counted lost once after more than 1.0001 s, or overwritten, and sentBytes is the window plus the overwritten bytes |
| `ReliabilityRuns.DisciplinedConservation` | src/stream_reliability.c:171-180 | under the same discipline both laws hold with nothing overwritten |
| `ReliabilityRuns.SendConservesBytesIff` | src/stream_reliability.c:69-70 | a send keeps sentBytes equal to the window if and only if the window has room or the overwritten packet was empty |
| `ReliabilityRuns.UncreditedIff` | src/stream_reliability.c:58-70 | after any run of sends without an update the byte count is wrong if and only if one before the last 34 was not empty |
| `ReliabilityRuns.ClockEffect` | src/stream_reliability.c:157-188 | an update ages every slot, drops only packets past the two age limits, and touches nothing else |
| `ReliabilityRuns.ReceiveFrame` | src/stream_reliability.c:76-84 | a received packet raises flags and changes no slot otherwise |
| `ReliabilityRuns.SendFrame` | src/stream_reliability.c:41-74 | a send shifts the slots by one, newest last, and changes no report |
| `ReliabilityRuns.TotalsCount` | src/stream_reliability.c:76-84 | in every run the two totals count the sends and the packets whose ack was not beyond the sends so far |
| `ReliabilityRuns.IdleFreezes` | src/stream_reliability.c:161-162 | while the sent window is empty and nothing is sent, ages, flags, windows, rtt and reports stand still, whatever arrives |
| `AckAttribution.AttributionExactIff` | src/stream_reliability.c:128-152 | in every state, just after a wrap included, an acknowledgement flags the packets its field names modulo 65536 and no others if and only if each looked-at set bit lands on a flagged slot, on the packet it names, or on one the next bit names, and none from before the wrap names an unflagged packet without the bit below it |
| `AckAttribution.PromptAckExact` | src/stream_reliability.c:143-149 | with an ack one to five behind only bits from before the counter was last 0 can go wrong, and attribution is exact if and only if they do not; totalAckedPackets rises by the number flagged |
| `AckAttribution.WalkFlags` | src/stream_reliability.c:139-152 | the walk raises exactly the flags its set bits land on, for every count and field |
| `AckAttribution.WalkCounts` | src/stream_reliability.c:143-149 | each newly flagged packet is counted once |
| `AckAttribution.SlotNamedIffNoWrap` | src/stream_reliability.c:133 | near a wrap of the counter the slot looked up holds the number named if and only if the counter has not wrapped since |
| `AckAttribution.AckBeforeWrapMisattributed` | src/stream_reliability.c:128-137 | an ack from before the wrap flags the packet before the one it names |
| `AckAttribution.GuardShieldsLookup` | src/stream.c:291-292 | the guard of the stream layer lets only acks below the counter flag anything |
| `AckAttribution.RttIsSmoothedSamples` | src/stream_reliability.c:147-149 | in every run rtt is the smoothed sequence of sampled ages, one per packet counted acked |
| `AckAttribution.RttBounded` | src/stream_reliability.c:147-149 | so rtt stays between zero and the largest age ever sampled |
| `AckAttribution.UpdateExact` | src/stream_reliability.c:171-211 | after an update that is not skipped the windows hold exactly the packets young enough, ackedPackets is the number of slots of the acked window acked and at least a second old, and ackedBytes the sum of their sizes |
| `StreamDriver.Stream.Update` | src/stream.c:229-251 | one clock step of the record, then of the flow with the new rtt; timeout and due flags by their accumulators |
| `StreamDriver.Stream.Send` | src/stream.c:253-287 | records a send only when waiting or connected and a packet was to be had |
| `StreamDriver.Stream.Receive` | src/stream.c:289-304 | an ack beyond the counter makes the packet be ignored |
| `StreamDriver.StreamConfiguration.TimerCallback` | src/stream.c:332-368 | every stream is updated, its flow and its time since it was last due ticking once, a timeout is queued for exactly those silent too long, and then, if and only if all are due, every stream that can send and gets a packet is sent to; each history stays disciplined |
| `StreamDriver.StreamConfiguration.SocketReceive` | src/stream.c:389-425 | the first stream with the address gets the packet, forwards it unless its ack is beyond the counter, and no other stream changes; with none, an addition is queued and the packet dropped |
| `StreamDriver.StreamConfiguration.RunAddition` | src/stream.c:125-149 | the queued addition adds a waiting stream at its address exactly when there is still none there, and else changes nothing |
| `StreamDriver.StreamConfiguration.RunTimeout` | src/stream.c:306-314 | the queued timeout marks its stream timed out and changes nothing else of it |
| `StreamDriver.StreamConfiguration.Add` | src/stream.c:117-150 | a waiting stream at the address is appended exactly when no stream has the address |
| `StreamDriver.StreamConfiguration.NeverOverruns` | src/stream.c:332-368 | so no ring of a running driver is overrun and its byte count is exact |
| `StreamDriver.TickIsDisciplined` | src/stream.c:338-367 | an update always comes between two sends of the driver |
| `DriverTiming.DueIff` | src/stream.c:241-248 | whatever the round-trip times and changes of mode, a tick makes a stream due if and only if it leaves the good mode on or is the third since the last |
| `DriverTiming.EveryThirdTick` | src/stream.c:241-248 | while the bad mode lasts a stream is due at every third tick and no other |
| `DriverTiming.FlowOfTicks` | src/stream.c:229-232 | each tick adjusts the flow once, by 1/15 s |
| `DriverTiming.FirstFourSeconds` | src/stream.c:229-251 | over a good connection a new stream is in the bad mode for 60 ticks and due at every tick from the 61st |
| `DriverTiming.OverdueAfter` | src/stream.c:234-239 | a stream that receives nothing is overdue from its 76th tick on |
| `StreamFlow.StreamFlow.constructor` | src/stream_flow.c:11-18 | clears to the bad mode with penalty 4 |
| `StreamFlow.StreamFlow.Update` | src/stream_flow.c:20-73 | the two blocks in sequence are one step of a two-state machine; penalty stays in [1, 60] and the interval matches the mode |
| `StreamFlow.GoodTimeIsConsecutive` | src/stream_flow.c:57-62 | credit in the bad mode is exactly the time of the whole unbroken good stretch, back to the start or the last bad round trip |
| `StreamFlow.ReturnNeedsPenalty` | src/stream_flow.c:64-71 | each return to the good mode needs more than penalty seconds of consecutive good round trips |
| `StreamFlow.ReturnsOncePaid` | src/stream_flow.c:57-71 | and comes back with the first input that takes an unbroken good stretch past the penalty, and not before |
| `StreamFlow.BadRoundTripForfeits` | src/stream_flow.c:24-39 | one bad round trip, in either mode, leaves the bad mode and no credit |
| `StreamFlow.GoodPeriodIsItsTime` | src/stream_flow.c:40-43 | in the good mode the credit is the time since the mode came back |
| `StreamFlow.PenaltyRecovers` | src/stream_flow.c:45-52 | in an unbroken good stretch of the good mode the penalty is max(1, p / 2^k), k counting the times more than ten seconds have passed |
| `StreamFlow.ReturnsArePaid` | src/stream_flow.c:64-71 | returns in elapsed time T number fewer than T, or are zero |
| `StreamFlow.ExponentialBackoff` | src/stream_flow.c:24-39 | after k drops out of good periods under 10 s the penalty is min(60, p * 2^k) |
| `StreamFlow.DropRaisesPenaltyIff` | src/stream_flow.c:29-35 | a drop raises the penalty if and only if the period was short and the cap not reached |
| `Pool.Pool.constructor` | src/pool.c:62-89 | a new pool is woven with every object free, in order |
| `Pool.Pool.Weave` | src/pool.c:35-60 | the loop links the block into one acyclic chain |
| `Pool.Pool.Alloc` | src/pool.c:105-118 | hands out the front of the free list, or null |
| `Pool.Pool.Retain` | src/pool.c:120-133 | one more reference; pointers the pool does not own are ignored |
| `Pool.Pool.FreeNode` | src/pool.c:135-142 | the node goes to the front of the free list |
| `Pool.Pool.Free` | src/pool.c:144-157 | frees whatever the count was |
| `Pool.Pool.Release` | src/pool.c:159-174 | frees on the last reference, else counts down |
| `Pool.Pool.FreeCount` | src/pool.c:176-189 | the walk of the free list terminates, and its length with allocCount is the capacity |
| `PoolModel.FreeAndLive` | src/pool.c:105-174 | the free list and the live objects make up the capacity |
| `PoolModel.AllocIsFresh` | src/pool.c:105-118 | an object handed out was live for nobody; none is handed out only when all are live |
| `PoolModel.ReleaseFreesLast` | src/pool.c:159-174 | a release frees exactly on the last reference |
| `PacketOwnership.CountIsHolders` | src/transaction.c:94-337 | over all interleavings a packet's retain count is the number of its holders plus references lost for good, and no held packet is on the free list |
| `PacketOwnership.CountsExactIffNeverLoses` | src/transaction.c:230-264 | over all runs counts and holders agree if and only if no response failed to match a transaction and no empty datagram got a packet |
| `PacketOwnership.UnmatchedResponseLoses` | src/transaction.c:236-262 | a legal run in which a response to a request never made loses its packet |
| `PacketOwnership.EmptyDatagramLoses` | src/net_socket.c:308-337 | a legal run in which an empty datagram loses its packet |
| `PacketOwnership.LostForever` | src/transaction.c:236-262 | a packet with a lost reference is never handed out again |
| `PacketOwnership.OwnedAlways` | src/transaction.c:94-337 | the resource invariant of every reachable state: references balance and the table names live transactions |
| `PacketOwnership.SocketInOrder` | src/net_socket.c:215-218 | packets leave in the order handed over, and the write source runs exactly while packets are pending |
| `TransactionLifecycle.AttemptsAndErrors` | src/transaction.c:307-337 | in every run a transaction is sent at most three times and gets at most one error callback |
| `TransactionLifecycle.OutcomeIsFinal` | src/transaction.c:296-305 | a freed transaction never changes again: one outcome, no error after success or disable |
| `TransactionSteps.EachStepExplained` | src/transaction.c:307-337 | in every run a live transaction is sent again exactly by its timeout with an attempt left, its packet going to the socket once more; ends exactly by a response under its id, its last timeout or a disable, each with its own state and callback; and is else not touched but by its timer |
| `TransactionSteps.OutcomeHasCause` | src/transaction.c:230-264 | whatever outcome a transaction has, a step of the run gave it for that cause |
| `TransactionSteps.SendsAreHanded` | src/transaction.c:307-337 | in every run the packets handed to the socket number the sends of all transactions and the requests answered |
| `TransactionSteps.FreshPacketsSent` | src/transaction.c:94-147 | a request and an answer each go out in a packet that was free |
| `TransactionSteps.ClosuresInOrder` | src/transaction.c:230-289 | closures run in the order posted and none is lost; a valid packet posts one exactly while enabled |
| `TransactionSteps.CallbacksAccounted` | src/net_socket.c:294-339 | each good datagram that finds a packet is called back once, and no other is |
| `TransactionSteps.EnabledIsLastSwitch` | src/transaction.c:66-89 | it is enabled if and only if the last enable or disable to run was an enable, or none has |
| `TransactionLifecycle.DisableEmptiesTable` | src/transaction.c:77-89 | a disable frees every transaction in the table without an error and empties the table; one whose insertion is still queued it misses |
| `TransactionLifecycle.DisableIsFinal` | src/transaction.c:77-89 | in no later state of the run is a transaction ended by a disable live, answered or reported as an error |
| `LateDisable.DisableMissesIff` | src/transaction.c:77-89 | in every run a disable misses a live transaction if and only if the table does not hold it, which with ids not reused means that its insertion is still queued |
| `LateDisable.ErrorAfterDisable` | src/transaction.c:307-337 | a legal run in which a transaction is put in the table behind the disable and fails with an error callback |
| `TransactionLifecycle.TimedExactlyOnce` | src/transaction.c:307-331 | while ids are fresh a live transaction waits on exactly one armed timer or queued timeout, with deadlines 1000, 2000 and 4000 ms |
| `TransactionLifecycle.StaleTimeout` | src/transaction.c:309-314 | the timeout of a freed transaction finds nothing under its id |
| `TransactionLifecycle.InsertStrandsIff` | src/transaction.c:104 | an insertion leaves every live transaction reachable if and only if its id is not in the table |
| `IdReuse.IdReuseStrands` | src/transaction.c:104 | a legal run of 256 requests in which the first transaction ends up live with no timer and no queued timeout, its retry having gone to the transaction that took its id |
| `IdReuse.StrandedForever` | src/transaction.c:307-316 | a stranded transaction never changes again and keeps its packet |
| `TransactionService.TransactionService.constructor` | src/net_socket.c:167-173 | starts with a full pool and nothing held |
| `TransactionService.TransactionService.Request` | src/transaction.c:149-188 | allocates, numbers, posts the insertion and sends, or does nothing when the pool is empty |
| `TransactionService.TransactionService.Retire` | src/transaction.c:296-305 | out of the table, timer destroyed, packet released while it is live |
| `TransactionService.TransactionService.RemoveAll` | src/transaction.c:54-62 | the loop over the whole key set leaves no key in the table and retires every transaction that was in it |
| `TransactionService.TransactionService.OnTimeout` | src/transaction.c:307-337 | retries with a longer deadline or fails after the last attempt |
| `TransactionService.TransactionService.OnResponse` | src/transaction.c:230-264 | completes the transaction found, and releases the packet only then |
| `TransactionService.TransactionService.OnRequest` | src/transaction.c:266-289 | answers in a fresh packet, which it releases after sending, then releases the request |
| `TransactionService.TransactionService.Execute` | src/transaction.c:67-89 | each kind of closure takes its step of the machine |
| `TransactionService.TransactionService.RunClosure` | src/transaction.c:123-337 | the closure at the front of the queue runs, every packet it touches being live |
| `TransactionService.TransactionService.FireTimer` | src/transaction.c:173-175 | the timer posts a closure that knows only the id |
| `TransactionService.TransactionService.ReceiveCallback` | src/transaction.c:193-228 | the callback's reference is traded for the closure's, or given up |
| `TransactionService.TransactionService.SocketSend` | src/net_socket.c:207-220 | retains the packet until it is written |
| `TransactionService.TransactionService.Read` | src/net_socket.c:294-339 | one datagram into one packet: passed on, freed, or kept for nobody when empty |
| `TransactionService.TransactionService.RunPush` | src/net_socket.c:215-218 | the packet joins the pending queue and the write source runs |
| `TransactionService.TransactionService.Write` | src/net_socket.c:342-359 | the drain loop writes and releases until nothing is pending, then suspends |
| `TransactionService.TransactionService.ResumeWrite` | src/net_socket.c:400-407 | the write source runs afterwards |
| `TransactionService.TransactionService.SuspendWrite` | src/net_socket.c:391-398 | the write source is stopped afterwards |
| `Queue.Queue.Push` | src/queue.c:66-92 | appends; no node is allocated while one is kept, so nodes number the greatest length the queue has had |
| `Queue.Queue.Pop` | src/queue.c:94-118 | removes the first item, or returns nothing, and keeps the node |
| `Queue.Queue.IsEmpty` | src/queue.c:61-64 | true exactly when nothing is queued |
| `Queue.Queue.EnqueuedCount` | src/queue.c:120-133 | counts the queue |
| `Queue.Queue.ReservedCount` | src/queue.c:135-148 | counts what is missing to the greatest length |
| `List.List.constructor` | src/list.c:37-52 | an empty list with the spares asked for |
| `List.List.Reserve` | src/list.c:54-76 | moves to a larger block, keeps the list, and weaves exactly the new nodes into the spare chain |
| `List.List.IsEmpty` | src/list.c:84-87 | true exactly when the list holds nothing |
| `List.List.Add` | src/list.c:89-119 | appends, growing by ten nodes exactly when no spare is left |
| `List.List.Remove` | src/list.c:121-153 | deletes the first occurrence of a present object |
| `List.List.FindNodeIndex` | src/list.c:155-169 | the node of the first occurrence, null if and only if absent |
| `List.List.Find` | src/list.c:171-185 | the first object accepted, none if and only if all are refused |
| `List.List.Counts` | src/list.c:200-232 | the two walks count the two chains |
| `List.ShapeAppend` | src/list.c:98-118 | appending moves one node between two disjoint chains that partition the indices, previous inverting next |
| `List.ShapeBypass` | src/list.c:126-148 | linking the neighbours takes out exactly one position |
| `List.ShapeFreed` | src/list.c:150-152 | the removed node goes to the front of the spares |
| `List.ShapeGrown` | src/list.c:57-71 | a grown block holds both chains as before and every new index once |
| `List.AddThenRemove` | src/list.c:89-153 | removing an object that was absent before it was added restores the list |
| `Bitstream.PackedWholeIffFits` | src/bitstream.c:65-95 | a sequence of bounded writes packs everything if and only if it all fits |
| `Bitstream.Integers16` | src/bitstream.c:110-148 | 16-bit integers are read back as written, in either order |
| `Bitstream.Integers32` | src/bitstream.c:150-200 | 32-bit integers are read back as written, in either order |
| `Bitstream.Integers64` | src/bitstream.c:202-249 | 64-bit integers are read back as written |
| `Bitstream.ReversedTwice` | src/bitstream.c:71-72 | byte strings written reversed are read back in order |
| `WireLayout.Written` | src/bitstream.c:110-226 | integers of every width are written so that the positional value of the bytes is the integer, most or least significant byte first |
| `WireLayout.Read64` | src/bitstream.c:228-249 | and are read as that value; `Read16` and `Read32` say so of the other widths |
| `Bitstream.Bitstream.WriteBytes` | src/bitstream.c:65-79 | all the bytes, reversed, or none |
| `Bitstream.Bitstream.ReadBytes` | src/bitstream.c:81-95 | all the bytes or none |
| `Bitstream.Bitstream.WriteUint8` | src/bitstream.c:97-103 | one byte or nothing |
| `Bitstream.Bitstream.ReadUint8` | src/bitstream.c:105-108 | the next byte, unchecked |
| `Bitstream.Bitstream.WriteUint16` | src/bitstream.c:110-122 | high byte first, or nothing |
| `Bitstream.Bitstream.ReadUint16` | src/bitstream.c:124-133 | the next two bytes, high first |
| `Bitstream.Bitstream.WriteUint32` | src/bitstream.c:150-166 | high byte first, or nothing |
| `Bitstream.Bitstream.ReadUint32` | src/bitstream.c:168-181 | the next four bytes, high first |
| `Bitstream.Bitstream.WriteUint64` | src/bitstream.c:202-226 | high byte first, or nothing |
| `Bitstream.Bitstream.ReadUint64` | src/bitstream.c:228-249 | the next eight bytes, high first |
| `Bitstream.Bitstream.WriteUint16Endian` | src/bitstream.c:135-142 | low byte first, or nothing |
| `Bitstream.Bitstream.ReadUint16Endian` | src/bitstream.c:144-148 | the next two bytes, low first |
| `Bitstream.Bitstream.WriteUint32Endian` | src/bitstream.c:183-192 | low byte first, or nothing |
| `Bitstream.Bitstream.ReadUint32Endian` | src/bitstream.c:194-200 | the next four bytes, low first |
| `Bitstream.Bitstream.WriteStr` | src/bitstream.c:279-290 | length and string in one piece, or nothing |
| `Bitstream.Bitstream.ReadStr` | src/bitstream.c:292-305 | the string, or what the destination is left with when it does not fit or does not remain |
| `StreamProtocol.PacketRoundTrip` | src/stream_protocol.c:14-75 | a packet packed into 256 bytes and read back restores sequence, ack, bits, tag, length and every byte |
| `WireLayout.StreamPacketLayout` | src/stream_protocol.c:14-62 | every byte of a packet: three fixed bytes, the positional values of the four integers and the length, the body reversed |
| `WireLayout.StreamHeaderRead` | src/protocol.c:18-35 | a header is accepted if and only if its first three bytes are a2 01 05 |
| `WireLayout.StreamDataRead` | src/stream_protocol.c:64-75 | tag, length and body by position; a body that does not remain is not read |
| `StreamProtocol.PacketFits` | src/stream_protocol.c:14-62 | header and data of legal size always fit, with nothing dropped |
| `StreamProtocol.HeaderRoundTrip` | src/stream_protocol.c:14-37 | the header is restored whatever follows it |
| `StreamProtocol.DataRoundTrip` | src/stream_protocol.c:57-75 | the data object is restored whatever follows it |
| `StreamProtocol.Collect` | src/stream_protocol.c:42-55 | after any sequence of copies an object holds the concatenation of the chunks that found room |
| `Bitstream.AppendAllAccepted` | src/bitstream.c:65-79 | a sequence of bounded writes leaves the concatenation of the chunks that found room |
| `StreamProtocol.StreamObject.CopyData` | src/stream_protocol.c:48-55 | a chunk is appended whole or dropped, so length never passes 231 |
| `StreamProtocol.PackHeader` | src/protocol.c:11-16 | the six pieces of the header in order |
| `StreamProtocol.UnpackHeader` | src/protocol.c:18-35 | stops at the first byte that is not the stream protocol's, else decodes the header |
| `StreamProtocol.PackData` | src/stream_protocol.c:57-62 | the three pieces of the object in order |
| `StreamProtocol.UnpackData` | src/stream_protocol.c:64-75 | on any bytes the body read never outgrows the object |
| `TransactionProtocol.ListRoundTrip` | src/transaction_protocol.c:353-377 | from the bytes of any list of at most 10 peers with ids of at most 31 bytes, and whatever the receiving list held, the count, ids and addresses come back and reading stops where the list ends |
| `TransactionProtocol.ListCarriesAll` | src/transaction_protocol.c:353-377 | where the buffer has room for the whole list, what is packed into it is read back as that list |
| `TransactionProtocol.PeersRoundTrip` | src/transaction_protocol.c:366-377 | the induction over peers behind it |
| `TransactionProtocol.PeerListPackedIffFits` | src/transaction_protocol.c:353-362 | a list is packed whole if and only if 4 bytes and 19 more than its id for each peer fit |
| `TransactionProtocol.PackPeerList` | src/transaction_protocol.c:353-362 | writes the pieces in order, dropping what does not fit piece by piece |
| `TransactionProtocol.UnpackPeerList` | src/transaction_protocol.c:364-377 | on any bytes that last and any count the list can hold: each attribute's verdict overwrites the one before, and refused values leave the old ones |
| `TransactionProtocol.VerdictIsLast` | src/transaction_protocol.c:364-377 | on any bytes a list with peers is valid if and only if what is left when only its last address is unread starts as an address must |
| `TransactionProtocol.ListVerdictIff` | src/transaction_protocol.c:364-377 | the verdict on any whole message: the count's with no peers, else the last address's |
| `TransactionProtocol.RefusedIdAccepted` | src/transaction_protocol.c:147-154 | bytes of a list whose one id is refused and whose verdict is valid |
| `TransactionProtocol.StringRoundTrip` | src/transaction_protocol.c:140-162 | a string attribute is restored over any old value |
| `TransactionProtocol.AddressRoundTrip` | src/transaction_protocol.c:164-194 | an address attribute is restored over any old value |
| `TransactionProtocol.CountRoundTrip` | src/transaction_protocol.c:225-249 | a count attribute is restored over any old value |
| `WireLayout.StringLayout` | src/transaction_protocol.c:140-145 | every byte of a string attribute |
| `WireLayout.NumbersLayout` | src/transaction_protocol.c:163-230 | every byte of an address and a count attribute |
| `WireLayout.AttributeRead` | src/transaction_protocol.c:147-249 | from any bytes: which first bytes refuse an attribute, how many are taken, what value results and what a refusal leaves |
| `TransactionProtocol.UnpackString` | src/transaction_protocol.c:147-162 | on any bytes that last, verdict, value and what is left to read |
| `TransactionProtocol.UnpackAddress` | src/transaction_protocol.c:172-194 | on any bytes that last, verdict, value and what is left to read |
| `TransactionProtocol.UnpackCount` | src/transaction_protocol.c:232-249 | on any bytes that last, verdict, value and what is left to read |
| `TransactionProtocol.PeerList.Add` | src/transaction_protocol.c:347-351 | appends a peer |
| `StunProtocol.TypeFieldRoundTrip` | src/stun_protocol.c:29-33 | every 12-bit method and 2-bit class come back from the interleaved field of section 6 of RFC 5389 |
| `StunProtocol.TypeFieldOnto` | src/stun_protocol.c:48-63 | every field with zero top bits is the field of its own method and class |
| `StunLayout.TypeFieldBits` | src/stun_protocol.c:29-33 | which bit of the field is which bit of method and class |
| `StunLayout.HeaderRead` | src/stun_protocol.c:66-75 | a header is refused if and only if bytes 4 to 7 are not 21 12 a4 42; field, length and id by position |
| `StunProtocol.HeaderCarriesAll` | src/stun_protocol.c:25-78 | for every method, class, length and id, what is packed into 20 bytes or more is read back as that method, class, length and id |
| `StunProtocol.HeaderRoundTrip` | src/stun_protocol.c:35-75 | the raw field, length and 12-byte id come back, whatever follows |
| `StunProtocol.HeaderPackedIffFits` | src/stun_protocol.c:35-38 | the header is packed whole if and only if 20 bytes remain |
| `StunProtocol.PackHeader` | src/stun_protocol.c:25-39 | the four pieces of the header in order |
| `StunProtocol.UnpackHeader` | src/stun_protocol.c:41-78 | refuses exactly a wrong cookie |
| `StunProtocol.BodyRoundTrip` | src/stun_protocol.c:150-224 | from any well-formed unpadded attribute list the loop takes each attribute in turn and consumes exactly length bytes |
| `StunProtocol.LastOfEachKind` | src/stun_protocol.c:170-204 | the last attribute of each kind is the one kept, and ALTERNATE-SERVER and OTHER-ADDRESS share a field |
| `StunProtocol.ReadExactlyIff` | src/stun_protocol.c:159-221 | on any bytes the body loop reads exactly length bytes if and only if its values take that many; where the declared sizes fill the body, if and only if taken and declared sizes sum alike; where each attribute declares what it takes, if and only if they fill the body |
| `StunProtocol.InStepIff` | src/stun_protocol.c:159-221 | at every turn of the loop as many bytes have been read as counted off if and only if each address met declares eight bytes, each error code four, and every other value no more than remain |
| `StunProtocol.ShortAddressReadsOn` | src/stun_protocol.c:172-178 | bytes of a body of eight of which twelve are read |
| `StunProtocol.XorUndone` | src/stun_protocol.c:113-132 | an address masked by the same rule comes back unmasked; `XorMappedBits` says what the rule is |
| `StunProtocol.XorTwice` | src/stun_protocol.c:126-127 | exclusive or with the same word twice is the identity, for all numbers |
| `StunLayout.XorMappedBits` | src/stun_protocol.c:113-132 | bit i of the port kept differs from bit i of the port on the wire if and only if bit i of 2112 is set, and so for the host and 2112A442 |
| `StunLayout.AttributeEffect` | src/stun_protocol.c:170-218 | an eight-byte attribute of type 0001, 8023, 802B or 802C sets its one field to the address on the wire, and one of any other type but ERROR-CODE and XOR-MAPPED-ADDRESS changes nothing |
| `StunLayout.ErrorFlagIff` | src/stun_protocol.c:205-211 | on any bytes the error flag is raised if and only if the loop met an ERROR-CODE |
| `StunLayout.ForeignFamilyRejects` | src/stun_protocol.c:100-101 | an address of a family other than 1 rejects the body, whatever came before |
| `StunLayout.KnownBody` | test/functional/test_stun.c:85 | the 68-byte body of the library's own test yields the mapped address the test expects and nothing else |
| `StunLayout.KnownHeader` | test/functional/test_stun.c:55 | the 20-byte header of the same test, packed and read |
| `StunProtocol.ResponseRoundTrip` | src/stun_protocol.c:239-265 | a whole response yields its id and the last address of each kind |
| `StunProtocol.UnpackBody` | src/stun_protocol.c:150-224 | on any bytes that last: the loop terminates, an address that is not IPv4 rejects the body, an address takes eight bytes whatever its length says |
| `StunProtocol.UnpackAddress` | src/stun_protocol.c:95-111 | only the IPv4 family is accepted |
| `StunProtocol.UnpackBindingResponse` | src/stun_protocol.c:239-265 | invalid header, unexpected method or class, empty body and rejected body are told apart |

## Left out

- Sockets, name resolution, interface enumeration, random ids, logging and error codes: calls into the system.
- libdispatch and the inside of `timeout.c`: a queue is a sequence of atomic steps, a timer an event that may fire once. Data races between threads are not modelled.
- Floating-point rounding: times, round-trip times, penalties and intervals are reals, so 1/15 is exact.
- Overflow of the 32-bit totals and of `sentBytes`: they are unbounded. Sequence numbers, acks, the ack field and all wire integers have their width.
- The per-second and bandwidth figures of `streamReliabilityUpdate`: each is computed from the counts proved here and read by nothing but the log.
- `streamReliabilityClear` on a record already used: it leaves the slots as they were; a stream is cleared once, when it is created from zeroed memory.
- EndToEnd.AckedWasReceived: for fewer than 65535 sends a side, so that wire numbers are unique and arrivals may come in any order; `EndToEndLaps.AckedWasReceived` has no bound on the sends and asks instead that arrivals be near.
- EndToEndLaps.AckedWasReceived: asks that accepted numbers and acks lie within 32767; further off the wire number is ambiguous, and nothing in a packet tells the laps apart.
- StreamReliability.StreamReliability.ProcessAck: asks for an ack at most 65536 beyond the counter; the program's own assert on the ring index (`src/stream_reliability.c:139`) stops it otherwise, and `streamReceive` never passes one.
- StreamReliability.StreamReliability.PacketReceived: asks the same of its ack.
- TransactionLifecycle.TimedExactlyOnce: while every live or queued transaction is among the last 254, because ids come round after 255; `InsertStrandsIff` says what an insertion does otherwise.
- PacketOwnership.CountIsHolders: over runs in which a request closure runs only when a packet is free; with an empty pool `transactionResponse` writes through a null pointer.
- TransactionService.TransactionService.OnRequest: asks for a free packet, for the same reason, and so do `Execute` and `RunClosure` where a request is at the head.
- Transactions are records in a sequence and the hash table is a map from ids to them: the heap objects of `calloc` and `free`, and the array inside `hashtable.c`, are not in memory form, so aliasing between them is not captured.
- The socket's pending queue inside `TransactionService` is a sequence; `Queue` proves the linked form separately.
- The stream list inside `StreamDriver` is a sequence; `List` proves the linked form separately. Removing, suspending and resuming streams, and the teardown of every component.
- Pool.Pool.Retain: asks that an object of the pool be live, and so do `Release`, `Free` and `FreeNode`: on a free object the program would corrupt its list. `TransactionService` is proved never to do so.
- List.List.Remove: asks that the object be in the list; otherwise the program relinks through index 0.
- List.List.Reserve: asks that no spare be left, as `list_add` and `list_create` do; otherwise the program drops the spares it had.
- TransactionProtocol.PeerList.Add: asks that the list have room; an eleventh peer is written past its end.
- TransactionProtocol.UnpackPeerList: asks that the count read be at most ten, for the same reason.
- Allocation failure of the C library.
- Reads past the bound: the C integer reads are unchecked, so their callers must know that enough bytes remain; for stream headers, peer lists and STUN bodies the precondition is that decoding the given bytes does not run past the end.
- NUL characters inside peer ids: ids are byte strings of known length, as `strlen` gives them to the writer.
- `StreamObject` lengths near the 32-bit limit, where the sum in `streamObjectCopyData` would wrap.
- Builds for big-endian machines, and `bitstream_*_float32`.
- The other transaction objects (user, resource, online, offline, connect, disconnect): they are made of the attributes proved here.
- STUN requests and CHANGE-REQUEST, the value of ERROR-CODE, IPv6 addresses, padded attributes, and the test sequence of `stun.c` and `stun_tests.c`.
- Liveness of the send that waits for all streams to be due: streams out of phase may never coincide.
