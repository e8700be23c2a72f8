# Proofs about udpfwd

This Dafny 4.11 project models the parts of udpfwd whose correctness is hardest to see from the code and states what they guarantee:

- **the lock-free buffer pool** (`src/veth/BufferPool.cc`), as a transition system over any number of threads, one step for each atomic access, and also as the array-based object that a single thread uses;
- **Ethernet frames** (`src/veth/EtherFrame.h`), the owners of pool buffers;
- **the WireGuard relay** (`src/wgcf/`), with its two maps, its sockets, its expiry sweep and its counters;
- **the static forwarder** (`src/udpfwd/`);
- **SplitString** (`src/support/text/TextUtils.cc`).

`dafny verify dfyconfig.toml` checks all of it. Every lemma carries `{:induction false}`: its body is its whole proof.

## How the parts are modelled

**The ring.** `Ring.StepThread` is the next atomic access of a thread: loading an index, comparing and exchanging it, claiming a slot through its status word, moving the pointer, storing the status. `Ring.SpuriousStep` is a weak compare-exchange that fails although the value matches. A run is a list of actions in any order, for any number of threads; callers may also allocate and free buffers themselves. Memory is sequentially consistent.

What holds is layered by what it needs.

1. In *every* interleaving: slot ownership (`RingOwnership`), conservation of buffers (`RingConservation`), refinement of an atomic bag (`RingBag`), a bound on the number of steps (`RingDrain`), the reasons for every miss, drop and try (`RingHistory`), the completion of every operation (`RingOperations`), and for each slot an account of its pending threads against the tickets given out (`RingProgress.CreditIsNet`).
2. Exactly as long as every win *has room*: occupancy (`RingTickets.TicketRun`) and refinement of a ticket counter (`TicketCounter.PoolRefinesCounter`). The indices are reduced modulo 1024, so a thread that loads them, finds them apart, and then sleeps for a lap can win its compare-exchange although its test would fail by now. `RingTickets.HasRoom` says that the test still holds at the win: `head != tail` when `head` is reserved, and not `(tail + 1) % 1024 == head` when `tail` is. Nothing else about the winner's index matters. A win with fewer than 1024 reservations of the counter between load and win always has room (`RingTickets.WinIsExact`, `RingTickets.NoLapHasRoom`); a lapped win has it or not according to the indices at that moment alone.
3. When nothing can move any more: something is stuck exactly if more loads than stores, or over 1024 more stores than loads, were reserved (`RingProgress.DeadlockExactly`). And with nothing in flight the pool is the queue between its indices exactly if at most 1023 tickets are between the counters (`RingQueue.QuiescentIsQueue`). Both follow for runs whose wins have room. Both failures happen: `RingLap.LapDeadlocks` is a run of two threads in which a loader wins without room and waits for a slot that nobody will ever fill, and `RingOverfull.OverfullLooksEmpty` one in which a storer wins without room and the full pool looks empty.

4. What none of these hypotheses excludes: a *full pool can miss and an empty pool can drop*. An operation loads the two indices one after the other, so it may compare an old value of one with a new value of the other. `RingMisfires.FullPoolMisses` and `RingMisfires.EmptyPoolDrops` are runs of two threads, without a lapped win and with room at every win, in which an obtain misses with 1023 buffers in the pool and a return frees its buffer with none in it. `RingTickets.MissExactly` and `RingTickets.DropExactly` say exactly when that happens: the other counter has come a lap ahead of the ticket loaded first, or for a drop, `head` has passed it. These tests are the only reasons for a miss or a drop (`RingHistory.MissFollowsTest`, `RingHistory.DropFollowsTest`): losing a compare-exchange is none. No buffer is lost track of: a miss allocates and a drop frees.

Ticket order is not slot order: two storers a lap apart may compete for one slot. What survives is a count for each slot, `RingProgress.Credit`, and that is what progress rests on.

**The single-threaded ring.** `SequentialPool.BufferPoolImpl` has the source's arrays, indices and loops. Its environment may make compare-exchanges fail spuriously, any finite number of times. It is a FIFO queue of capacity 1023. `RingQueue` connects the two models: between operations the concurrent ring stands for the same queue, and every run of an operation that is alone in moving does to it what the object's method does.

**Frames.** The methods of `EtherFrames` work on heap objects and arrays. `FrameValues` says what their users see of them, a list of byte strings and sizes; `EtherFrames.LifeCycle` shows that the heap behaves like that list through any sequence of events.

**The relay and the forwarder.** `RelayModel.Step` and `ForwarderModel.Step` are pure functions of the state and of one input; the answers of the system (descriptors, success of `bind`, `epoll_ctl` and `sendto`, clock readings) come with the input. The classes in `RelayWorker` and `ForwarderWorker` update their maps in place as the source does, and each method is tied to those functions; the statements over whole runs are about the functions. Hypotheses about the system are explicit: `RelayInvariants.LegalScript` (when `epoll_wait` returns, the sockets of its events are watched; senders have an address; a new descriptor is one not in use; clock readings fit 64 bits) and its form input by input, `RelayModel.Legal`; `RelayRuns.ClockForward` (the clock does not go back). Closing a socket ends epoll's interest in it. Header words are read as on a little-endian host.

## Where code and documentation differ

- `README.md:35-37` says that a session is deleted when it is inactive for more than 10 minutes. The code deletes it as soon as *either* direction was idle for more than 600 seconds, only in a sweep, and a sweep happens only when `epoll_wait` returned no events. `RelayCounters.ExpiryExactly` states the test as it is; because it subtracts unsigned readings of a realtime clock, a clock set back behind a timestamp also expires the session.
- The loss counters are reset only by a report, and a report is made only if something was dropped. So they can wrap, and then the reported loss can exceed 100 percent: `RelayCounters.LossCanExceed` is a run of the relay after which it is 200 percent, and `RelayCounters.LossSafeExactly` says for which numbers of packets it cannot happen.
- Move assignment of a frame frees the target's buffer instead of returning it to the pool (`EtherFrames.MoveAssign`), and the constructors that are given a size do not limit it to the buffer, so that a clone may copy out of bounds. `FrameValues.CloningDefinedExactly` says that this is exactly what can go wrong: `SetSize`, moves and clones keep every frame fit for cloning.

## Model

| member | source | states |
|---|---|---|
| RingOwnership.SlotSafety | src/veth/BufferPool.cc:46-73 | in every interleaving of any number of threads the CHECK never fails, no two threads hold the same slot, empty slots are null and available ones are not, and a loader never takes null out of a claimed slot |
| RingOwnership.OwnershipStep | src/veth/BufferPool.cc:38-76 | slot ownership is kept by each single atomic access, spurious failure, start, and by callers' own allocations |
| RingConservation.ConservedRun | src/veth/BufferPool.cc:38-93 | along every run each buffer ever allocated is in exactly one place: a slot, one thread's locals, the callers' hands, or freed |
| RingConservation.HandOut | src/veth/BufferPool.cc:81-87 | the facade hands out exactly one buffer, never null, and one that is nowhere else: not in any caller's hands, in a slot, with another thread or freed |
| RingBag.RefinesBag | src/veth/BufferPool.cc:46-52 | each access is invisible or one atomic bag operation: removal at the loader's claim, insertion when the slot becomes available, a miss allocates, a drop frees |
| RingBag.PoolRefinesBag | src/veth/BufferPool.cc:38-93 | every run of obtains and returns, in every interleaving, is a run of the atomic bag that starts empty |
| RingTickets.WinIsExact | src/veth/BufferPool.cc:40-45 | without a lap, a won compare-exchange is won with the current ticket, and the window then has a buffer to load or room to store, although the other index was loaded earlier |
| RingTickets.RoomExactly | src/veth/BufferPool.cc:42-64 | from 0 to 1023 tickets between the counters, a step keeps that bound if and only if its win, if it is one, would pass the thread's test of the indices again |
| RingTickets.TicketRun | src/veth/BufferPool.cc:38-64 | for any number of threads, 0 to 1023 tickets are between the counters all along a run if and only if every win of the run has room; head and tail are then the counts of reservations modulo 1024 |
| RingTickets.NoLapHasRoom | src/veth/BufferPool.cc:40-64 | a run in which fewer than 1024 reservations of a counter lie between each load and the compare-exchange it wins has room at every win |
| RingTickets.MissExactly | src/veth/BufferPool.cc:39-54 | an obtain turns into a miss if and only if it has loaded head, loads tail now, and the store counter is a multiple of 1024 ahead of the ticket it loaded; if less than a lap, the window is empty |
| RingTickets.DropExactly | src/veth/BufferPool.cc:58-75 | a return turns into a drop if and only if it has loaded tail, loads head now, and either the window is full and tail has not moved since, or head has passed the ticket it loaded by one more than a multiple of 1024 |
| RingHistory.MissArises | src/veth/BufferPool.cc:39-54 | no step, spurious failure or start makes an obtain a miss but the load of tail that gives the index loaded as head; in particular a lost compare-exchange does not |
| RingHistory.DropArises | src/veth/BufferPool.cc:58-75 | nothing makes a return a drop but the load of head that gives the successor of the index loaded as tail |
| RingHistory.LostMeansRetry | src/veth/BufferPool.cc:45-64 | an operation whose compare-exchange on an index does not move the index, for whatever reason, goes back to loading both indices and changes nothing else |
| RingHistory.MissFollowsTest | src/veth/BufferPool.cc:39-44 | in every run: a thread about to hand out a fresh buffer made its last two moves by loading head and then tail, and the two values, at those moments, were equal |
| RingHistory.DropFollowsTest | src/veth/BufferPool.cc:58-63 | in every run: a thread about to free a buffer made its last two moves by loading tail and then head, and head was right behind tail |
| RingHistory.TryFollowsTest | src/veth/BufferPool.cc:40-64 | in every run: a thread about to compare and exchange an index made its last two moves by loading that index and the other one, and they did not mean empty, or full |
| RingOperations.OperationsEnd | src/veth/BufferPool.cc:38-93 | in every run and for each thread: as many obtains were begun as buffers handed out, and as many returns as buffers stored or freed, but for the one operation that may be at work |
| RingMisfires.FullPoolMisses | src/veth/BufferPool.cc:40-44 | a run of two threads, without a lapped win and with room at every win, in which the next access makes an obtain miss while the pool holds 1023 buffers |
| RingMisfires.EmptyPoolDrops | src/veth/BufferPool.cc:59-63 | a run of two threads, without a lapped win and with room at every win, in which the next access makes a return drop its buffer while the pool is empty |
| TicketCounter.RefinesCounter | src/veth/BufferPool.cc:40-64 | a step of the modular ring is a step of the unbounded ticket counter, with the ticket that was reserved, if and only if its win, if it is one, has room; how old the winner's index is does not matter |
| TicketCounter.PoolRefinesCounter | src/veth/BufferPool.cc:38-76 | a run from the start, of any number of threads, is a run of the ticket counter from zero if and only if every win of the run has room |
| RingProgress.NetMeaning | src/veth/BufferPool.cc:45-64 | with at most 1024 tickets between the counters, the count of a slot is 1 exactly when some ticket of the window has the slot's index |
| RingProgress.CreditIsNet | src/veth/BufferPool.cc:38-76 | in every interleaving, for each slot: pending storers minus pending loaders plus (stored or available) is the number of store tickets given out for the slot minus the number of load tickets |
| RingProgress.DeadlockFree | src/veth/BufferPool.cc:45-73 | in every interleaving, with 0 to 1024 tickets between the counters and an operation in flight, some thread has an enabled step that is not a spin |
| RingProgress.DeadlockExactly | src/veth/BufferPool.cc:38-76 | after any run, when only spins are left: nothing is in flight if and only if 0 to 1024 tickets are between the counters |
| RingProgress.DeadlockFreeReachable | src/veth/BufferPool.cc:38-76 | a run whose wins all have room leads to no deadlock |
| RingProgress.QuiescentWindow | src/veth/BufferPool.cc:33-34 | in every interleaving, with no operation in flight at most 1024 tickets are between the counters and the available slots are exactly theirs |
| RingDrain.ProgressCosts | src/veth/BufferPool.cc:39-75 | every step that is not a spin lowers the potential; a retry forced by a real failure is paid for by the reservation that caused it |
| RingDrain.StepsPerOperation | src/veth/BufferPool.cc:39-75 | in every interleaving the steps that are not spins number at most 5 * threads + 4 for each operation started and 2 for each spurious failure |
| RingDrain.Drains | src/veth/BufferPool.cc:39-75 | with nothing new started, steps that are not spins end within the potential; once none is left, nothing is in flight if and only if 0 to 1024 tickets are between the counters, in particular if every win had room |
| RingSolo.SoloReturn | src/veth/BufferPool.cc:57-76 | every run in which only the returning thread moves: it never has to wait, and when it ends its buffer is at tail and tail has advanced, or the buffer is freed if there was no room; nothing else has changed |
| RingSolo.SoloObtain | src/veth/BufferPool.cc:38-55 | every run in which only the obtaining thread moves: it never has to wait, and when it ends it has taken the buffer at head and head has advanced, or the caller has a fresh buffer if the indices were equal; nothing else has changed |
| RingQueue.QuiescentIsQueue | src/veth/BufferPool.cc:33-34 | in every interleaving, with no operation in flight the ring stands for a queue of as many buffers as tickets lie between the counters if and only if these are at most 1023, in particular if every win had room; otherwise all slots are available and the indices are equal |
| RingQueue.SoloReturnAppends | src/veth/BufferPool.cc:57-76 | from such a state, every run of a return alone appends to the queue, or frees its buffer when 1023 are in it |
| RingQueue.SoloObtainPops | src/veth/BufferPool.cc:38-55 | from such a state, every run of an obtain alone hands out the oldest buffer, or a fresh one when the queue is empty |
| RingLap.LapDeadlocks | src/veth/BufferPool.cc:40-49 | wins without room occur and do harm: a run of two threads in which a loader wins with an index a full lap old ends in a deadlock |
| RingOverfull.OverfullLooksEmpty | src/veth/BufferPool.cc:59-73 | a run of two threads in which a storer wins with an index a full lap old ends with nothing in flight, all 1024 slots available, and head equal to tail |
| SequentialPool.PopOldest | src/veth/BufferPool.cc:45-52 | clearing the slot at head and advancing head removes the oldest element of the queue |
| SequentialPool.PushNewest | src/veth/BufferPool.cc:64-73 | filling the slot at tail and advancing tail appends to the queue |
| SequentialPool.BufferPoolImpl.ObtainBuffer | src/veth/BufferPool.cc:38-55 | used by one thread: pops the oldest buffer, or misses when empty; terminates for any number of spurious failures |
| SequentialPool.BufferPoolImpl.ReturnBuffer | src/veth/BufferPool.cc:57-76 | used by one thread: appends the buffer, or drops it when 1023 are in the pool; the CHECK holds |
| EtherFrames.ObtainBuffer | src/veth/BufferPool.cc:81-87 | the facade returns a buffer that neither the pool nor a live frame owns, the oldest of the pool or a new one when the pool is empty |
| EtherFrames.ReturnBuffer | src/veth/BufferPool.cc:89-93 | the facade ignores null and otherwise appends the buffer unless the pool is full |
| EtherFrames.EtherFrame.SetSize | src/veth/EtherFrame.h:62-64 | the size is the one asked for, limited to 16384 |
| EtherFrames.Construct | src/veth/EtherFrame.h:35-41 | a new frame owns the oldest pool buffer, or a new one, and every buffer keeps a single owner |
| EtherFrames.Adopt | src/veth/EtherFrame.h:43-44 | a frame made of a caller's buffer owns it, takes nothing from the pool, and every buffer keeps a single owner |
| EtherFrames.MoveConstruct | src/veth/EtherFrame.h:30 | the buffer changes hands; the frame moved from keeps its size and owns nothing |
| EtherFrames.MoveAssign | src/veth/EtherFrame.h:32 | the target takes over buffer and size; its old buffer ends up with no owner and not in the pool; self-assignment changes nothing |
| EtherFrames.Destroy | src/veth/EtherFrame.h:46-48 | the destructor returns the frame's buffer to the pool; a frame moved from returns nothing |
| EtherFrames.Clone | src/veth/EtherFrame.cc:9-13 | a clone has the same size and bytes in a buffer of its own, and no live frame's bytes change |
| EtherFrames.Write | src/veth/EtherFrame.h:54-56 | what is written through one frame is not seen through any other live frame |
| EtherFrames.Live | src/veth/EtherFrame.h:20-64 | each event does to the live frames what it does to a list of independent values: only the frames it names change, and a clone has the bytes that the original has at that moment |
| EtherFrames.LifeCycle | src/veth/EtherFrame.h:20-64 | through any sequence of constructions, adoptions, moves, clones, destructions, size changes and writes, live frames own pairwise distinct buffers, none of them in the pool, and their bytes and sizes are those of the list of values |
| FrameValues.BytesFollowOwner | src/veth/EtherFrame.h:30-64 | over any such sequence a buffer that still has an owner holds its first bytes, changed by nothing but the writes through the frames that owned it at the time |
| FrameValues.CloneKeepsBytes | src/veth/EtherFrame.cc:9-13 | a clone that is not written through keeps, in whatever frame its buffer ends up, the bytes the original had when it was copied |
| FrameValues.NewCloneableExactly | src/veth/EtherFrame.h:41 | a frame just built by the sized constructor can be cloned within bounds if and only if its size is at most 16384 |
| FrameValues.CloningDefinedExactly | src/veth/EtherFrame.cc:9-13 | over any sequence of events, cloning is within bounds at every moment for every frame not moved from if and only if each size given to a constructor with a buffer is at most 16384 |
| RelayInvariants.SessionIdIsReserved | src/wgcf/WgcfRelayWorker.cc:94-108 | a packet is rejected exactly if it is shorter than 32 bytes or its reserved bytes are zero; otherwise its id is 2^33 plus the reserved bytes, lowest first, and ids and reserved bytes determine each other |
| RelayInvariants.RunInv | src/wgcf/WgcfRelayWorker.cc:203-333 | in every reachable state the descriptor map and the sessions' sockets are mutually inverse, and exactly the inbound socket and the sessions' sockets are open and watched |
| RelayInvariants.UnknownBranchesUnreachable | src/wgcf/WgcfRelayWorker.cc:127-139 | a watched socket other than the inbound one belongs to a known session with a valid address, and a session just created is found |
| RelayInvariants.BatchStaysWatched | src/wgcf/WgcfRelayWorker.cc:335-385 | handling a batch of events closes no socket, so each event's socket is still watched when its turn comes |
| RelayInvariants.ScriptLegal | src/wgcf/WgcfRelayWorker.cc:278-386 | over all wake-ups of the worker: if the sockets of each batch were watched when epoll_wait returned it, every single event is legal when it is handled |
| RelayWorker.RelayContext.NewOutboundUdpSocket | src/wgcf/WgcfRelayWorker.cc:158-201 | a bound socket is open on success; on any failure the set of open sockets is unchanged |
| RelayWorker.RelayContext.HandlePacketFromServer | src/wgcf/WgcfRelayWorker.cc:125-156 | updates the session and emits as the relay's step function says |
| RelayWorker.RelayContext.HandlePacketFromClient | src/wgcf/WgcfRelayWorker.cc:203-271 | creates or updates the session and emits as the relay's step function says; nothing is left behind if the creation fails |
| RelayWorker.RelayContext.SweepSessions | src/wgcf/WgcfRelayWorker.cc:287-334 | for any order of visiting, the erase-while-iterating loop terminates and leaves what the filter leaves |
| RelayWorker.RelayContext.RunBatch | src/wgcf/WgcfRelayWorker.cc:335-385 | handles the events in order, up to a fatal receive error |
| RelayWorker.RelayContext.HandleWake | src/wgcf/WgcfRelayWorker.cc:278-386 | a wake-up without events removes exactly the sessions idle for more than 600 seconds, closes their sockets and sends nothing; the worker is told to stop exactly if waiting fails or a receive error is fatal |
| RelayWorker.RelayContext.RunWorker | src/wgcf/WgcfRelayWorker.cc:273-387 | for wake-ups whose sockets are watched when epoll_wait returns, the worker loop is the run of the step function over their inputs and keeps the maps inverse; it ends exactly if waiting fails or a receive error is fatal; after a last wake-up without events it has just swept |
| RelayWakes.QuietSweeps | src/wgcf/WgcfRelayWorker.cc:287-334 | after any wake-ups that did not end the worker, one without events leaves exactly the sessions used in both directions within 600 seconds, closes exactly the other sockets, restarts the counters of sessions with drops, and sends nothing |
| RelayWakes.BatchHandled | src/wgcf/WgcfRelayWorker.cc:335-385 | each datagram of a batch is handled once, in order, with its socket, bytes and sender; other events and an empty batch lead to nothing |
| RelayWakes.NothingAfterFatal | src/wgcf/WgcfRelayWorker.cc:341-348 | of a batch, nothing is handled after a fatal receive error |
| RelayWakes.NothingAfterEnd | src/wgcf/WgcfRelayWorker.cc:280-286 | once the worker has ended, no later wake-up is handled |
| RelayCounters.ExpiryExactly | src/wgcf/WgcfRelayWorker.cc:307-308 | a session is expired exactly if one of its directions was not used in the last 600 seconds, with the wrap-around of the unsigned subtraction spelled out |
| RelayCounters.SweepFilters | src/wgcf/WgcfRelayWorker.cc:291-332 | a sweep keeps exactly the sessions recently used in both directions, closes exactly the sockets of the others, and leaves the maps inverse |
| RelayCounters.AccountedRun | src/wgcf/WgcfRelayWorker.cc:140-151 | along every run each counter is, modulo 2^32, the true number since the last report: total = sent + would-block drops + other failures |
| RelayCounters.LossReported | src/wgcf/WgcfRelayWorker.cc:292-306 | with fewer than 2^32 packets since the last report the counters are exact and the loss is between 0 and 100 percent |
| RelayCounters.AnyTally | src/wgcf/WgcfRelayWorker.cc:140-151 | in either direction every number of packets sent and every number of would-block drops since the last report is reached by a run of the relay |
| RelayCounters.LossSafeExactly | src/wgcf/WgcfRelayWorker.cc:294-297 | in either direction, the loss is in range in every session that any run leads to with n packets since the last report, if and only if n does not wrap or is one short of the next wrap |
| RelayCounters.LossCanExceed | src/wgcf/WgcfRelayWorker.cc:294-297 | after 2^32 - 1 packets sent and then two would-block drops a report would show 2 dropped of 1 |
| RelayRuns.ClientRouted | src/wgcf/WgcfRelayWorker.cc:211-266 | after any run: a client's packet goes, unchanged, to the server through its session's socket, exactly if it carries an id, a session is there or can be created, and the system takes it; the session then points at its sender, and a new session starts with the new socket and the current time |
| RelayRuns.ServerRouted | src/wgcf/WgcfRelayWorker.cc:369-383 | after any run: a packet on a session's socket goes on, unchanged, exactly if it comes from the server and the system takes it, to the sender of the latest packet that carried the session's id |
| RelayRuns.SessionsIsolated | src/wgcf/WgcfRelayWorker.cc:335-385 | taking all packets of other sessions out of a run leaves a legal run with the same session record and the same packets emitted for the session |
| RelayRuns.PortStable | src/wgcf/WgcfRelayWorker.cc:307-331 | with a clock that does not go back, a session is never removed if and only if at every sweep it has forwarded in each direction within the last 600 seconds; it then keeps its socket and port, and all its client's packets leave through that socket |
| ForwarderModel.SetupIndex | src/udpfwd/UdpForwardWorker.cc:38-87 | the index built by setup leads from each session's two distinct sockets to that session and from nothing else |
| ForwarderModel.IndexIsSockets | src/udpfwd/UdpForwardWorker.cc:38-87 | after a successful setup the index knows exactly the sockets that were opened |
| ForwarderModel.SetupSessions | src/udpfwd/UdpForwardWorker.cc:83-84 | a successful setup makes one session for each target, in order, with the target's three addresses, the two sockets opened for it, and no source address |
| ForwarderModel.RunKeeps | src/udpfwd/UdpForwardWorker.cc:157-166 | along every run the index stands, sessions change in nothing but the source, and the source is the sender of the latest datagram on the inbound socket |
| ForwarderModel.ForwardsBothWays | src/udpfwd/UdpForwardWorker.cc:132-211 | after any run from a successful setup a datagram on any opened socket belongs to a target: from the inbound socket it goes to the target's destination through the outbound socket; from the outbound socket it goes on only if it comes from that destination, through the inbound socket to the sender of the latest datagram there, and not at all before there was one |
| ForwarderModel.NothingElseSent | src/udpfwd/UdpForwardWorker.cc:97-141 | after any such run, an event that is no datagram, or one on a socket that was not opened, sends nothing and changes no session |
| ForwarderModel.RunAppend | src/udpfwd/UdpForwardWorker.cc:97-215 | what one more event sends comes after what was sent before, and nothing is handled after the event that stops the worker |
| ForwarderModel.StopsExactly | src/udpfwd/UdpForwardWorker.cc:98-172 | from a successful setup the worker stops if and only if there is a failure, a datagram on a socket that it did not open, or one for a target whose destination has no address |
| ForwarderWorker.ForwardContext.SetupSockets | src/udpfwd/UdpForwardWorker.cc:26-89 | succeeds exactly if for every target both addresses are usable and both sockets are opened, bound and watched; the sessions are then the targets' in order; otherwise what was built up to the first failure is kept |
| ForwarderWorker.ForwardContext.HandleDatagram | src/udpfwd/UdpForwardWorker.cc:132-211 | handles one datagram as the forwarder's step function says |
| ForwarderWorker.ForwardContext.RunWorker | src/udpfwd/UdpForwardWorker.cc:91-215 | the worker loop is the run of the step function over its events |
| TextUtils.FindIsFirst | src/support/text/TextUtils.cc:14 | finds a position exactly if the delimiter occurs, and then the first one |
| TextUtils.SplitString | src/support/text/TextUtils.cc:11-20 | the loop terminates for every non-empty delimiter and yields the parts between the left-to-right matches |
| TextUtils.JoinSplit | src/support/text/TextUtils.cc:11-20 | joining the parts with the delimiter gives back the string |
| TextUtils.SplitJoinExactly | src/support/text/TextUtils.cc:11-20 | splitting undoes joining exactly for non-empty lists in which each part but the last, followed by the delimiter, has its first match at the part's end, and the last part has none |
| TextUtils.LastPartOf | src/support/text/TextUtils.cc:26-29 | returns the last of the parts |
| TextUtils.LastPartIsRest | src/support/text/TextUtils.cc:26-29 | the last part is the end of the string: what follows a match of the delimiter if it occurs at all, and the whole string if not |
| TextUtils.LastPartIsClean | src/support/text/TextUtils.cc:26-29 | the delimiter does not occur in the last part |
| TextUtils.LastPartExactly | src/support/text/TextUtils.cc:11-29 | also when matches overlap: the parts are the one list of the stated form that joins to the string, and the last part is its last element |

## Left out

- C++ memory orders: the ring is modelled under sequential consistency; the relaxed and acquire/release annotations are not.
- What the ring does after a win without room: only what holds in every interleaving, and the two runs that end badly; how a pool gets out of such a state is not studied.
- Starvation: deadlock freedom says that some thread can move on, not which one; a scheduler that only lets one thread spin is not excluded.
- RingTickets.TicketRun: says nothing about which buffer a ticket gets; two storers a lap apart may swap in one slot.
- EtherFrames.Clone: requires a frame that was not moved from and a size of at most 16384; outside of that the source's copy is undefined behaviour (`FrameValues.CloningDefinedExactly`).
- EtherFrames.LifeCycle: the events of one thread; threads sharing the pool are the subject of the ring. A buffer that is adopted there is one that its caller allocated; one taken from the pool is the case of `Clone`.
- TextUtils.SplitString: requires a non-empty delimiter; with an empty one `find` returns 0 for ever, nothing is cut off, and the source's loop does not end.
- Real sockets, epoll, errno and logging: the answers of the system are parameters.
- RelayWorker.RelayContext.RunWorker: batches may have any size, where the source asks for at most 16 events; the maximum datagram size is not modelled.
- The set-up of the relay: only its result is modelled (`RelayModel.Start`), not its error paths.
- Session fields that are never read again: the peer ids, which stay 0, and the wildcard address of the outbound socket; its port is kept.
- RelayRuns.PortStable: is about sweeps, and a relay that is never without events never sweeps; how often it does is not modelled.
- The floating-point value and the text of the loss report: the range of dropped over total is stated on integers.
- ForwarderWorker.ForwardContext.SetupSockets: the sockets left open when setup fails are not tracked; the process ends then.
- Number parsing, address parsing and the regex splitter: their logic lies in library functions that are not part of this model.
- Endpoint ids, the switch interface, MAC address strings, byte-order helpers, time formatting and file reading.
