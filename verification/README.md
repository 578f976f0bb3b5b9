# tango-bulk, verified

A Dafny model of tango-bulk's flow control and ownership machinery, and of the parsers and arithmetic it rests on.
`dafny verify dfyconfig.toml` checks the whole project.

Concurrent parts are step systems: a value datatype for the state, one step per atomic access (or per callback, where
one thread runs it), and results stated for every reachable state or every run. Code that mutates objects is also
written as a class or a loop method and proved against the same functions.

| files | what they model |
|---|---|
| `Credit`, `CreditProtocol`, `SubscriberEngine` | the credit window, the release tracker with its bitmap, and both peers with a network that delivers frames at most once in any order, and loses, reports, duplicates and reorders credits |
| `Sessions`, `FanOut`, `FanOutProofs`, `RingWidth`, `AllActive`, `LosslessArming`, `PublisherEngine` | slot ownership from free list to handle to queue to per-session references, admission gauges, arming in its three accesses, fan-out |
| `Seats` | the seat state machine and the election of who ends a session |
| `MpmcQueue`, `BoundedQueue`, `ProducerSlots`, `LeasePool`, `Delivery` | the lock-free structures, interleaved and sequential, and the delivery barriers |
| `Wire`, `Codec`, `Coordination`, `DataPlane` | the wire formats |
| `Geometry`, `Metadata`, `StreamRow` | array descriptions, metadata inference, the BulkStreams text row |
| `ReceivePlan`, `Subscription`, `SubscriptionEngine` | receive sizing and the subscription life cycle |
| `Striping` | shard placement in the HDF5 client |

Properties that turned out to hold only under a condition, each with a run or input that breaks it otherwise:

- The ticketed queue needs two cells; a delivery queue of depth one is allowed and overwrites (`CapacityCondition`).
- The lease pool needs a single popper (`PopperCondition`).
- Under AllActive a newly armed session is never skipped exactly when, at the store of the new admission limit, every
  frame claimed so far fits its window and the publish count it started from is not ahead of the queue (or the queue is
  too short for that to matter), or its window spans the ring (`LosslessIffWithin`). Seen from before
  the arm, on an empty publish queue, it is lossless exactly when no publish call can get a frame in between the arm's
  accesses (the old limit leaves no room, or no call has seen an armed session and none can) or the window is wider than
  that matters (`ArmIsLosslessIff`): the first client of an idle publisher is safe (`FirstClientLossless`), a second one
  is not under any configuration with two slots (`EmptyQueueIsNotEnough`).
- The last credit is recovered whenever its loss is reported: at rest the publisher has applied everything released,
  or the newest acknowledgement was lost in silence (`RestIsCreditedOrSilent`). Whatever the two sides agree on, one
  silent loss and nothing else can fill the window for ever (`SilentLossStrands`, `StrandedForever`).
- Frames left when a session fails are there for readers if and only if the owner discards nothing afterwards
  (`AfterFailure`), and the subscription never does (`FailureKeepsFrames`).
- A read that began after the failure was stored reports it only when nothing is left (`FailureReportedWhenEmpty`); one
  that found the queue empty before can, from every such state, report it past a frame (`EarlyReadCanMissFrame`).
- Inferred strides are row-major exactly when those strides fit in 64 bits, which an accepted empty array need not meet
  (`ContiguousIsRowMajor`, `EmptyArrayMayMissRowMajor`).
- An Error message decodes to itself exactly when its text is at most 512 bytes without a zero byte (`ErrorRoundTrip`).
- A text row gives an Ok offer back exactly when the name holds no separator and the message is the parser's own; any
  other offer prints an empty row (`RowRoundTrip`).
- The comment on `ErrorMessage` says its status is never Ok, but the subscriber does not check: an Error reply carrying Ok
  is taken for a session with nothing in it. Adoption is right exactly for all other replies
  (`AdoptedAnswersRequest`). Such a session never comes up, because no endpoint can be made of its empty address: every
  published transport answers its Open (`PublishedAnswersOpen`), and published arrays agree over every run.

## Model

| member | source | states |
|---|---|---|
| `Credit.CreditIsCumulative` | src/core/credit_window.cpp:41-62 | after any acknowledgements, in any order, duplicated or forged, exactly the sequences some valid one covers are credited, each once |
| `Credit.CreditWindow.constructor` | src/core/credit_window.cpp:18-22 | a new window has nothing submitted and nothing credited |
| `Credit.CreditWindow.CanSubmit` | src/core/credit_window.cpp:24-27 | room exactly while fewer than `width` sequences are outstanding |
| `Credit.CreditWindow.NoteSubmitted` | src/core/credit_window.cpp:34-39 | takes the next sequence and keeps outstanding within the width |
| `Credit.CreditWindow.ApplyCredit` | src/core/credit_window.cpp:41-62 | the object's new state, status and released count are those of the cumulative rule |
| `Credit.CreditWindow.Reset` | src/core/credit_window.cpp:84-88 | starts a new epoch with nothing outstanding |
| `Credit.LeastMissingUnique` | src/core/credit_window.cpp:131-166 | the released end is determined by the released set: it is the least sequence of the epoch not in it |
| `Credit.ReleaseRefinesSet` | src/core/credit_window.cpp:131-166 | one release adds exactly its sequence to the released set and classifies it as a plain set would, also at the 64-bit end |
| `Credit.TrackerRefinesSet` | src/core/credit_window.cpp:131-166 | over every sequence of releases the tracker's outcomes and contents are those of a set of released sequences |
| `Credit.ReleaseKeepsValid` | src/core/credit_window.cpp:131-166 | held-ahead sequences stay inside one ring of the released end |
| `Credit.ReleaseTracker.constructor` | src/core/credit_window.cpp:107-111 | an empty bitmap represents a fresh tracker |
| `Credit.ReleaseTracker.Set` | src/core/credit_window.cpp:119-123 | changes the one bit of `sequence % ring_depth` |
| `Credit.ReleaseTracker.Clear` | src/core/credit_window.cpp:125-129 | clears the one bit of `sequence % ring_depth` |
| `Credit.ReleaseTracker.AdvancePrefix` | src/core/credit_window.cpp:157-163 | the prefix loop swallows exactly the contiguous released sequences |
| `Credit.ReleaseTracker.Release` | src/core/credit_window.cpp:131-166 | the bitmap is exactly the released set ahead of the end modulo the ring, `held_ahead` its size, and the outcome the set's |
| `Credit.ReleaseTracker.TakePendingAck` | src/core/credit_window.cpp:168-191 | offers the newest contiguous acknowledgement once |
| `Credit.ReleaseTracker.MarkAckFailed` | src/core/credit_window.cpp:193-199 | makes the newest acknowledgement available again |
| `Credit.ReleaseTracker.Reset` | src/core/credit_window.cpp:216-228 | clears every word and starts a new epoch |
| `CreditProtocol.Clamp` | src/ucx/publisher_impl.cpp:1775-1778 | window at most ring on both sides gives the same for the granted minima |
| `CreditProtocol.StepKeeps` | src/ucx/subscriber_engine.cpp:669-852 | every step of either peer or the network keeps the protocol invariant |
| `CreditProtocol.CreditSafety` | src/ucx/publisher_impl.cpp:832-882 | in every reachable state credited end ≤ released end ≤ next, so nothing credited is in flight, landing, held by a view or queued |
| `CreditProtocol.ReceiveSlotExclusive` | src/ucx/subscriber_engine.cpp:748-763 | every frame in flight will find slot `sequence % ring_depth` free and is never taken for a duplicate |
| `CreditProtocol.CreditQueueHasRoom` | src/ucx/subscriber_engine.cpp:113-127 | queued credits are distinct and, with live views, fit the window, so the 2×depth queue never overflows |
| `CreditProtocol.NewestAckRecoverable` | src/ucx/subscriber_engine.cpp:500-552 | in every reachable state the newest contiguous acknowledgement is applied, in transit, has a loss report waiting, or is offered, unless it was lost without a report |
| `CreditProtocol.CreditRoundEmptiesWindow` | src/ucx/subscriber_engine.cpp:634-655 | once everything is released, whatever became of the credits so far, the round of report, send and delivery leaves nothing outstanding, unless the last was lost without a report |
| `CreditProtocol.NothingLeftOutstanding` | src/ucx/subscriber_engine.cpp:477-552 | over any run in which the transport loses no frame and reports every credit it loses, once the subscriber holds nothing the recovery round leaves nothing outstanding |
| `CreditProtocol.CreditPathRests` | src/ucx/subscriber_engine.cpp:500-552 | until nothing is in transit, reported or offered the credit path has a step to take, and every such step, in any order, shrinks the work left |
| `CreditProtocol.RestIsCreditedOrSilent` | src/core/credit_window.cpp:168-199 | whenever the credit path is at rest, everything released is credited or the newest acknowledgement was lost without a report |
| `CreditProtocol.RestLeavesNothingOutstanding` | src/ucx/subscriber_engine.cpp:634-655 | over any reliable run, when frames and credits are quiet nothing is outstanding |
| `CreditProtocol.StrandedForever` | src/core/credit_window.cpp:181-184 | with the window full and the last acknowledgement gone, no continuation changes anything |
| `CreditProtocol.SilentLossStrands` | src/core/credit_window.cpp:181-184 | for every valid request and configuration, a run whose only loss is its last acknowledgement, unreported, ends in such a state |
| `SubscriberEngine.DrainIsRun` | src/ucx/subscriber_engine.cpp:477-498 | draining the return queue is that many protocol steps |
| `SubscriberEngine.Engine.constructor` | src/ucx/subscriber_engine.cpp:80-111 | a ring at the requested depth, all slots free, an empty tracker |
| `SubscriberEngine.Engine.HandleFrame` | src/ucx/subscriber_engine.cpp:669-852 | each branch of the frame callback takes the corresponding protocol step |
| `SubscriberEngine.Engine.OnRendezvousComplete` | src/ucx/subscriber_engine.cpp:854-895 | a finished receive commits its slot or vacates it and fails the engine |
| `SubscriberEngine.Engine.Commit` | src/ucx/subscriber_engine.cpp:919-935 | the slot's sequence becomes visible as a view |
| `SubscriberEngine.Engine.ReturnCredit` | src/ucx/subscriber_engine.cpp:113-127 | the last copy of a view queues its sequence and touches nothing else |
| `SubscriberEngine.Engine.DrainCreditReturns` | src/ucx/subscriber_engine.cpp:477-498 | the drain loop frees every queued sequence's slot and releases it, in order |
| `SubscriberEngine.Engine.SendPendingCredit` | src/ucx/subscriber_engine.cpp:500-552 | a refused send hands the acknowledgement back |
| `SubscriberEngine.Engine.OnCreditSent` | src/ucx/subscriber_engine.cpp:634-655 | a reported loss makes the acknowledgement available again |
| `SlotConservation.StepConserves` | src/ucx/publisher_impl.cpp:629-671 | every step of application, engine and control threads conserves slots |
| `SlotConservation.ReleaseBatch` | src/ucx/publisher_impl.cpp:863-876 | a batch of releases takes exactly its multiplicities off the counts, never underflows, and loses or duplicates no slot |
| `SlotConservation.SlotsConserved` | src/ucx/publisher_impl.cpp:761-768 | in every reachable state each slot is in exactly one of free list, handle, queue or retained; outside a fan-out its count is the number of uncredited (session, sequence) pairs naming it; no count underflows and no return fails |
| `SlotConservation.HeldCountsPairs` | src/ucx/publisher_impl.cpp:863-876 | the references held by all sessions are the uncredited pairs, counted as sets |
| `SlotConservation.DrainedRingIsFree` | src/ucx/publisher_impl.cpp:1111-1117 | when all sessions are torn down and nothing is queued or held, every slot is free again |
| `AllActive.StepKeeps` | src/ucx/publisher_impl.cpp:921-993 | every step, with publish calls between the three accesses of an arm, keeps ordinals in order and each cleanly armed session's promise |
| `AllActive.AllActiveLossless` | src/ucx/publisher_impl.cpp:642-656 | a session whose start was within its window when its limit was stored finds its window open at every later fan-out, for any mix of windows, and its sequences carry consecutive ordinals while no send to it fails |
| `AllActive.GaugeNeverOvertakes` | src/ucx/publisher_impl.cpp:1430-1431 | the credited gauge never exceeds the publish count, so the unsigned difference does not wrap |
| `RingWidth.StepStaysSingle` | src/ucx/publisher_impl.cpp:629-671 | every step keeps each session holding each slot at most once, and never the slot of a frame it is yet to be visited with |
| `RingWidth.FullWindowNeverSkipped` | src/ucx/publisher_impl.cpp:642-656 | a session whose window is as wide as the ring is never skipped, in either fan-out mode |
| `LosslessArming.LosslessIffWithin` | src/ucx/publisher_impl.cpp:921-993 | after an arm no continuation skips the session if and only if its start was within its window at the limit store, or its window spans the ring |
| `LosslessArming.UncleanLoses` | src/ucx/publisher_impl.cpp:642-656 | for every start outside a window narrower than the ring, a run that finds the window closed |
| `LosslessArming.RaceLoses` | src/ucx/publisher_impl.cpp:1391-1429 | whenever a publish call can pass the session check and the old limit, and the window is narrower than ring and queue allow, one frame published between the accesses of an arm on an empty queue loses the session a frame |
| `LosslessArming.ArmIsLosslessIff` | src/ucx/publisher_impl.cpp:921-993 | for every reachable publisher about to arm a seat on an empty queue, no continuation skips the session if and only if no publish call can pass or the window is that wide |
| `LosslessArming.FirstClientLossless` | src/ucx/publisher_impl.cpp:1391-1399 | with nobody armed and no call under way, the arming client is never skipped |
| `LosslessArming.EmptyQueueIsNotEnough` | src/ucx/publisher_impl.cpp:921-929 | under every configuration with two slots and two seats, a reachable second client that arms on an empty queue and is skipped |
| `PublisherEngine.Engine.constructor` | src/ucx/producer_slots.h:25-39 | every slot free, every seat unused |
| `PublisherEngine.Engine.TryAcquire` | src/ucx/publisher_impl.cpp:1340-1357 | hands out the slot free longest, or none exactly when none is free |
| `PublisherEngine.Engine.ResetHandle` | src/ucx/producer_slots.h:52-60 | an unpublished handle's slot goes back; there is always room |
| `PublisherEngine.Engine.Publish` | src/ucx/publisher_impl.cpp:1391-1480 | which outcome under which gauge, who keeps the slot in each, and each outcome as its steps of the system |
| `PublisherEngine.Engine.ReleaseSlotRef` | src/ucx/publisher_impl.cpp:761-768 | drops one reference and returns the slot at zero |
| `PublisherEngine.Engine.RefreshGauges` | src/ucx/publisher_impl.cpp:945-993 | the one-pass loop computes best, worst and strict limit over the eligible sessions |
| `PublisherEngine.Engine.FanOut` | src/ucx/publisher_impl.cpp:629-671 | a whole fan-out is a legal run of the step system from and to a state that conserves slots |
| `PublisherEngine.Engine.VisitOne` | src/ucx/publisher_impl.cpp:642-660 | the loop body, access by access, is one visit of the step system, for every transport outcome and racing close, and a refused send gives its reference back |
| `PublisherEngine.Engine.SubmitTo` | src/ucx/publisher_impl.cpp:673-758 | the in-flight entry is written first, the sequence is used only if the send is accepted, and only an armed session is activated |
| `PublisherEngine.Engine.BeginExpiry` | src/ucx/publisher_impl.cpp:1005-1024 | what a claim of the end leaves, given whether the end was claimed already; the election that decides that is in `Seats` |
| `PublisherEngine.Engine.HandleProbeAck` | src/ucx/publisher_impl.cpp:921-929 | an undisturbed arm is the three arming steps; a session that is not Open is left alone |
| `PublisherEngine.Engine.HandleCredit` | src/ucx/publisher_impl.cpp:832-882 | a credit releases exactly the sequences it covers and refreshes the gauges |
| `PublisherEngine.Engine.TeardownSession` | src/ucx/publisher_impl.cpp:1110-1156 | teardown releases everything the session holds and retires the seat |
| `Seats.StepKeeps` | src/ucx/publisher_impl.cpp:1005-1024 | load, claim and store as separate steps, with Close, sweep, arm, first frame and reopening, keep the seat invariant |
| `Seats.NoResurrection` | src/ucx/publisher_impl.cpp:735-737 | once Expiring, an incarnation is never live again in any continuation |
| `Seats.NeverRevived` | src/ucx/publisher_impl.cpp:921-923 | no run moves a seat back to an earlier stage of the same incarnation |
| `Seats.OneEndPerIncarnation` | src/ucx/publisher_impl.cpp:1005-1024 | each incarnation's end is claimed once and torn down once, for the reason that won |
| `Seats.ClosedOnlyByTeardown` | src/ucx/publisher_impl.cpp:1060-1156 | a Closed seat's current incarnation was torn down |
| `Seats.SessionsAccounted` | src/ucx/publisher_impl.cpp:1122-1130 | opened equals still up plus closed plus expired, and the two counters split by who claimed the end |
| `MpmcQueue.StepKeeps` | src/core/bounded_queue.h:52-124 | every atomic step of any thread keeps the ticket invariant |
| `MpmcQueue.OccupancyBounded` | src/core/bounded_queue.h:52-124 | enqueue minus dequeue position never exceeds the capacity |
| `MpmcQueue.PopReturnsItsTicketOnce` | src/core/bounded_queue.h:89-124 | the pop holding ticket k carries the item pushed with k, no pop has returned k before, and none besides works on it |
| `MpmcQueue.PoppedMatchesPushed` | src/core/bounded_queue.h:89-124 | every finished pop returned its own ticket's item |
| `MpmcQueue.OwnersApart` | src/core/bounded_queue.h:82-84 | no cell is touched by two threads at a time |
| `MpmcQueue.TicketInOnePlace` | src/core/bounded_queue.h:52-124 | every pushed ticket is in exactly one of being written, resting, being read, returned |
| `MpmcQueue.PushRefusedOnlyWhenFull` | src/core/bounded_queue.h:72-75 | a push refuses only if the ticket one lap earlier has not been returned |
| `MpmcQueue.PopRefusedOnlyWhenEmpty` | src/core/bounded_queue.h:109-112 | a pop refuses only if nothing is queued or the push holding its ticket is unfinished |
| `MpmcQueue.OneCellOverwrites` | src/core/bounded_queue.h:64-83 | with one cell, pushing true and then false succeeds twice and the cell holds false |
| `MpmcQueue.CapacityCondition` | src/core/bounded_queue.h:52-124 | the occupancy bound holds in all runs if and only if there are at least two cells |
| `BoundedQueues.RoundUpPow2` | src/core/bounded_queue.h:151-159 | the least power of two at least n |
| `BoundedQueues.BoundedQueue.constructor` | src/core/bounded_queue.h:36-44 | a power of two cells, at least the capacity; an empty working queue exactly from capacity two on |
| `BoundedQueues.BoundedQueue.TryPush` | src/core/bounded_queue.h:52-87 | appends at the back, or changes nothing exactly when full |
| `BoundedQueues.BoundedQueue.TryPop` | src/core/bounded_queue.h:89-124 | removes the front, or changes nothing exactly when empty |
| `ProducerSlotPool.ProducerSlots.constructor` | src/ucx/producer_slots.h:25-39 | every slot free, in order |
| `ProducerSlotPool.ProducerSlots.TryAcquire` | src/ucx/producer_slots.h:41-50 | takes the front slot; retained counts exactly the slots out |
| `ProducerSlotPool.ProducerSlots.Release` | src/ucx/producer_slots.h:52-60 | returning a slot that is out always finds room |
| `LeasePools.StepKeeps` | src/core/lease_pool.cpp:36-73 | every step of one popper, any pushers and holders scribbling on blocks keeps the list invariant |
| `LeasePools.PopInstallsSuccessor` | src/core/lease_pool.cpp:39-50 | a successful head exchange takes a free block and installs the true successor |
| `LeasePools.FreeListAcyclic` | src/core/lease_pool.cpp:36-73 | following links from the head ends, visiting each free block once |
| `LeasePools.BlocksPartitioned` | src/core/lease_pool.cpp:63-72 | no block is both free and handed out, handed out twice, or lost |
| `LeasePools.StalePopHandsOutTwice` | src/core/lease_pool.cpp:36-50 | with two poppers a concrete run makes a held block the head |
| `LeasePools.PopperCondition` | src/core/lease_pool.cpp:36-50 | the head is never a held block in all runs if and only if at most one thread pops |
| `LeasePools.LeasePool.constructor` | src/core/lease_pool.cpp:12-26 | threads all blocks, newest first |
| `LeasePools.LeasePool.Allocate` | src/core/lease_pool.cpp:28-54 | takes the newest free block, or counts an overflow exactly when too large or empty |
| `LeasePools.LeasePool.Deallocate` | src/core/lease_pool.cpp:56-73 | puts a block in front; null is ignored |
| `Delivery.StepKeeps` | src/core/delivery_queue.cpp:191-258 | every step of pushers, readers, setter and ingress owner keeps the barrier invariant |
| `Delivery.RetiredIngressIsQuiet` | src/core/delivery_queue.cpp:292-337 | once retiring an ingress returned, no push through it enqueues |
| `Delivery.TerminalWrittenOnce` | src/core/delivery_queue.cpp:356-403 | the terminal never changes once set |
| `Delivery.AfterFailure` | src/core/delivery_queue.cpp:339-403 | after SessionFailed, over any run, the terminal stays, and the frames left are exactly what readers take from then on followed by what remains if and only if the owner's discard takes none |
| `Delivery.DiscardsLoseFrames` | src/core/delivery_queue.cpp:339-354 | after the failure each turn of a discard loses exactly one frame, and nothing else does |
| `Delivery.NothingEnqueuedAfterBarrier` | src/core/delivery_queue.cpp:367-371 | every terminal that waits for pushes shuts the queue before it shows |
| `Delivery.FailureReportedWhenEmpty` | src/core/delivery_queue.cpp:535-590 | a read that began after the failure reports it only with nothing left to claim |
| `Delivery.EarlyReadCanMissFrame` | src/core/delivery_queue.cpp:565-581 | from every reachable state in which a read found the queue empty before any terminal, a run ends with it about to report the failure past a frame |
| `Delivery.EarlyReadMissesFrame` | src/core/delivery_queue.cpp:565-581 | such a state is reached on every queue with a pusher and a reader |
| `Wire.ValueOfLittleEndian` | src/core/byte_order.h:32-77 | reading gives back what was written |
| `Wire.LittleEndianOfValue` | src/core/byte_order.h:32-77 | writing gives back what was read |
| `Wire.PutLoop` | src/core/byte_order.h:32-46 | the byte loop stores the little-endian form and nothing else |
| `Wire.GetLoop` | src/core/byte_order.h:59-77 | the accumulating loop reads the little-endian value |
| `Codec.OpenOfMessage` | src/core/protocol.cpp:93-167 | opening an encoded message gives back its body and correlation id |
| `Codec.OpenIsExact` | src/core/protocol.cpp:139-142 | any bytes added or removed at the end are noticed |
| `Codec.GeometryRead` | src/core/protocol.cpp:199-231 | the 96-byte geometry block reads back |
| `Codec.FieldReads` | src/core/protocol.cpp:257-272 | a length-prefixed field in range reads back and the cursor lands past it |
| `Codec.TailReader.ReadStringField` | src/core/protocol.cpp:289-317 | the cursor reads a bounded string without zero bytes, or does not move |
| `Codec.TailReader.ReadBlobField` | src/core/protocol.cpp:319-337 | the cursor reads a bounded blob, or does not move |
| `Coordination.OpenRoundTrip` | src/core/protocol.cpp:475-577 | Open encodes exactly when name and address are in range, and decodes to itself with its correlation id |
| `Coordination.OpenReplyRoundTrip` | src/core/protocol.cpp:579-670 | OpenReply likewise |
| `Coordination.RenewRoundTrip` | src/core/protocol.cpp:676-723 | every Renew decodes to itself |
| `Coordination.RenewReplyRoundTrip` | src/core/protocol.cpp:725-776 | every RenewReply decodes to itself |
| `Coordination.CloseRoundTrip` | src/core/protocol.cpp:782-825 | every Close decodes to itself |
| `Coordination.CloseReplyRoundTrip` | src/core/protocol.cpp:827-872 | every CloseReply decodes to itself |
| `Coordination.ErrorRoundTrip` | src/core/protocol.cpp:878-937 | an Error decodes to itself if and only if its text is short enough and holds no zero byte; what comes back otherwise |
| `Coordination.LongerHeaderSameMessage` | src/core/protocol.cpp:122-164 | every accepted message is accepted, as itself, with a longer header |
| `Coordination.EveryByteAccounted` | src/core/protocol.cpp:139-142 | an accepted message with a tail accounts for every delivered byte |
| `Coordination.EveryFixedByteAccounted` | src/core/protocol.cpp:179-193 | so does a fixed-body message at our own minor version |
| `DataPlane.SignalRoundTrip` | src/core/protocol.cpp:1147-1235 | credits, probes and probe acks decode to themselves |
| `DataPlane.FrameRoundTrip` | src/core/protocol.cpp:1053-1145 | a frame header decodes to itself exactly when its array fits its payload, else the check's status comes back |
| `DataPlane.ResolvedFrameDecodes` | src/core/geometry.cpp:582-642 | whatever resolve accepts yields a header that decodes |
| `DataPlane.LongerDataHeaderSameMessage` | src/core/protocol.cpp:988-1027 | appended header bytes are ignored |
| `Geometry.ValidateShapeAndStrides` | src/core/geometry.cpp:24-106 | accepts exactly the descriptions that fit, no product or sum wrapping |
| `Geometry.ElementsInBounds` | src/core/geometry.cpp:24-106 | every element of an accepted description lies wholly inside the limit and no partial offset leaves 64 bits |
| `Geometry.ReachableSpan` | src/core/geometry.cpp:140-173 | after the whole geometry validates the unchecked products are exact and the overflow guard never fires; zero for an invalid or empty one |
| `Geometry.SpanIsTight` | src/core/geometry.cpp:140-173 | some element ends at the span and none later |
| `Geometry.RowMajorTiles` | src/core/geometry.cpp:495-513 | in a row-major array distinct elements occupy disjoint bytes inside elements × size |
| `Geometry.EveryByteOwned` | src/core/geometry.cpp:495-513 | and every byte of that is some element's |
| `FrameMetadata.FillContiguousStrides` | src/core/geometry.cpp:495-513 | the stride loop, including its early return on overflow |
| `FrameMetadata.ContiguousIsRowMajor` | src/core/geometry.cpp:495-513 | inferred strides are row-major if and only if those strides fit in 64 bits |
| `FrameMetadata.FrameDescription.Resolve` | src/core/geometry.cpp:582-642 | resolve in place is the specified result, and failure changes nothing |
| `FrameMetadata.ResolveKeepsWhatWasSet` | src/core/geometry.cpp:582-642 | a resolved frame is valid, only unset size, payload and strides were filled, and every other field is unchanged |
| `FrameMetadata.ResolveIsStable` | src/core/geometry.cpp:582-642 | resolving again changes nothing |
| `FrameMetadata.ResolvedLayoutIsRowMajor` | src/core/geometry.cpp:619-633 | a non-empty array with unset strides becomes row-major inside its payload |
| `FrameMetadata.ResolvedElementsDisjoint` | src/core/geometry.cpp:619-633 | its elements lie inside the payload and do not overlap |
| `FrameMetadata.ResolvedPayloadTiled` | src/core/geometry.cpp:600-633 | with the payload inferred too, every byte of it belongs to an element |
| `FrameMetadata.EmptyArrayMayMissRowMajor` | src/core/geometry.cpp:495-513 | an accepted empty array whose strides are not row-major |
| `StreamRow.ParsePrinted` | src/core/geometry.cpp:238-255 | a printed number parses back under every limit that admits it |
| `StreamRow.SplitOfJoin` | src/core/geometry.cpp:222-236 | splitting undoes joining when no field holds the separator |
| `StreamRow.JoinOfSplit` | src/core/geometry.cpp:222-236 | joining undoes splitting |
| `StreamRow.SplitRow` | src/core/geometry.cpp:222-236 | the scanning loop splits at every separator |
| `StreamRow.VectorReads` | src/core/geometry.cpp:257-280 | a printed four-item vector parses back |
| `StreamRow.PrintVector` | src/core/geometry.cpp:428-435 | the printing loop joins four items with commas |
| `StreamRow.AvailableIffValid` | src/core/geometry.cpp:297-353 | Available exactly when validate is Ok |
| `StreamRow.RowRoundTrip` | src/core/geometry.cpp:355-448 | for every offer: an Ok one comes back if and only if its name holds no separator and its message is the parser's own, any other only if it is what an empty row reads as |
| `StreamRow.ValidOfferRoundTrip` | src/core/geometry.cpp:355-448 | every valid offer with an empty message comes back equal |
| `ReceivePlans.CheckedBytes` | src/core/pinned_ledger.cpp:40-51 | comparing with the quotient detects exactly the products that leave 64 bits |
| `ReceivePlans.DerivedWithinBudget` | src/core/config.cpp:404-431 | a derived plan is valid, within the budget and no larger than the geometry, or there is none |
| `ReceivePlans.IntersectValid` | src/core/config.cpp:381-392 | intersecting valid plans gives a valid one no larger than either |
| `ReceivePlans.UpperPlanWithinBounds` | src/core/config.cpp:172-316 | an accepted configuration's plan is valid, fits budget and caller's buffer, and is no larger than request or offer |
| `ReceivePlans.UpperPlanIsDeepest` | src/core/config.cpp:295-315 | without plan or offer, the ring is the deepest the request and the budget allow |
| `ReceivePlans.WriteBackIsStable` | src/core/subscription.cpp:1219-1222 | writing the plan back changes neither plan nor verdict |
| `ReceivePlans.AdoptedGrantStaysInRing` | src/core/subscription.cpp:171-179 | under any adopted grant every payload lies inside the registered ring, budget and buffer, and different slots do not overlap |
| `Subscriptions.BackoffDelay` | src/core/subscription.cpp:82-94 | the doubling loop gives backoff × 2^attempt capped at the lease, or at one without a lease |
| `Subscriptions.AdoptedAnswersRequest` | src/core/subscription.cpp:131-188 | what is adopted answers the very request it was sent for, with a fitting grant, if and only if the reply is not an Error reporting Ok |
| `Subscriptions.AnswersAreAdopted` | src/core/subscription.cpp:131-188 | every fitting answer is adopted as itself, and not under another correlation id |
| `Subscriptions.ErrorSayingOkIsTaken` | src/core/subscription.cpp:147-153 | an Error reporting Ok is taken for an empty session |
| `Subscriptions.StepKeeps` | src/core/subscription.cpp:698-794 | every step of a subscription's life keeps the log in order |
| `Subscriptions.FreshCorrelations` | src/core/subscription.cpp:971-974 | over any run correlation ids strictly increase and adoption directly follows the Open it answers |
| `Subscriptions.OnlyAnswersAdopted` | src/core/subscription.cpp:359-423 | over any run every adopted session answers its request, exactly unless the reply was an Error reporting Ok |
| `Subscriptions.ClosedBeforeNextOpen` | src/core/subscription.cpp:521-550 | over any run a Close for an adopted session is sent before the next Open |
| `Subscriptions.ChangedArrayFails` | src/core/subscription.cpp:786-790 | a reopened session with another array ends in Failed, and no Open is sent after it |
| `Subscriptions.PublishedArraysAgree` | src/core/subscription.cpp:425-440 | over any run, whatever replies arrive, all published transports describe the same array |
| `Subscriptions.PublishedAnswersOpen` | src/core/subscription.cpp:359-470 | over any run every published transport comes right after the adoption of a successful OpenReply to the Open just sent, with its grant, so the session an Error reporting Ok is taken for is never published |
| `Subscriptions.FailureKeepsFrames` | src/core/subscription.cpp:730-780 | over any run the owner discards nothing after the delivery queue was failed |
| `Subscriptions.FailedLifeFailsQueue` | src/core/subscription.cpp:878-886 | a failed subscription has failed its delivery queue, or its callback threw |
| `Subscriptions.OneOpenPerAttempt` | src/core/subscription.cpp:359-423 | an attempt sends at most one Open |
| `SubscriptionEngine.Subscription.constructor` | src/core/subscription.cpp:327-338 | a new subscription has no session and an empty history |
| `SubscriptionEngine.Subscription.PublishNothing` | src/core/subscription.cpp:826-862 | retiring a transport keeps its geometry and lease and clears the session |
| `SubscriptionEngine.Subscription.Close` | src/core/subscription.cpp:521-550 | a Close goes out exactly when a transport is published, none remains, and its frames are dropped only if asked |
| `SubscriptionEngine.Subscription.EstablishCandidate` | src/core/subscription.cpp:425-518 | mismatch, failed activation (also for an address no endpoint can be made of) and failed probe each close the session again |
| `SubscriptionEngine.Subscription.OpenAttempt` | src/core/subscription.cpp:359-519 | one attempt, branch by branch |
| `SubscriptionEngine.Subscription.Retry` | src/core/subscription.cpp:776-790 | one reconnect attempt, which first drops the old frames, is one step of the life cycle |
| `SubscriptionEngine.Subscription.Reconnect` | src/core/subscription.cpp:750-794 | the retry loop is a run of the life cycle, sends at most max_attempts Opens, and ends with a session up or nothing left open; exhausted attempts and a changed array end in Failed |
| `Striping.LocalIsCount` | examples/example_hdf5_client/example_hdf5_client.cpp:1097-1104 | a block's place in its shard is the number of earlier blocks sent there |
| `Striping.LocateInjective` | examples/example_hdf5_client/example_hdf5_client.cpp:1097-1104 | no two blocks share a place |
| `Striping.ShardsAreDense` | examples/example_hdf5_client/example_hdf5_client.cpp:1097-1104 | every place below a shard's count is some block's |
| `Striping.CountsSumToTotal` | examples/example_hdf5_client/example_hdf5_client.cpp:1106-1117 | the shards together hold every block once |
| `Striping.LocalFrameCounts` | examples/example_hdf5_client/example_hdf5_client.cpp:1106-1117 | the block walk finds each shard's length |
| `Striping.PlaceInjective` | examples/example_hdf5_client/example_hdf5_client.cpp:1132-1147 | no two frames are stored in the same place |
| `Striping.PlaceWithinShard` | examples/example_hdf5_client/example_hdf5_client.cpp:1221-1231 | every frame's place is inside its shard |
| `Striping.ShardSet.Submit` | examples/example_hdf5_client/example_hdf5_client.cpp:1132-1147 | a block's frames go to consecutive places of its shard |
| `Striping.CreateMaster` | examples/example_hdf5_client/example_hdf5_client.cpp:1201-1236 | the mapping loop gives every frame exactly its place in its shard, inside the shard, and nothing past the end |
| `Striping.ShardsHoldFrames` | examples/example_hdf5_client/example_hdf5_client.cpp:1132-1147 | whatever order blocks are written in, each stored frame is in its place |
| `Striping.MasterRestoresOrder` | examples/example_hdf5_client/example_hdf5_client.cpp:1201-1236 | reading frame f through the master's mappings gives frame f of the recording, exactly if its block has been written |

## Left out

- UCX calls, endpoints, registration and placement: sends and receives succeed, stay pending or fail as inputs.
- Weak memory ordering: atomic accesses are sequentially consistent steps.
- Wrap-around of 64-bit tickets, sequences and correlation ids: they are unbounded or stop short of the end.
- Clocks, sleeping, eventfd wakeups, condition variables and thread joining: deadlines and timeouts are inputs.
- Random identifiers: ids are inputs.
- The size gauges of the queues and the drop, taken and discard counters: they synchronise nothing.
- Poisoned-worker quarantine beyond a seat that may stay unusable, and bounded quiesce.
- Seats: two Opens picking a seat at once are not modelled; Opens are serialised. A Renew past its deadline but before the sweep is accepted by the code and changes no seat state.
- AllActive: the gauge pass is one step at its stores; a session ended by a control thread during the pass only makes the stored limit lower until the next pass. A publish call that falls between the stores is one that entered before them and decides after them.
- LosslessArming.LosslessIffWithin: ordinals are taken not to be within one ring of the end of their 64-bit range, where the code's sum for the limit would wrap.
- PublisherEngine.Engine.Publish: a publish call undisturbed by other threads; bad metadata and shutdown only drop the handle, and interleavings are in the step system.
- PublisherEngine.Engine.HandleProbeAck: an arm no publish call disturbs; the interleavings are in the step system.
- PublisherEngine.Engine.BeginExpiry: the state load and the exchange of the end reason are an input; `Seats` models them.
- Credit.ReleaseTracker.Release: bitmap words are lists of 64 bits rather than machine integers with masks.
- BoundedQueues: ring positions use remainder where the code masks by a power of two.
- Delivery: the frame queue is an atomic bounded FIFO, as the ticketed queue provides; eviction accounting under concurrent consumers is not claimed.
- Codec: encoders are written as fields laid end to end, which is what the code's stores at fixed offsets produce; the byte loops themselves are in place.
- DataPlane: fields after the 16-byte prefix are addressed from the prefix's end.
- Subscriptions: adopted replies to Close change nothing and are not modelled; that the queue is emptied or ended is an event here, and what that does is in the delivery model.
- PinnedLedger's process-wide reservation, publisher slot padding, enum names, logging, HDF5 I/O, Tango wrappers, benchmarks: easy or I/O only.
