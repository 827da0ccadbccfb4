# HardCoreVisor: a verified model of its stateful core

This project models, in Dafny 4.11, the parts of HardCoreVisor whose correctness depends on state
that evolves over many calls or many threads, and proves what they guarantee over every run.
`dafny verify dfyconfig.toml` checks all of it.

| file | component |
|---|---|
| `VirtQueue.dfy` | split virtqueue of vmcore: wrapping u16 indices, descriptor chains |
| `IoEngine.dfy`, `BlockRequest.dfy`, `BlockBridge.dfy`, `BlockDisk.dfy`, `BlockBackend.dfy` | virtio-blk to io_uring bridge |
| `EventRing.dfy` | lock-free single-producer single-consumer event ring |
| `Dhcp.dfy` | IP pools of the controller |
| `Storage.dfy` | storage service and its byte accounting |
| `RateLimit.dfy`, `CircuitBreaker.dfy`, `LockManager.dfy` | API and HA guards |
| `FailureDetector.dfy`, `Failover.dfy` | node failure detection and evacuation |
| `VmLifecycle.dfy`, `MirrorRace.dfy`, `Migration.dfy` | VM registries, their mirror, live migration |
| `Common.dfy`, `Arith.dfy`, `Rings.dfy` | shared types, integer facts, ring slots |

How the model is built. An object of the source is a class with its fields; its methods are proved
against functions of the old state (`Fifo`, `Process`, `Apply`, `KvmStep`, ...), and the
guarantees are lemmas about those functions over every sequence of calls. Concurrent code is a step
machine in which each atomic access or locked section is one step, and the guarantees are lemmas over
every schedule. Clocks, the kernel, the guest and the outcome of foreign calls are parameters, so a
lemma without a condition on them holds for everything they can do.

Where a promise turns out false of the code, the code is modelled as it is; there is a lemma that shows
the failure and one that gives the exact condition under which the promise holds:

- A popped head can be lost: a write whose data lengths sum to 2^32 or more panics after the pop, in
  either build (`OversizedWriteIsLost`, `PanicIff`, `CallPanicsIff`, `NothingLostIff`).
- If the kernel keeps an entry whose submit failed, its buffer is gone while it runs
  (`FailedSubmitDropsBuffer`). In a legal run, one whose kernel completes only what it runs, every operation
  has its buffer while a call waits, and kernel and in-flight list hold the same ids, exactly when no pushed
  entry's submit fails (`BuffersHeldIff`, `AlwaysTrackedIff`; step by step `DispatchTracksIff`).
- The completion of such an entry can use up the slot of another one, which leaves a request in flight for
  ever (`FailedSubmitStrandsRequest`, `StrandedForEver`). No completion is discarded exactly when every
  wait sees only completions of requests in flight (`NothingDiscardedIff`, and `NoCompletionDiscarded` when
  no submit fails); a request is never answered, whatever comes, exactly when its operation is neither
  running nor queued (`NeverAnsweredIff`).
- `len` of the event ring can underflow from any state of the ring when called by a third thread
  (`ObserverCanUnderflow`, `OutsiderCanUnderflow`); it is safe exactly for the producer and the consumer
  (`LenSafeIffParty`).
- The address search leaves its range when the range ends at the all-ones address and is full
  (`FullRangeWraps`, `FullRangeLeaks`), hands out addresses of an inverted range (`InvertedRangeLeaks`),
  and on a nil range never ends (`NilRangeNeverEnds`). `MeetsSpecificationIff` gives the exact ranges on
  which it is right, `StopsIff` and `EndsIff` the exact ones on which it ends.
- Pool byte counters go wrong on u64 overflow (`OverflowMiscounts`) and once the 32-bit id counter comes
  round (`IdsWrapAround`) to a volume with bytes (`OverwritingMiscounts`). `ApplyAccountsIff` gives the
  exact operations that keep them right, `AlwaysAccountedIff` the exact runs.
- The breaker's comment promises one probe in the half-open state; the code admits any number
  (`TwoProbesAtOnce`, `AnyNumberOfProbes`), so there is one probe exactly when one call arrives
  (`OneProbeIff`). Thresholds below one break the reading of its state (`StateTellsHistoryIff`).
- The mock core claims the same transition rules as the Rust one; it differs on resuming a Configured VM
  (`ResumeConfiguredDiffers`) and on nothing else (`StepAgreesIff`, `RunsAgreeIff`).
- The backend's mirror of VM states can go stale under concurrent callers (`MirrorCanGoStale`); it can be
  relied on exactly when there is at most one caller at a time (`MirrorSafeIff`).
- A migration can stay "pending" for ever (`PendingForEver`), exactly when the goroutine finds the VM gone
  or already on the target (`LeftPendingIff`). The comment on `MigrationStatus` names a phase
  "transferring" with progress 50; no run ever records it: what is recorded is a beginning of one fixed
  list, or one broken off by a failure (`RecordsThePlan`).
- The fallback target "local" can be the failed node itself (`FallbackIsFailedNode`,
  `TargetIsElsewhereIff`). The comment on failover names two policies to migrate; the code migrates every
  policy but "never" (`UnknownPolicyMoves`), and keeps the comment's promise exactly when nothing is moved
  or no VM that can be moved has another policy (`PolicyPromiseIff`).

## Model

| member | source | states |
|---|---|---|
| `VirtQueue.AlignedIffPowerOfTwo` | vmcore/src/virtio_split_queue.rs:82-86 | a u16 queue size keeps the slot of every wrapped index equal to the slot of the unbounded count if and only if it is a power of two, so the constructor's assertion is exact |
| `VirtQueue.SplitVirtqueue.constructor` | vmcore/src/virtio_split_queue.rs:82-102 | a new queue stands for the empty unbounded queue, with a zeroed descriptor table |
| `VirtQueue.SplitVirtqueue.HasAvailable` | vmcore/src/virtio_split_queue.rs:105-108 | true exactly when published heads are waiting, although it only compares wrapped indices |
| `VirtQueue.SplitVirtqueue.PopAvail` | vmcore/src/virtio_split_queue.rs:112-121 | returns the oldest unconsumed published head, or nothing exactly when there is none, over any number of index wraps |
| `VirtQueue.SplitVirtqueue.PushUsed` | vmcore/src/virtio_split_queue.rs:150-158 | appends to the unbounded used log and lands in the slot of the absolute used count, keeping the last queue_size elements readable |
| `VirtQueue.SplitVirtqueue.PendingCount` | vmcore/src/virtio_split_queue.rs:161-164 | the wrapped difference is the exact backlog |
| `VirtQueue.PendingExactIff` | vmcore/src/virtio_split_queue.rs:161-164 | the modular difference equals the backlog if and only if the backlog is below 65536 |
| `VirtQueue.SplitVirtqueue.Reset` | vmcore/src/virtio_split_queue.rs:167-171 | the queue stands for the empty unbounded queue again |
| `VirtQueue.SplitVirtqueue.GuestPublish` | vmcore/src/virtio_split_queue.rs:46-52 | the driver's publication, within its window of queue_size heads, appends one head and overwrites none that is unconsumed |
| `VirtQueue.Replay` | vmcore/src/virtio_split_queue.rs:80-172 | for every run of publications, pops, used pushes, counts and resets, of any length, the wrapping queue gives exactly the outputs of the unbounded queue |
| `VirtQueue.FirstInFirstOut` | vmcore/src/virtio_split_queue.rs:105-164 | over every run, what the pops since the last reset have returned is a beginning of what was published, the next pop returns the head after it and nothing exactly when all are popped, and the count is what is left |
| `VirtQueue.SplitVirtqueue.WalkChain` | vmcore/src/virtio_split_queue.rs:126-147 | ends for every descriptor table, with at most queue_size + 1 descriptors; of a chain the driver laid out (different descriptors, bit 0 of the flags set in all but the last whatever the other bits, each naming the next) it returns exactly the descriptors, in order |
| `VirtQueue.WalkFindsLaidOut` | vmcore/src/virtio_split_queue.rs:126-147 | the same of the specification's walk, for every table and every such chain |
| `VirtQueue.CutoffIffRevisit` | vmcore/src/virtio_split_queue.rs:137-145 | the cut-off fires if and only if the links from the head revisit an index; otherwise the walk is the maximal link path, without repetition |
| `VirtQueue.EndedPathIsDistinct` | vmcore/src/virtio_split_queue.rs:126-147 | a link path that ends by itself visits no descriptor twice |
| `IoEngine.IoEngine.Submit` | vmcore/src/io_engine.rs:213-304 | an unknown file or a full ring leaves the kernel alone, a failing submit leaves the entry in the ring while reporting an error, and only success raises the two counters |
| `IoEngine.IoEngine.PollCompletions` | vmcore/src/io_engine.rs:308-327 | fills the slice with the oldest completions in order, counts them, and consumes one completion more than it hands out when the slice is full |
| `IoEngine.PollLosesIff` | vmcore/src/io_engine.rs:312-315 | a poll loses a completion if and only if the queue holds more than the slice has room for, and then exactly the first that does not fit |
| `IoEngine.IoEngine.WaitCompletions` | vmcore/src/io_engine.rs:331-336 | an error changes nothing; otherwise the newly finished operations are polled together with the queued ones |
| `BlockRequest.HeaderRoundTrip` | vmcore/src/virtio_blk_io.rs:266-282 | parsing a header packed as sector * 2^32 + type gives the header back |
| `BlockRequest.CollectData` | vmcore/src/virtio_blk_io.rs:286-320 | in either build it panics exactly when the data lengths sum to 2^32 or more, and otherwise returns the concatenation of the per-descriptor segments with their total length |
| `BlockRequest.DataLen` | vmcore/src/virtio_blk_io.rs:323-328 | the sum of the data lengths modulo 2^32, or a panic exactly when it overflows in a build with overflow checks |
| `BlockRequest.DecideRequest` | vmcore/src/virtio_blk_io.rs:142-232 | the branches on the request type reach the decision the lemmas below are about, and what they submit is what the chain asks for |
| `BlockRequest.SubmittedServes` | vmcore/src/virtio_blk_io.rs:142-282 | for every chain, what is submitted is what its descriptors ask for: a read, write or flush by the low 32 bits of the first address, at 512 times the high ones, with the length and bytes of the descriptors between the first and the last |
| `BlockRequest.FillCarries` | vmcore/src/virtio_blk_io.rs:301-317 | the bytes of a write are the segments of its data descriptors one after the other, each filled with the low byte of its address |
| `BlockRequest.DecodedRequest` | vmcore/src/virtio_blk_io.rs:142-232 | header, any data descriptors and status: a read or write is submitted, at its place and with its length or bytes, exactly when it lies on the device and refused with 1 otherwise; a flush is submitted; any other type is refused with 1 |
| `BlockRequest.LaidOutRequest` | vmcore/src/virtio_split_queue.rs:126-147 | the chain of a request laid out in the table is header, data descriptors and status, writable or not, in order |
| `BlockRequest.SubmittedInside` | vmcore/src/virtio_blk_io.rs:143-212 | whatever the guest writes into its descriptors, a submitted operation lies inside capacity_sectors * 512 bytes, its buffer has the announced length and a write carries the data segments |
| `BlockRequest.FitsIffBytesFit` | vmcore/src/virtio_blk_io.rs:148-150 | the rounded-up sector test is exactly the test that the byte range lies inside the device |
| `BlockRequest.AcceptedIffInside` | vmcore/src/virtio_blk_io.rs:142-232 | a read or write with a u32 length is submitted if its byte range is inside the device and answered with 1 if not; unknown types are answered with 1 |
| `BlockRequest.PanicIff` | vmcore/src/virtio_blk_io.rs:290-328 | the exact requests on which processing panics |
| `BlockBridge.HeadsAreConserved` | vmcore/src/virtio_blk_io.rs:123-260 | after any run at all, the multiset of popped heads is the answered ones plus the ones in flight plus the ones lost to a panic, and issued requests are the retired ones plus those in flight |
| `BlockBridge.NothingLostIff` | vmcore/src/virtio_blk_io.rs:123-260 | for every run and every kernel, conservation without losses holds if and only if no published head is oversized in the table it comes with |
| `BlockBridge.CallPanicsIff` | vmcore/src/virtio_blk_io.rs:125-145 | a call panics if and only if one of the heads waiting for it has data lengths that panic |
| `BlockBridge.OversizedWriteIsLost` | vmcore/src/virtio_blk_io.rs:301-317 | a concrete write of two 2^31-byte descriptors is popped and then neither answered nor in flight |
| `BlockBridge.EveryOperationInside` | vmcore/src/virtio_blk_io.rs:143-212 | every entry ever pushed to the kernel, in every run, stays inside the device |
| `BlockDisk.EveryEntryAskedFor` | vmcore/src/virtio_blk_io.rs:123-260 | over every run, whatever guest and kernel do, every entry ever pushed is a request of the guest: type, place, length and bytes are those of a published head's descriptors in the table of some call, and the request under its id carries that head |
| `BlockDisk.FirstAnswer` | vmcore/src/virtio_blk_io.rs:126-232 | a head outside the table is answered with 0 and takes no id; a refused or failed one is answered with 1; an accepted one goes in flight under the next id with its own head; one that panics is neither |
| `BlockDisk.ReadsBackTheWrite` | vmcore/src/virtio_blk_io.rs:142-212 | over every run, carried out in order of submission, a read of the place and length of an earlier write returns that write's bytes if no write in between touched them |
| `BlockDisk.SectorRoundTrip` | vmcore/src/virtio_blk_io.rs:142-212 | for two accepted requests of the guest: n bytes written to a sector and n bytes read from it come back, segment by segment, and bytes the write does not cover stay |
| `BlockBridge.DispatchTracksIff` | vmcore/src/virtio_blk_io.rs:156-176 | kernel ids and in-flight ids stay equal through a dispatch if and only if no pushed entry's submit failed |
| `BlockBridge.AlwaysTrackedIff` | vmcore/src/virtio_blk_io.rs:156-176 | in every legal run, kernel and in-flight list hold the same ids at each wait if and only if no call pushed an entry whose submit failed |
| `BlockBridge.RetireExact` | vmcore/src/virtio_blk_io.rs:244-256 | completions of requests in flight, in any order, each answer the request with their own id, with its head and with its length or 0 on failure, and take exactly those requests out |
| `BlockBridge.WaitIsExact` | vmcore/src/virtio_blk_io.rs:237-257 | with the buffer sized by the in-flight list no completion is discarded, each is retired, and the list gets strictly shorter |
| `BlockBridge.EachRequestRetiredOnce` | vmcore/src/virtio_blk_io.rs:123-260 | over every run at all, failing submits included, retired and in-flight requests are together exactly the issued ones, no id is retired twice and none is retired while in flight |
| `BlockBridge.NoCompletionDiscarded` | vmcore/src/virtio_blk_io.rs:236-257 | over every legal run in which no pushed entry's submit fails, the ids ever pushed to the kernel are exactly those running, those in the completion queue and those retired: no completion is dropped or answers a request other than its own |
| `BlockBridge.NothingDiscardedIff` | vmcore/src/virtio_blk_io.rs:236-257 | over every legal run, failing submits included, that accounting holds after each call if and only if every wait sees only completions of requests in flight |
| `BlockBridge.BuffersOutliveOperations` | vmcore/src/io_engine.rs:210-212 | the safety condition of the unsafe submits at the end of every legal run in which no pushed entry's submit fails: an operation still running in the kernel has its buffer, of exactly its length, held by a request in flight |
| `BlockBridge.BuffersHeldIff` | vmcore/src/io_engine.rs:210-212 | in every legal run, that condition holds at each wait if and only if no call pushed an entry whose submit failed |
| `BlockBridge.IdleCallsDrain` | vmcore/src/virtio_blk_io.rs:235-257 | as many idle calls as there are requests in flight empty the list |
| `BlockBridge.FailedSubmitStrandsRequest` | vmcore/src/virtio_blk_io.rs:238-250 | a concrete legal run with one failing submit after which a request is in flight with nothing left in the kernel, a wait with nothing new published cannot return, and two pushed entries are accounted for nowhere |
| `BlockBridge.StrandedForEver` | vmcore/src/virtio_blk_io.rs:238-250 | that request is still in flight after every legal continuation |
| `BlockBridge.NeverAnsweredIff` | vmcore/src/virtio_blk_io.rs:235-257 | in every run, a request in flight stays there through every legal continuation if and only if the kernel neither runs its operation nor has it in the completion queue |
| `BlockBridge.FailedSubmitDropsBuffer` | vmcore/src/virtio_blk_io.rs:156-169 | a concrete write, running in the kernel after its submit failed, whose buffer no request in flight holds |
| `BlockBackend.VirtioBlkIoBackend.Handle` | vmcore/src/virtio_blk_io.rs:126-232 | one popped head on the real queue and engine has exactly the specified effect on the whole state |
| `BlockBackend.VirtioBlkIoBackend.SubmitPhase` | vmcore/src/virtio_blk_io.rs:124-233 | the pop loop ends and equals the specification's first phase, panics included |
| `BlockBackend.VirtioBlkIoBackend.RetireAll` | vmcore/src/virtio_blk_io.rs:244-256 | the completion loop retires as specified and counts the requests it answered |
| `BlockBackend.VirtioBlkIoBackend.ProcessQueueAsync` | vmcore/src/virtio_blk_io.rs:123-260 | a whole call on the real objects equals the specified call; its result is the number of requests retired |
| `EventRing.FifoUnderEveryInterleaving` | vmcore/src/event_ring.rs:112-152 | under every interleaving of atomic steps, popped events followed by the slots from tail to head are exactly the accepted events in order, and every len of either party is between 0 and the capacity |
| `EventRing.NoSlotWrittenWhileUnread` | vmcore/src/event_ring.rs:117-126 | a producer write never touches an unread slot nor the slot the consumer is about to read |
| `EventRing.RefusalsAreExact` | vmcore/src/event_ring.rs:114-139 | a push is refused exactly when the ring is full at its tail load, a pop finds nothing exactly when it is empty at its head load |
| `EventRing.UndisturbedPush` | vmcore/src/event_ring.rs:112-128 | a push that nothing interrupts appends the stamped event, or changes nothing when full |
| `EventRing.AcceptedWerePushed` | vmcore/src/event_ring.rs:112-128 | under every interleaving, every accepted event is one that was pushed, unchanged but for the timestamp: its own, or the time of the push if it had none |
| `EventRing.UndisturbedPop` | vmcore/src/event_ring.rs:132-145 | a pop that nothing interrupts takes out the oldest event, or changes nothing when empty |
| `EventRing.UndisturbedLen` | vmcore/src/event_ring.rs:148-152 | a len of either party that nothing interrupts is the number of events held |
| `EventRing.LenSafeIffParty` | vmcore/src/event_ring.rs:148-152 | every length a caller can compute, in every run and with every interleaving between its two loads, is between 0 and the capacity if and only if the caller is the producer or the consumer |
| `EventRing.OutsiderCanUnderflow` | vmcore/src/event_ring.rs:148-152 | after any run at all, the two parties can go on so that a third thread that has just loaded head computes a negative length |
| `EventRing.ObserverCanUnderflow` | vmcore/src/event_ring.rs:148-152 | the shortest case: one push and one pop between the two loads of a third thread give it the length -1 |
| `EventRing.EventRingInner.constructor` | vmcore/src/event_ring.rs:100-108 | an empty ring whose capacity is the smallest power of two at or above the requested one |
| `EventRing.EventRingInner.Push` | vmcore/src/event_ring.rs:112-128 | in place: appends the stamped event exactly when there is room |
| `EventRing.EventRingInner.Pop` | vmcore/src/event_ring.rs:132-145 | in place: removes the oldest event exactly when there is one |
| `EventRing.EventRingInner.Len` | vmcore/src/event_ring.rs:148-152 | the number of events held, at most the capacity |
| `Dhcp.IncrementIP` | controller/internal/network/dhcp.go:191-198 | in place, plus one modulo 256^n on the address as a big-endian number |
| `Dhcp.CompareIP` | controller/internal/network/dhcp.go:202-226 | addresses of any lengths: the order of their four-byte forms or of their common prefix, which on addresses of one length and on IPv4 addresses in either form is the sign of the numeric difference |
| `Dhcp.SearchIsLowestFree` | controller/internal/network/dhcp.go:95-115 | on a well-ordered range not ending in the all-ones address, the search returns the numerically smallest free address and gives up if and only if there is none |
| `Dhcp.MeetsSpecificationIff` | controller/internal/network/dhcp.go:95-115 | for ends of one length and for IPv4 ends in different byte forms: the search meets that specification if and only if, on a well-ordered range, it does not end at the last address or still has a free address, and, on an inverted range, the start is taken and, if it is the last address, so is everything the search then looks at before it is past the end |
| `Dhcp.StopsIff` | controller/internal/network/dhcp.go:95-115 | whatever the lengths of its ends, the search ends if and only if some address of the start's length is free or compares past the end |
| `Dhcp.EndsIff` | controller/internal/network/dhcp.go:95-115 | with ends of one length, it ends if and only if the range does not end at the all-ones address or some address of that length is free |
| `Dhcp.NilRangeNeverEnds` | controller/internal/network/dhcp.go:92-115 | a pool whose range ends are nil hands out the nil address once, and the next search never ends |
| `Dhcp.FullRangeLeaks` | controller/internal/network/dhcp.go:92-115 | every full range ending at the all-ones address, where the search ends, hands out an address below its start |
| `Dhcp.FullRangeWraps` | controller/internal/network/dhcp.go:108-114 | the one-address range at the all-ones address, of any positive length, hands out that address and then the zero address |
| `Dhcp.InvertedRangeLeaks` | controller/internal/network/dhcp.go:92-106 | a range with start after end hands out an address if and only if its start is free, or is the all-ones address and some address up to the end is free; the address handed out is one of these and outside the range |
| `Dhcp.Search` | controller/internal/network/dhcp.go:92-115 | the loop over the mutated byte buffer ends and returns what the first stopping candidate says, on every pool on which it ends at all |
| `Dhcp.FindAddress` | controller/internal/network/dhcp.go:78-116 | run on a well-ranged pool, the loop returns the lowest free address or nothing exactly when there is none |
| `Dhcp.ReleaseThenAllocate` | controller/internal/network/dhcp.go:83-147 | after a release the next address is the smaller of the released one and the one that was next |
| `Dhcp.StepKeepsBooks` | controller/internal/network/dhcp.go:59-147 | each operation keeps every pool's taken set equal to its leased addresses, without duplicates and in range, and touches no other pool |
| `Dhcp.EveryRunKeepsBooks` | controller/internal/network/dhcp.go:59-147 | the same after every step of every run from no pools |
| `Dhcp.AssignedIsTheNewLease` | controller/internal/network/dhcp.go:95-106 | in every run, the address a caller is told is the one lease that was not there before, for 24 hours; it was not taken, and on a well-ranged pool it is the lowest free one |
| `Dhcp.AssignedOnce` | controller/internal/network/dhcp.go:83-147 | in every run, two callers of one pool are never told the same address unless it was released in between |
| `Dhcp.ReleasedIsTheOneLease` | controller/internal/network/dhcp.go:121-147 | in every run, a release that succeeds takes out the one lease of that address, leaves the others in order and frees exactly that address |
| `Dhcp.RefusalsTell` | controller/internal/network/dhcp.go:59-135 | in every run, each error reply comes exactly when it is so (pool known, pool unknown, address not leased, no address free on a well-ranged pool) and leaves everything unchanged |
| `Dhcp.AddedPoolIsEmpty` | controller/internal/network/dhcp.go:59-76 | a new pool has the range it was given and nothing leased |
| `Dhcp.DHCPManager.AddPool` | controller/internal/network/dhcp.go:59-76 | a duplicate name is refused, otherwise an empty pool appears |
| `Dhcp.DHCPManager.AllocateIP` | controller/internal/network/dhcp.go:83-116 | one allocation step of the run relation, with its error replies, on every pool on which the search ends |
| `Dhcp.DHCPManager.ReleaseIP` | controller/internal/network/dhcp.go:121-147 | one release step, the lease filtered out by its text form |
| `Dhcp.DHCPManager.ListLeases` | controller/internal/network/dhcp.go:151-163 | the leases of a known pool cover exactly its taken addresses; an unknown pool has none |
| `Storage.EveryRunAccounts` | controller/internal/storage/storage.go:171-424 | over every run that never outgrows a u64 and creates fewer than 2^32 volumes, each pool's UsedBytes is its starting value plus the sizes of its live volumes, and the next id names no live volume |
| `Storage.ApplyAccountsIff` | controller/internal/storage/storage.go:171-424 | from exact counters, an operation keeps them exact if and only if the pool it grows has room below 2^64 and a new id overwrites no volume with bytes |
| `Storage.AlwaysAccountedIff` | controller/internal/storage/storage.go:171-424 | the counters are exact at every point of a run if and only if each of its operations meets that condition where it comes |
| `Storage.OverflowMiscounts` | controller/internal/storage/storage.go:188-190 | a concrete volume of 2^64 - 1 bytes makes its pool read one byte less than before |
| `Storage.IdsAreFresh` | controller/internal/storage/storage.go:181-188 | a run that creates fewer than 2^32 volumes has drawn its ids in order from 1 and the next one names no live volume |
| `Storage.IdsWrapAround` | controller/internal/storage/storage.go:181-188 | a concrete run of 2^32 creations after which the next id names a volume that is still there |
| `Storage.OverwritingMiscounts` | controller/internal/storage/storage.go:181-189 | a concrete run with exact counters, one byte in its first volume, whose next creation overwrites that volume and leaves the counters wrong |
| `Storage.DeleteAccounts` | controller/internal/storage/storage.go:216-234 | deleting a volume always subtracts its size: the underflow guard never skips |
| `Storage.ResizeCounter` | controller/internal/storage/storage.go:357-377 | resizing moves the counter by the difference: the guard never skips and growth is exact unless it wraps |
| `Storage.FailsIffMissing` | controller/internal/storage/storage.go:171-424 | an operation fails exactly when the pool, volume, snapshot or source it names is missing, says which, and then changes nothing |
| `Storage.ReplyNamesTheVolume` | controller/internal/storage/storage.go:171-424 | the id a creation, clone or import replies is the id of exactly the volume that was asked for; nothing else among volumes and snapshots changes |
| `Storage.ReplyIsFresh` | controller/internal/storage/storage.go:181-190 | in a run below 2^32 creations the n-th is told n, which names no live volume |
| `Storage.SnapReplyIsFresh` | controller/internal/storage/storage.go:242-259 | in a run below 2^32 snapshots the n-th is told n, which names no other snapshot |
| `Storage.OthersStay` | controller/internal/storage/storage.go:216-377 | deleting, resizing, taking and deleting snapshots reply as promised and change exactly the named thing; total sizes and the set of pools never change |
| `Storage.DeleteDebits` | controller/internal/storage/storage.go:216-234 | from any store, deleting takes the size off the volume's pool unless its counter is smaller, and touches no other pool |
| `Storage.CreateThenDelete` | controller/internal/storage/storage.go:171-234 | deleting what was just created by the replied id succeeds and restores volumes and counters |
| `Storage.SnapshotThenClone` | controller/internal/storage/storage.go:242-332 | a clone of the replied snapshot has the source's pool, size and format under the new name; once the snapshot is deleted it cannot be cloned |
| `Storage.CloneNeedsSource` | controller/internal/storage/storage.go:284-300 | a snapshot whose volume is deleted cannot be cloned, and the reply says so |
| `Storage.Service.constructor` | controller/internal/storage/storage.go:93-118 | the memory driver's two preset pools with their sizes, no volumes or snapshots, ids from 1 |
| `Storage.Service.CreateVolume` | controller/internal/storage/storage.go:171-191 | the specified new state and reply, unknown pool included |
| `Storage.Service.DeleteVolume` | controller/internal/storage/storage.go:216-234 | the specified new state and reply, unknown volume included |
| `Storage.Service.ResizeVolume` | controller/internal/storage/storage.go:357-377 | the specified new state and reply, with the wrapping addition and the guard |
| `Storage.Service.CreateSnapshot` | controller/internal/storage/storage.go:242-259 | the specified new state and reply |
| `Storage.Service.CloneSnapshot` | controller/internal/storage/storage.go:284-314 | the specified new state and reply, missing snapshot and missing source included |
| `Storage.Service.DeleteSnapshot` | controller/internal/storage/storage.go:320-332 | the specified new state and reply |
| `Storage.Service.ImportVolume` | controller/internal/storage/storage.go:406-424 | the specified new state and reply: a volume of size 0, no counter changed |
| `RateLimit.RateLimiter.Allow` | controller/internal/api/ratelimit.go:43-61 | refill, cap, grant and spend as in the bucket the lemmas are about |
| `RateLimit.RateLimiter.Remaining` | controller/internal/api/ratelimit.go:64-68 | the token count truncated toward zero |
| `RateLimit.AllowedIffEveryWindowHasRoom` | controller/internal/api/ratelimit.go:43-61 | for every sequence of calls in clock order, a call is allowed if and only if every window of calls ending with it stays within burst + rate * duration |
| `RateLimit.WindowBound` | controller/internal/api/ratelimit.go:43-61 | between any two calls, inclusive, at most burst + rate * elapsed are allowed |
| `RateLimit.TokensInRange` | controller/internal/api/ratelimit.go:51-59 | tokens stay between 0 and burst |
| `CircuitBreaker.CircuitBreaker.EntrySection` | controller/internal/resilience/circuit_breaker.go:57-72 | the locked section before the call |
| `CircuitBreaker.CircuitBreaker.ExitSection` | controller/internal/resilience/circuit_breaker.go:76-91 | the locked section after the call |
| `CircuitBreaker.EveryRunTellsHistory` | controller/internal/resilience/circuit_breaker.go:56-92 | in every interleaving, failureCount is the trailing run of failed completions, lastFailure the time of the latest one, and the state is Closed if and only if that run is below the threshold |
| `CircuitBreaker.AdmittedIff` | controller/internal/resilience/circuit_breaker.go:59-70 | in every interleaving a call is admitted if and only if the trailing run is below the threshold or the latest failure is more than resetTimeout ago |
| `CircuitBreaker.OpenRejectsUntilTimeout` | controller/internal/resilience/circuit_breaker.go:60-67 | after a run of failures at the threshold the breaker is open and rejects every call for the whole timeout |
| `CircuitBreaker.StateTellsHistoryIff` | controller/internal/resilience/circuit_breaker.go:45-92 | that reading of the fields holds in all runs if and only if the threshold is at least one |
| `CircuitBreaker.TwoProbesAtOnce` | controller/internal/resilience/circuit_breaker.go:68-70 | a concrete run with two calls admitted in the half-open state at once |
| `CircuitBreaker.AnyNumberOfProbes` | controller/internal/resilience/circuit_breaker.go:59-72 | n calls after the timeout are n probes, for every n |
| `CircuitBreaker.OneProbeIff` | controller/internal/resilience/circuit_breaker.go:59-72 | of the calls that arrive before a completion at a breaker that is not closed, at most one passes if and only if at most one arrives when it is half-open, or after the timeout when it is open |
| `LockManager.MutualExclusion` | controller/internal/ha/lock.go:119-145 | in every interleaving at most one thread holds a key |
| `LockManager.MutexNeverReplaced` | controller/internal/ha/lock.go:120-126 | the mutex of a key, once created, stays that key's mutex for ever |
| `LockManager.TakenIffNobodyHolds` | controller/internal/ha/lock.go:128-145 | a thread about to lock a key gets it if and only if no thread holds that key, whatever is held on other keys; a try returns at once either way |
| `LockManager.CallGetsItsKey` | controller/internal/ha/lock.go:119-145 | from every reachable state with the manager free, a call for a key gets that key if nobody holds it, whatever is held on other keys; otherwise a blocking call waits for it and a try returns; nobody else is affected |
| `LockManager.WaiterGetsItsKey` | controller/internal/ha/lock.go:119-130 | a waiting call stays until the holder unlocks and then has its key with its next step |
| `LockManager.KeyIsTheOneCalledFor` | controller/internal/ha/lock.go:119-145 | in every interleaving, the key a thread wants, waits for or holds is the one of its last call |
| `LockManager.ManagerAlwaysReleased` | controller/internal/ha/lock.go:120-126 | whoever holds the manager mutex is never blocked and releases it within two of its own steps |
| `LockManager.UnlockFrees` | controller/internal/ha/lock.go:102-129 | after unlock nobody holds the key |
| `FailureDetector.FailureDetector.constructor` | controller/internal/ha/heartbeat.go:123-130 | the threshold is three heartbeat intervals and nothing is marked |
| `FailureDetector.FailureDetector.CheckNodes` | controller/internal/ha/heartbeat.go:173-217 | the loop over the listing has the specified effect; a failing listing has none |
| `FailureDetector.ReportsAlternate` | controller/internal/ha/heartbeat.go:193-215 | in every run, for each node, down-reports and recoveries strictly alternate beginning with a report, and the mark tells which came last |
| `FailureDetector.NoFalseReports` | controller/internal/ha/heartbeat.go:186-209 | a node never both online and past the threshold at a check is never reported |
| `FailureDetector.SilentNodeIsReported` | controller/internal/ha/heartbeat.go:123-217 | however irregular the checks, an online node that stays silent is reported down exactly once, by the first check past the threshold and not before, and is not recovered while it stays silent |
| `FailureDetector.ReportedWithinFourIntervals` | controller/internal/ha/heartbeat.go:123-161 | when checks are never more than one interval apart, the first one past three intervals comes within four |
| `FailureDetector.HeartbeatClears` | controller/internal/ha/heartbeat.go:210-215 | the check that sees a returning heartbeat clears the mark and logs one recovery of that node and no report |
| `FailureDetector.WhatAnEntryDoes` | controller/internal/ha/heartbeat.go:186-215 | a fenced entry changes nothing, an online overdue one reports an unmarked node, one seen in time clears a mark whether online or offline, and nothing else happens |
| `FailureDetector.MarkOfAbsentNode` | controller/internal/ha/heartbeat.go:186-215 | a marked node that is fenced keeps its mark, one that is offline loses it exactly when seen within the threshold, and neither is reported |
| `Failover.SelectTargetNode` | controller/internal/ha/failover.go:157-178 | the search loop finds the first online node other than the excluded one, the fallback "local" or nothing |
| `Failover.TargetIsTheFirst` | controller/internal/ha/failover.go:172-176 | the target is the first node of the listing that is online and not the failed one |
| `Failover.TargetWithoutNodes` | controller/internal/ha/failover.go:162-178 | without a listing the target is "local" whichever node failed, and with no such node in it there is none |
| `Failover.TargetIsElsewhereIff` | controller/internal/ha/failover.go:157-178 | the target differs from the failed node except when the fallback "local" is that node |
| `Failover.FallbackIsFailedNode` | controller/internal/ha/failover.go:162-164 | a concrete failover without a driver that moves a VM of the failed node "local" to that same node |
| `Failover.UnknownPolicyMoves` | controller/internal/ha/failover.go:115-125 | a concrete VM with a policy of another name is moved, where the comment promises it stays |
| `Failover.PolicyPromiseIff` | controller/internal/ha/failover.go:71-154 | the placement is the one the comment promises (only "always", "on-failure" and the default move) if and only if nothing is moved or no VM that can be moved has a policy other than those and "never" |
| `Failover.LeaderEvacuates` | controller/internal/ha/failover.go:75-154 | with a listing, another online node and successful migrations, a leader leaves exactly the "never" VMs, moves all others of the failed node to one online node and changes nothing else |
| `Failover.NothingMovesIff` | controller/internal/ha/failover.go:76-125 | nothing changes if and only if the caller is not leader, has no target, or has no VM it may and can move |
| `Failover.MigrateAffected` | controller/internal/ha/failover.go:115-153 | the migration loop moves each affected VM once, by handle, and no other |
| `Failover.HandleNodeDown` | controller/internal/ha/failover.go:75-154 | the whole handler has the specified effect on placement, all early returns included |
| `VmLifecycle.StepAgreesIff` | controller/pkg/ffi/mock.go:137-229 | from registries in step, an operation gives the same result in both cores if and only if it does not resume a Configured VM, and leaves them in step under the same condition |
| `VmLifecycle.RunsAgreeIff` | vmcore/src/kvm_mgr.rs:161-337 | over every run, mock and Rust give the same handles, states and error codes if and only if the run never resumes a Configured VM; then the registries agree as well |
| `VmLifecycle.DriveBoth` | controller/pkg/ffi/mock.go:137-229 | any run driven through both objects: their answers are the same if and only if it never resumes a Configured VM |
| `VmLifecycle.ResumeConfiguredDiffers` | controller/pkg/ffi/mock.go:200-213 | a concrete run on which they differ |
| `VmLifecycle.RulesAgree` | vmcore/src/kvm_mgr.rs:62-74 | the two transition tables are the same under the state codes |
| `VmLifecycle.NoResurrection` | vmcore/src/kvm_mgr.rs:161-214 | a destroyed handle never names a VM again and a stopped VM stays stopped until destroyed |
| `VmLifecycle.WholeLife` | vmcore/src/kvm_mgr.rs:161-214 | create, configure, start, pause, resume, stop and destroy all succeed on a new handle, with the states 0, 1, 2, 3, 2, 4 read back and the handle unknown in the end |
| `VmLifecycle.OnlyItsOwnVm` | controller/pkg/ffi/mock.go:137-229 | a call on one handle leaves every other VM alone, in either core |
| `VmLifecycle.ErrorsTell` | vmcore/src/panic_barrier.rs:40-42 | an error is -4 for an unknown handle and -5 for a forbidden state, in either core, and changes nothing |
| `VmLifecycle.NamesOfStates` | controller/pkg/ffi/mock.go:233-248 | the five states of the registry are shown as "created", "configured", "running", "paused" and "stopped" |
| `VmLifecycle.KvmManager.CreateVm` | vmcore/src/kvm_mgr.rs:161-174 | the next handle, in state Created |
| `VmLifecycle.KvmManager.DestroyVm` | vmcore/src/kvm_mgr.rs:184-190 | removal, or not found |
| `VmLifecycle.KvmManager.ConfigureVm` | vmcore/src/kvm_mgr.rs:235-249 | only from Created |
| `VmLifecycle.KvmManager.TransitionVm` | vmcore/src/kvm_mgr.rs:201-214 | only along the transition table |
| `VmLifecycle.KvmManager.Perform` | vmcore/src/kvm_mgr.rs:260-337 | each foreign entry point has the specified effect and reply; resume is a transition to Running |
| `VmLifecycle.MockVMCore.CreateVM` | controller/pkg/ffi/mock.go:137-146 | the next handle, in state 0 |
| `VmLifecycle.MockVMCore.DestroyVM` | controller/pkg/ffi/mock.go:148-156 | removal, or not found |
| `VmLifecycle.MockVMCore.ConfigureVM` | controller/pkg/ffi/mock.go:158-172 | only where the table allows state 1 |
| `VmLifecycle.MockVMCore.TransitionVM` | controller/pkg/ffi/mock.go:174-186 | only along the table |
| `VmLifecycle.MockVMCore.ResumeVM` | controller/pkg/ffi/mock.go:200-213 | only from state 3 |
| `VmLifecycle.MockVMCore.GetVMState` | controller/pkg/ffi/mock.go:215-223 | the state code, or not found |
| `VmLifecycle.MockVMCore.Perform` | controller/pkg/ffi/mock.go:137-229 | each operation of the interface has the specified effect and reply |
| `VmLifecycle.RunKeepsCodes` | controller/pkg/ffi/mock.go:79-213 | the mock stays within the five state codes in every run |
| `VmLifecycle.MirrorDeterminesCore` | controller/internal/compute/compute.go:193-207 | the state names of the mirror determine the states of the core: the name map loses nothing |
| `VmLifecycle.RustVMMBackend.CreateVM` | controller/internal/compute/compute.go:153-179 | always succeeds with the core's next handle, configured, and the mirror still agrees with the core |
| `VmLifecycle.RustVMMBackend.DestroyVM` | controller/internal/compute/compute.go:181-189 | the core's result, and the mirror still agrees with the core |
| `VmLifecycle.RustVMMBackend.ActionVM` | controller/internal/compute/compute.go:193-223 | start, stop, pause and resume give the core's result, the caller then sees "running", "stopped", "paused" or "running", an error leaves the mirror alone, and the mirror still agrees with the core in handles, states and configuration |
| `MirrorRace.MirrorCanGoStale` | controller/internal/compute/compute.go:193-207 | with two callers or more, a concrete interleaving after which no call is under way and the mirror says "running" of a paused VM |
| `MirrorRace.MirrorSafeIff` | controller/internal/compute/compute.go:181-223 | over every interleaving of start, stop, pause, resume and destroy, the mirror agrees with the core whenever no call is under way if and only if there is at most one caller |
| `MirrorRace.CallsEnd` | controller/internal/compute/compute.go:181-207 | a call under way ends within two steps of its caller |
| `Migration.MigrationIsOrderly` | controller/internal/compute/compute.go:559-744 | under every interleaving with cancellation and other changes, phases only move forward, progress never decreases and is one of seven values, a run that recorded its pre-check ends completed or failed, and one that saw the cancellation failed without writing the node |
| `Migration.WhatARequestGets` | controller/internal/compute/compute.go:559-588 | a request starts a migration exactly for a known VM that runs on another node; every other one is told what is wrong |
| `Migration.RecordsThePlan` | controller/internal/compute/compute.go:648-744 | under every interleaving, what is recorded is a beginning of the list pending 0, pre-check 0, transfer 0, 10, 30, 60, 90, switchover 95, completed 100, or a beginning up to the last poll and then a failure; it is the whole list exactly when the run completed |
| `Migration.EarlyCancelWins` | controller/internal/compute/compute.go:648-726 | a cancellation at any point before the last poll, the goroutine's first step included, keeps the run from ever writing the node; it ends failed, or pending if the pre-check was never recorded |
| `Migration.CancelTakesEffect` | controller/internal/compute/compute.go:610-629 | a cancellation requested before the last poll keeps the run from switching over, writing the node or completing; one requested after the end changes nothing |
| `Migration.LateCancelIgnored` | controller/internal/compute/compute.go:728-743 | after the last poll the run completes whatever is cancelled |
| `Migration.EveryRunEnds` | controller/internal/compute/compute.go:648-744 | sixteen steps of the goroutine end the run under any interleaving |
| `Migration.LeftPendingIff` | controller/internal/compute/compute.go:648-689 | for every interleaving, at every point after the goroutine's third step, the status is pending if and only if the first step found the VM gone, or the second found it gone or running on the target |
| `Migration.PendingForEver` | controller/internal/compute/compute.go:595-655 | a VM removed before the goroutine starts leaves the status pending whatever comes later |
| `Migration.NodeFollowsOutcome` | controller/internal/compute/compute.go:728-744 | when nobody else touches the VM, it ends on the target if and only if the status is completed, which it is unless cancelled |

## Left out

- The kernel is abstract: running operations finish in any order, at least one is visible when a wait returns, and a pushed entry whose submit failed may still run.
- The guest publishes heads and rewrites descriptors between processing calls, not during the pop loop; its memory accesses are sequentially consistent, and so are the event ring's atomics.
- Event-ring head and tail, request ids and VM handles do not wrap: they are unbounded. Volume and snapshot ids are their numbers, taken modulo 2^32.
- Event-ring capacities above 2^31, for which rounding to a power of two overflows, are outside the model of `EventRingInner`.
- VirtioBlkIoBackend: opening and registering the backing file cannot fail in the model, and the bytes a read puts into its buffer are those of `BlockDisk`'s disk, with operations carried out one after the other.
- Dhcp.SearchIsLowestFree: stated for ends of one length; `MeetsSpecificationIff` also covers IPv4 ends of which one has four bytes and the other sixteen.
- Dhcp.MeetsSpecificationIff: ends of different lengths that are not both IPv4 are left out, since the code then compares a common prefix and the range has no numeric meaning.
- Dhcp.Search: requires a pool on which the loop ends, and `StopsIff` shows that this is the exact condition; on others it runs for ever with the lock held.
- Dhcp.DHCPManager.AllocateIP: the same condition on the named pool, if there is one.
- Dhcp: the text form of an address is represented by the bytes it stands for. Subnet, gateway and dnsmasq text are omitted.
- RateLimit: floating point is modelled by exact reals.
- LockManager and CircuitBreaker: the etcd mode of locks, and names and logging, are omitted.
- FailureDetector: the callback list is one log entry per down-report; the heartbeat sender and the store are the listings given to each check.
- Failover.HandleNodeDown: leadership, the node listing and the outcome of each migration, with the lock around it, are inputs.
- Storage: pools, volumes and snapshots are values, so pointers handed out to callers and changes made through them are not modelled; listing, export and rollback, and the ZFS and Ceph drivers, are omitted.
- RustVMMBackend: modelled over the mock core; the class is under sequential use, and `MirrorRace` has the concurrent callers, without creation.
- Migration: one migration of one VM with one registered backend; two migrations of the same VM at once share a status entry and are not modelled. Sleeps and timestamps are omitted.
- VmLifecycle: initialisation and shutdown of the cores are omitted; the mock's shutdown empties its registry and the Rust one does not. The name of a state code outside 0 to 4, which no run reaches, is not spelled out with its number.
- QEMU and LXC backends, the backend selector, KVM ioctls, boot, memory and vCPU managers, virtio-net, and the FFI wrappers are omitted.
- The REST and gRPC layers, authentication, persistence, backup, templates, tasks and the user interfaces are omitted: they add only easy members.
