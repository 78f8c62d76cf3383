# Models of QEMU's block layer, migration, memory map, dump and TLB code

This project models the parts of a QEMU 1.5.3 derivative whose correctness rests on
invariants that no single function shows, and proves those invariants.  Each
component has a value-level specification (functions and state machines), theorems
about it, and, where the C code works by updating state, a class or method in the
same form that is proved to compute the specification.

`dafny verify dfyconfig.toml` checks everything.

## Components

**Tracked requests** (`TrackedRequests`, `BlockProtocol`, `BlockProgress`,
`BlockScripts`, `RequestList`).  Any number of coroutine requests share a device.  A
request is a script of marks, waits, driver reads and driver writes; one event takes a
request from one yield to the next, and driver I/O moves bytes one at a time,
interleaved with everything else, and may fail.  The scripts of reads, copy-on-read,
writes and zero writes are derived from the C functions for every offset, length,
alignment and cluster size, and all of them satisfy the discipline the protocol
theorems ask for.  `RequestList` is the same device with its fields updated in place:
whatever events it handles, its state is one the machine reaches.

**Unaligned and zero writes** (`UnalignedWrite`).  One request on a byte-sequence
disk with an aligned-only driver that may return errors.

**Throttling** (`Throttle`, `ThrottleRuns`).  The slice-based rate limiter with live
limit changes.  `double` is `real`, the casts to whole nanoseconds are floors.

**Pre-copy migration** (`ByteWords`, `Xbzrle`, `MigrationBitmap`, `BitmapWords`,
`SyncWidth`, `Precopy`, `PrecopySafety`, `PrecopySweep`, `PrecopyRuns`, `PrecopyEnds`,
`PrecopyLoss`, `PrecopyTally`, `PrecopyCounter`, `RamSaver`).  The guest writes between and during the
passes of `ram_save_block`, and what the migration thread reads of a page that is being
written is arbitrary.  A page queued without a copy reaches the wire at some later
moment, with the content it has then, or any content if the guest writes it meanwhile.

**Migration stream** (`Numbers`, `RamStream`, `RamRoundTrip`, `RamRefusals`, `RamLoader`,
`PrecopyWire`, `RamDelivery`).  The bytes of the stream, the receiver on arbitrary
input, the round trip, and the whole way from the pre-copy machine through the bytes to
the receiver's memory: after a completed migration it is the source's.

**Physical page map** (`Slots`, `PhysTree`, `PhysMap`, `Dispatch`, `DispatchSteps`,
`MemAdd`).  The radix tree as a tree, as an array of rows reached by index, the
subpage tables, `mem_add`, and a whole update of the map from `mem_begin` on.  Fan-out,
number of levels and page size are parameters.

**RAM blocks** (`RamAlloc`).  Best-fit placement, the ordered list, and the lookup with
its remembered block.

**Dumps** (`ElfLayout`, `KdumpFile`, `KdumpBitmap`, `KdumpPages`, `KdumpLayout`, `Kdump`).  The memory
area of an ELF dump and its program header offsets; the kdump-compressed file as
positioned records, with an abstract compressor that undoes itself.

**Soft TLB** (`SoftTlb`).  Tags and the large-page region as 64-bit vectors.

## Where the code does not meet the obvious property

- **A dirty page can be dropped at the end of the bulk stage.**  The bulk shortcut does
  not look at the page under the cursor, and the exit test comes after the bit was
  cleared.  `PrecopyRuns.BulkCallDropsIff` gives the exact condition, `PrecopyEnds.LostPage`
  the effect, and `PrecopyLoss.PageIsLost` a complete run; all whole-run theorems hold
  for every run that never calls `ram_save_block` in that state.
- **Syncing a page at a time numbers bits by an `int`.**  A dirty page from number 2^31
  on, in a block that does not start on a word boundary, leaves the log and sets another
  bit, or none of the bitmap: `SyncWidth.FarPageIsLost` is an instance,
  `SyncWidth.SyncLosesNothingIff` says exactly which logs lose a page,
  `SyncWidth.SyncExactIff` for exactly which layouts of RAM every sync is right, and
  `SyncWidth.MisplacedIsUnsafe` what it does to a migration.  That condition on the layout
  is part of a valid configuration in the whole-run theorems; layouts in which every such
  block ends at page 2^31 or before, and word numbers fit an `int`, meet it
  (`MigrationBitmap.IndexableHomed`).
- **The offsets of a kdump file are computed in 32 bits.**  Bitmaps and pages land behind
  the headers and apart from each other if and only if the last offset is below 2^32
  (`KdumpLayout.FitsIff`, `KdumpLayout.SeparateIff`); with 4096-byte pages and a last page
  frame at 64 TiB the descriptors overwrite the first bitmap
  (`KdumpLayout.DescriptorsOverBitmap`).
- **Syncing a word at a time may count bits beyond the end of RAM.**
  `MigrationBitmap.SyncIsPageByPage` states exactly when one sync keeps the counter
  right, `MigrationBitmap.StrayBitMiscounts` is an instance where it does not, and
  `PrecopyCounter.CounterExactIff` is the exact condition over whole migrations: no
  stray bit in the log at the start.
- **Switching throttling off drops the current slice**, so the rate bound does not
  survive an off/on change; `ThrottleRuns.InterruptedRunExceedsRate` shows it, and
  `ThrottleRuns.RateBound` says for which runs the bound holds.
- **A request refused exactly at the end of its slice may stall**;
  `Throttle.BpsRetry` is an if-and-only-if, and `Throttle.RetryStalls` a request that is
  refused with no wait and leaves the slice as it was.
- **RAM reached through a subpage loses its region**: the resolved region is the
  built-in subpage-RAM region, with the offset unchanged.  `DispatchSteps.RegionKeptIff`
  says exactly when, `DispatchSteps.SmallRamLosesRegion` gives an instance.
- **A malformed delta overwrites part of its page before it is noticed**; the decoder's
  specification gives the page it leaves in either case.
- `register_subpage` is called with an empty range when a small section starts on a
  page boundary; the 32-bit end then wraps and the table is left alone.

## Model

| member | source | states |
|---|---|---|
| TrackedRequests.Scan | block.c:2261-2303 | the wait loop stops at the first tracked request, newest first, that conflicts and is not itself waiting; none is passed over |
| TrackedRequests.OverlapsIff | block.c:2247-2259 | two non-empty ranges pass the overlap test if and only if they share a byte |
| BlockProtocol.StepInv | block.c:2164-2303 | every event of every interleaving keeps the protocol invariant: exact counter, exclusive holders, current padding, ordered waiting |
| BlockProtocol.ReachableInv | block.c:2164-2303 | the invariant holds in every reachable state |
| BlockProtocol.MutualExclusion | block.c:2261-2303 | of two requests in I/O, none is serialising with a hull that overlaps the other's: the byte ranges they announced have no byte in common |
| BlockProtocol.WaitsForNeighbours | block.c:2261-2303 | a request only ever waits for one whose announced range shares a byte with its own, and one that shares no byte with any other does not wait |
| BlockProtocol.HolderNeverBlocks | block.c:2261-2303 | a serialising request that has passed a wait finds nothing to wait for in any later wait |
| BlockProtocol.NoLostUpdates | block.c:3217-3340 | in every reachable state the only disk byte an event can change is one its own request was asked to change, to the value asked for; padding and copied clusters put back what the disk holds |
| BlockProtocol.CompletedWrite | block.c:3217-3340 | a write that completes has stored all its bytes, and if it was serialising from its first store they are on the disk when it ends |
| BlockProtocol.CompletedRead | block.c:2823-2896 | a read that completes has every byte of its range in its buffer |
| BlockProtocol.ReadFromDisk | block.c:2823-2896 | what a request has in its buffer is what the disk held when, at some step of the run, the driver read that byte for it |
| BlockProtocol.CompletedCopy | block.c:2752-2816 | a copy-on-read request that completes has read and stored every byte of its range, with the content the disk holds |
| BlockProtocol.EarlyReturnAgrees | block.c:2261-2270 | returning early on a zero counter gives the answer of the full scan |
| BlockProgress.WaitAssertsHold | block.c:3094-3097 | a request blocked in the write path's wait is not serialising, and no blocked request has read data it will write back |
| BlockProgress.IoInsideHull | block.c:2198-2211 | all driver I/O of a request stays inside the hull it announced |
| BlockProgress.SerialisingReadIsCurrent | block.c:2752-2816 | what copy-on-read has read is still the disk content when it is written back |
| BlockProgress.CounterIsExact | block.c:2164-2211 | serialising_in_flight is the number of tracked serialising requests in every reachable state |
| BlockProgress.NoWaitCycle | block.c:2287-2300 | no chain of waiting_for pointers returns to its start |
| BlockProgress.SomeoneCanMove | block.c:2261-2303 | while a request is tracked, some request can move without a new arrival and without an error |
| BlockProgress.RunsAreFinite | block.c:2261-2303 | without arrivals a run is no longer than a bound computed from its first state |
| BlockProgress.StuckMeansDrained | block.c:2261-2303 | a state in which nothing can move has no request left |
| BlockScripts.ReadScriptOk | block.c:2823-2896 | a plain read, for every shape, satisfies the discipline of the protocol and will read every byte asked for |
| BlockScripts.CorHitScriptOk | block.c:2823-2864 | a copy-on-read request whose data is already allocated satisfies it and will read every byte asked for |
| BlockScripts.CorScriptOk | block.c:2752-2816 | reading and writing back a whole cluster range, at once or in chunks, satisfies it, reads every byte of the request and stores every byte of the clusters |
| BlockScripts.CorCopyOk | block.c:2752-2816 | the cluster range computed from request, cluster size and alignment lies in the marked hull, so the script of every copy-on-read request satisfies the discipline |
| BlockScripts.WriteScriptOk | block.c:3217-3340 | a write with unaligned head and tail, merged or apart, satisfies the discipline and will store every byte it was given |
| BlockScripts.ZeroScriptOk | block.c:3126-3212 | a zero write with head, chunked middle and tail satisfies the discipline and will zero every byte of its range |
| BlockScripts.ReadScriptExact | block.c:2823-2896 | a plain read reads exactly the bytes asked for, stores none and never serialises |
| BlockScripts.WriteScriptExact | block.c:3217-3340 | a write stores exactly the blocks it touches, reads exactly the blocks at its two ends that it touches in part, and serialises if and only if there is one |
| BlockScripts.CorScriptExact | block.c:2752-2816 | copy-on-read reads and stores exactly the cluster range |
| BlockScripts.ZeroScriptExact | block.c:3126-3212 | the same of a zero write, whatever the chunks of its middle part |
| BlockScripts.IssuedMayBegin | block.c:2901-2968 | every request the block layer issues may begin in every state, so the protocol theorems cover all of them |
| RequestList.BlockDriverState.TrackedRequestBegin | block.c:2177-2196 | the request is put in front of the list with the range asked for, not serialising and not waiting; the others stay; that is the state machine's step |
| RequestList.BlockDriverState.TrackedRequestEnd | block.c:2164-2172 | exactly this request is unlinked, and the counter goes down if it was serialising; that is the state machine's step |
| RequestList.BlockDriverState.MarkRequestSerialising | block.c:2198-2211 | the counter goes up on the first mark only, and the range becomes the hull of what it was and the range rounded out to the alignment; that is the state machine's step |
| RequestList.BlockDriverState.FindBlocker | block.c:2261-2303 | the loop over the list finds what the scan finds: another request, not waiting, one of the two serialising, with a range that overlaps |
| RequestList.BlockDriverState.Enter | block.c:2198-2303 | a coroutine's marks and waits, up to its next yield or its end, change the fields as the machine's run does |
| RequestList.BlockDriverState.Handle | block.c:2164-2303 | handling any event is the machine's step, and a device that starts idle stays in states the machine reaches, so all protocol theorems hold of it |
| UnalignedWrite.ChunkProgress | block.c:3007-3041 | each chunk of a zero write is non-empty, inside the request, under the cap the driver or the default of 32768 sectors sets, ends aligned unless the cap or the request ends it, and is as long as that allows |
| UnalignedWrite.BlockDevice.WriteZeroChunk | block.c:3038-3075 | one chunk zeroes exactly its sectors or fails without change; a bounce buffer kept for later is long enough for every later chunk |
| UnalignedWrite.BlockDevice.DoWriteZeroes | block.c:3007-3075 | the chunk loop terminates and zeroes exactly the requested sectors, or a prefix of them with an error |
| UnalignedWrite.BlockDevice.AlignedPreadv | block.c:2823-2896 | an aligned read returns exactly the bytes of the range |
| UnalignedWrite.BlockDevice.AlignedPwritev | block.c:3080-3121 | an aligned write stores exactly the data, or exactly zeroes for a zero write; on an error all, nothing, or a zeroed prefix; without a write cache the device is flushed when it succeeds |
| UnalignedWrite.BlockDevice.PadHead | block.c:3258-3287 | the head block is read so that what is written starts on a boundary with the bytes already there |
| UnalignedWrite.BlockDevice.PadTail | block.c:3289-3324 | the same for the last block |
| UnalignedWrite.BlockDevice.Pwritev | block.c:3217-3340 | for every offset, length and alignment exactly a plain byte write; on an error all or nothing; a request inside a device of whole blocks fails only if the driver does; without a write cache all is flushed when it succeeds |
| UnalignedWrite.BlockDevice.ZeroPwritev | block.c:3126-3212 | for every offset, length and alignment exactly zeroing of the range; on an error a prefix of it; inside a device of whole blocks it fails only if the driver does; without a write cache all is flushed when it succeeds |
| UnalignedWrite.BlockDevice.ZeroHead | block.c:3126-3175 | an unaligned head is zeroed through the block around it, touching no other byte |
| UnalignedWrite.BlockDevice.ZeroFromBoundary | block.c:3177-3207 | from a boundary on, whole blocks are zeroed directly and the rest through its block |
| Throttle.WithinExact | block.c:4427-4449 | the floating-point comparison is a comparison of whole numbers |
| Throttle.AdmittedIff | block.c:4407-4567 | a request is admitted if and only if, for bytes and for operations, it is unlimited or what its slice holds for it, both directions under a total limit and its own otherwise, and the request together stay within limit times slice length |
| Throttle.DirectionsIndependent | block.c:4427-4433 | without total limits, what the other direction has submitted makes no difference to a verdict |
| Throttle.DirectionCapHolds | blockdev.c:301-311 | in accepted limits a limit on one direction is the one that applies to it |
| Throttle.BpsWaitNonNegative | block.c:4451-4467 | the wait of a refused bandwidth check is never negative and the slice is stretched past it |
| Throttle.BpsWaitExact | block.c:4451-4467 | the wait is the time the demand needs at the limit, rounded down, minus the time gone by |
| Throttle.IopsWaitExact | block.c:4470-4519 | the wait is the time one more operation needs at the limit, rounded down, minus the time gone by, and the slice grows by 100 ms |
| Throttle.RefusalReachesRetry | block.c:4522-4556 | a refusal keeps the counts and leaves a slice that ends no earlier than the moment of the retry |
| Throttle.BpsRetry | block.c:4407-4467 | exactly when a request refused by the bandwidth check is refused again on retry in the same slice |
| Throttle.RetryStalls | block.c:4451-4467 | a write refused on the last nanosecond of its slice with a wait of nothing, leaving the slice unchanged, so that every immediate retry is refused |
| Throttle.BpsPassesOnRetry | block.c:4407-4467 | a request refused strictly before the end of the slice passes the bandwidth check on retry |
| Throttle.IopsRefusesAtMostTwice | block.c:4470-4519 | the operation check refuses such a request at most twice, truncation included |
| Throttle.AdmittedByThirdTry | block.c:4522-4567 | both checks together admit it by its second retry |
| Throttle.ThrottledDevice.ExceedBpsLimits | block.c:4407-4467 | refuses if and only if the bytes so far and the request together exceed limit times slice length, counting both directions only under a total limit; a pass changes nothing; wait and slice end of a refusal are the exact ones |
| Throttle.ThrottledDevice.ExceedIopsLimits | block.c:4470-4519 | the same for operations; a refusal stretches the slice by 100 ms |
| Throttle.ThrottledDevice.ExceedIoLimits | block.c:4522-4567 | a request is refused if and only if either limit cannot afford it; the slice is renewed if it is over; an admitted request is added to the counts of its direction, a refused one changes neither; wait and slice end as specified |
| Throttle.ThrottledDevice.SetIoThrottle | blockdev.c:1292-1327 | limits are accepted if and only if none is negative and neither bytes nor operations have a total limit beside one for a direction; rejected limits change nothing; accepted ones take effect, throttling is on exactly if one is set, and the slice is kept unless that switches it off |
| ThrottleRuns.AdmissionWithinLimit | block.c:4522-4567 | after any live change, an admission leaves the slice total within the limit in force times the slice length |
| ThrottleRuns.SlicesBound | block.c:4522-4567 | over every run, what was admitted is at most the bound times the total length of the slices |
| ThrottleRuns.RateBound | block.c:4522-4567 | in every run whose slices never overlap, total admitted is at most bound times the time from the first slice start to the latest slice end, for bytes and operations, total and per direction |
| ThrottleRuns.UninterruptedRateBound | block.c:4522-4567 | runs that never switch throttling off keep the bound up to the current slice end |
| ThrottleRuns.InterruptedRunExceedsRate | block.c:122-136 | a run that switches throttling off and on admits twice what the bound allows |
| Xbzrle.RoundTrip | xbzrle.c:26-173 | decoding an encoding over the old page gives the new page, and the encoding fits its buffer |
| Xbzrle.UnchangedIffEqual | xbzrle.c:26-124 | the encoder reports an unchanged page exactly when the pages are equal |
| Xbzrle.OverflowIff | xbzrle.c:26-124 | the encoder overflows if and only if the runs, and two bytes more if the page ends with an equal run, exceed the buffer; otherwise it gives the runs |
| Xbzrle.AcceptedIff | xbzrle.c:126-173 | the decoder takes a delta if and only if it is a string of well-formed runs: gap, length, bytes, inside delta and page, no gap of none but at the start |
| Xbzrle.DecodedBytes | xbzrle.c:126-173 | it then puts the bytes of every run in their place and leaves every other byte of the page |
| Xbzrle.EndsBehind | xbzrle.c:126-173 | what it returns is the end of the last run, and 0 for an empty delta |
| Xbzrle.UlebFormat | util/cutils.c:482-493 | a number takes one byte if below 0x80 and two otherwise, low seven bits first, and the top bit of the first byte says which |
| Xbzrle.UlebRoundTrip | util/cutils.c:482-509 | run lengths survive their one- or two-byte form |
| ByteWords.ZeroByteTestExact | xbzrle.c:95-106 | the word trick detects a zero byte exactly |
| ByteWords.XorFindsEqual | xbzrle.c:95-106 | on the exclusive-or of two loaded words it is true exactly when the two buffers agree on one of the eight bytes |
| Xbzrle.ScanEqual | xbzrle.c:43-64 | the word-at-a-time scan finds the end of the run of equal bytes |
| Xbzrle.ScanDiffer | xbzrle.c:85-111 | the scan, a word at a time by the trick on the exclusive-or, finds the end of the run of differing bytes |
| Xbzrle.EncodeBuffer | xbzrle.c:26-124 | the loop computes the specified encoding or its special results |
| Xbzrle.ReadRuns | xbzrle.c:134-166 | the two lengths are read, and every malformed one rejected, as specified |
| Xbzrle.DecodeBuffer | xbzrle.c:126-173 | decoding in place leaves the specified page, on success and on failure, fails exactly when the specification does, and returns where in the page the last run ends |
| MigrationBitmap.SyncLands | arch_init.c:429-475 | a sync of all blocks as one step, int-sized bit and word numbers included: the log bits taken, the bits set and the count |
| MigrationBitmap.IndexableHomed | arch_init.c:429-475 | if word numbers fit an int, and page numbers do in blocks that do not start on a word boundary, every page of RAM is synced to its own bit |
| MigrationBitmap.SyncMoves | arch_init.c:442-475 | where every page of RAM is synced to its own bit, syncing block after block moves each covered log bit once, whatever words blocks share |
| SyncWidth.SyncLosesNothingIff | arch_init.c:429-440 | no page of the log is lost if and only if none that is not marked lies at 2^31 or above in a block that is synced page by page before any word covers it |
| SyncWidth.SyncExactIff | arch_init.c:429-475 | every sync moves exactly the log bits of RAM pages, if and only if the layout puts every page at its own bit |
| SyncWidth.FarPageIsLost | arch_init.c:430-434 | a one-page block at page 2^31 + 1: its log bit is gone and a bit outside the bitmap set |
| SyncWidth.MisplacedIsUnsafe | arch_init.c:464-473 | in a migration such a page is not safe any more after the sync, and every other page of the log is |
| MigrationBitmap.SyncIsPageByPage | arch_init.c:442-475 | in such layouts word-at-a-time syncing equals page-by-page syncing inside RAM, and the counter stays the number of marked RAM pages if and only if no unmarked stray bit lies beyond the end of RAM |
| MigrationBitmap.StrayBitMiscounts | arch_init.c:453-462 | a block of one page and a log bit beyond it: the counter is right before the sync and wrong after it |
| MigrationBitmap.SyncTallies | arch_init.c:442-475 | in such layouts, whatever the log holds, the counter stays the number of marked RAM pages plus the marks beyond the end of RAM, and a sync adds exactly the stray log bits to those |
| BitmapWords.DirtyBitmaps.SyncWord | arch_init.c:453-462 | or-ing a word, counting its new bits and clearing the log moves exactly that word's pages |
| BitmapWords.LoopRuns | arch_init.c:449-453 | the comparison of the int counter with the unsigned bound keeps the word loop going exactly to the specified end |
| BitmapWords.DirtyBitmaps.SyncWords | arch_init.c:447-462 | the loop with its int counter moves exactly the words it visits |
| BitmapWords.DirtyBitmaps.SyncPage | arch_init.c:429-473 | test and reset of one page, and setting the bit its number is as an int |
| BitmapWords.DirtyBitmaps.SyncRange | arch_init.c:442-475 | both branches have the specified effect on bitmap, log and counter, for every block whose words and bits lie in the arrays |
| PrecopyRuns.MigrationSafe | arch_init.c:331-403 | in every state of every run, for layouts with every page at its own bit, each page is equal on both sides, on its way, marked, or logged; the counter is the number of marked RAM pages plus the marks beyond the end of RAM; a cached page that may still be encoded against is what the destination holds |
| PrecopyRuns.MigrationCompletes | arch_init.c:887-915 | for such layouts, once the guest is stopped and ram_save_block returns 0, destination RAM equals source RAM |
| PrecopyTally.StepSound | arch_init.c:554-651 | every event, also a call that loses a page, keeps shape, cursor and tally |
| PrecopyTally.CounterTallies | arch_init.c:331-403 | in every state of every run, runs that lose a page included, the counter is the number of marked RAM pages plus the marks beyond the end of RAM |
| PrecopyCounter.CounterExactIff | arch_init.c:442-519 | in every state of every run, runs that lose a page included, the counter is the number of marked RAM pages if and only if there was no sync yet or the log held no stray bit at the start |
| PrecopyRuns.StepKeeps | arch_init.c:554-651 | guest writes, syncs, calls of ram_save_block, flushes, evictions and the stop keep the invariant |
| PrecopyRuns.SaveKeeps | arch_init.c:554-651 | one call keeps it unless it starts in the losing state, and returns 0 only when nothing is marked |
| PrecopyRuns.SyncKeeps | arch_init.c:442-475 | a sync keeps it and empties the log of RAM pages |
| PrecopyRuns.InitialInv | arch_init.c:736-815 | setup establishes it |
| PrecopyRuns.BulkCallDropsIff | arch_init.c:405-427 | a call in the bulk stage drops a page if and only if the cursor stands on the last page of the last block, which is the only one marked |
| PrecopyEnds.CallTerminates | arch_init.c:566-645 | no call of ram_save_block goes on for more passes than there are marked pages and blocks left to visit, whatever the guest does |
| PrecopyEnds.CallEnds | arch_init.c:566-645 | among that many observations and one more, however they come, there is the end of the call |
| PrecopyEnds.CallUnmarks | arch_init.c:573-645 | a call that sends leaves fewer pages marked, and no call more |
| PrecopyEnds.CompleteTerminates | arch_init.c:887-915 | no more calls in a row send than pages are marked, so the loop of ram_save_complete ends |
| PrecopyEnds.UnmarkedIsSettled | arch_init.c:405-427 | a pass unmarks a page only by sending it, by finding it equal to the cached copy, or in the losing state |
| PrecopyEnds.SentAs | arch_init.c:581-645 | which record a page becomes, and what the cache holds afterwards: zero record, page queued or copied, nothing for an equal page, a delta if and only if it fits in a page |
| PrecopyEnds.LostPage | arch_init.c:569-572 | in the losing state the call sends nothing, unmarks the page, and the invariant survives exactly if that page needed no sending |
| PrecopyLoss.PageIsLost | arch_init.c:416-417 | a complete run after which one page differs on the destination |
| RamSaver.CountPages | arch_init.c:780-794 | the sum of block lengths is the number of RAM pages, gaps not counted |
| RamSaver.RamSaver.constructor | arch_init.c:736-794 | setup gives the initial state of the machine |
| RamSaver.RamSaver.FindAndResetDirty | arch_init.c:405-427 | search, clear and count down as specified, bulk shortcut included |
| RamSaver.RamSaver.SaveXbzrlePage | arch_init.c:344-403 | cache miss, unchanged, overflow and delta as specified, with the data to send in place of a delta |
| RamSaver.RamSaver.SavePage | arch_init.c:581-645 | zero page, delta, copied page or queued page as specified |
| RamSaver.RamSaver.RamSaveBlock | arch_init.c:554-651 | in every sound state, whatever it observes, the loop ends; it takes exactly the passes of the machine's call and returns whether it sent |
| RamStream.Lookup | arch_init.c:994-998 | the first block of that name with room for the offset |
| RamRoundTrip.RecordRead | arch_init.c:297-312 | the receiver's step on a record the sender put stores its payload at the block and offset meant, with or without CONTINUE |
| RamRoundTrip.RecordFormat | arch_init.c:297-312 | the bytes of a record: a big-endian word of offset and flags, the name with its length unless the block is the one before, and the payload |
| RamRoundTrip.SetupFormat | arch_init.c:800-815 | the bytes of setup: a word of the total length and its flag, the entries, and the end word |
| RamRoundTrip.ItemFormat | arch_init.c:800-804 | an entry: the length of the name, the name, and eight bytes of length |
| RamRoundTrip.SectionRead | arch_init.c:1023-1124 | ram_load on a section stores all its records and leaves the remembered block in step with last_sent_block |
| RamRoundTrip.ListRead | arch_init.c:800-806 | the block list is accepted exactly when every block is known with its length |
| RamRoundTrip.SetupRead | arch_init.c:1042-1078 | setup is accepted exactly then, and consumes exactly its bytes |
| RamRoundTrip.StreamRoundTrip | arch_init.c:1023-1124 | setup and any number of sections with any records: memory ends as if each record had been stored where the sender meant it |
| RamRoundTrip.PeersDistinct | arch_init.c:994-998 | distinct blocks of the sender are stored in distinct blocks |
| RamRefusals.PayloadIff | arch_init.c:932-971 | any payload: refused if and only if it is cut off, or a delta with a wrong first byte, a length over a page or malformed runs; no other page is touched, and an accepted one makes the page it says |
| RamRefusals.HostIff | arch_init.c:973-1002 | no block is found if and only if CONTINUE comes first or beyond its block, the name is cut off, or no block of that name reaches the offset |
| RamRefusals.ItemMeans | arch_init.c:1080-1114 | which of the flags of a word decides, and that a word with none of them is passed over, unless it is a hook |
| RamRefusals.EntryIff | arch_init.c:1042-1078 | an entry of the block list is taken if and only if it is whole and the first block of that name has that length |
| PrecopyWire.CallRecorded | arch_init.c:573-645 | a call of ram_save_block puts at most one record; a delta is put only for a page that is not queued, against what the destination holds of it |
| PrecopyWire.ReplayRefilled | savevm.c:797-810 | the content of a page's last record, filled in when it is flushed, decides that page and no other |
| PrecopyWire.WireMakesMemory | savevm.c:627-652 | for every run, once the queue is empty, the records on the wire stored in order make the memory the machine says the destination has |
| RamDelivery.DeliveredAsStored | arch_init.c:1080-1109 | what a record does to the machine's memory is what the parsed record does to the receiver's |
| RamDelivery.ReplayedAsApplied | arch_init.c:1023-1124 | the same over any sequence of records |
| RamDelivery.FlatApplied | arch_init.c:1023-1124 | how the records are cut into sections does not matter |
| RamDelivery.MigrationDelivered | arch_init.c:1023-1124 | for every run of the machine, ram_load accepts the bytes and leaves the memory the machine has on the destination |
| RamDelivery.LastOnWire | arch_init.c:585-586 | the block the machine remembers for CONTINUE is the one the bytes were made with |
| RamDelivery.MigratedMemory | arch_init.c:887-915 | with the guest stopped and nothing marked or queued, what ram_load has read out of the bytes is the source's memory |
| RamLoader.RamLoader.HostFromStreamOffset | arch_init.c:973-1002 | the C function computes the specified block and remembered block, on every input |
| RamLoader.RamLoader.LoadXbzrle | arch_init.c:932-971 | header checks as specified, and the page decoded over in place, also by a malformed delta |
| RamLoader.RamLoader.ReadBlockList | arch_init.c:1042-1078 | the loop accepts exactly what the specification accepts |
| RamLoader.RamLoader.RamLoad | arch_init.c:1023-1124 | the loop computes the specified outcome on every input |
| RamLoader.RamWriter.SaveRecord | arch_init.c:297-312 | header, name or CONTINUE and payload are the specified bytes, and their number is returned |
| PhysTree.SetNodeMaps | exec.c:161-194 | after setting a range every page of it maps to the section and every other page as before |
| PhysTree.AllocationBound | exec.c:196-205 | one call allocates at most 2 * levels - 1 nodes, within the reservation |
| PhysTree.SetNodeAllocates | exec.c:161-194 | at most one node per level and end of the range that falls inside the subtree |
| PhysTree.UnassignedSplittable | exec.c:169-180 | a range of unassigned pages never meets a leaf that would have to be split |
| PhysMap.PhysPageMap.Reserve | exec.c:131-138 | growing the array keeps the tree and makes the room asked for, at least doubling; with room enough nothing changes |
| PhysMap.PhysPageMap.Alloc | exec.c:140-153 | a fresh row represents a blank node and no other row changes |
| PhysMap.PhysPageMap.SetSlot | exec.c:183-193 | one slot becomes a leaf or is descended into, as the tree function does, touching only its own rows and new ones |
| PhysMap.PhysPageMap.SetLevel | exec.c:161-194 | the recursion over row indices computes the tree function, never goes below level 0, and the array does not move |
| PhysMap.PhysPageMap.PhysPageSet | exec.c:196-205 | exactly the pages of the range change their section |
| PhysMap.PhysPageMap.PhysPageFind | exec.c:207-225 | shifting and masking finds the section the tree maps the page to |
| Dispatch.SubpageShown | exec.c:769-794 | register_subpage makes exactly the section's bytes visible, on a new or existing subpage |
| Dispatch.MultipageShown | exec.c:797-809 | register_multipage makes exactly the section's pages visible |
| DispatchSteps.AddedAgrees | exec.c:811-843 | once a section is visible, lookups agree with a search of the longer list |
| DispatchSteps.SearchFinds | exec.c:1620-1636 | in a list of disjoint sections the search finds the one that contains the address |
| MemAdd.ExpectedMeans | exec.c:1620-1636 | what the list says of an address: the section that contains it, with RAM behind a subpage as the built-in region, or unassigned |
| DispatchSteps.RegionKeptIff | exec.c:1695-1718 | a lookup gives the section's own region if and only if the address is not RAM behind a subpage, and its offset always |
| DispatchSteps.SmallRamLosesRegion | exec.c:1706-1713 | a RAM section smaller than a page is found with the built-in region |
| DispatchSteps.DisjointIsFree | exec.c:769-794 | a section disjoint from those added finds its pages in a state register_subpage and phys_page_set accept |
| MemAdd.AddressSpaceDispatch.MemBegin | exec.c:1772-1789 | afterwards everything is unassigned, and sections 0 to 3 are the built-in unassigned, not-dirty, ROM and watch regions |
| MemAdd.AddressSpaceDispatch.RegisterSubpage | exec.c:769-794 | the arrays change as specified, and the source's assertion holds |
| MemAdd.AddressSpaceDispatch.RegisterInTable | exec.c:1695-1718 | the table entries of the range, and no others, point to the section |
| MemAdd.AddressSpaceDispatch.RegisterMultipage | exec.c:797-809 | the arrays change as specified |
| MemAdd.CallsForAligned | exec.c:811-843 | a list of sections that line up with the pages, of any size, needs at most three phys_page_set calls each |
| MemAdd.AddressSpaceDispatch.MemAdd | exec.c:811-843 | for every section disjoint from those added, lookups afterwards agree with the list and the new section, and node array and section list have grown by at most what its calls are charged for, so that all numbers fit their 15 bits |
| MemAdd.AddressSpaceDispatch.Rebuild | exec.c:1772-1789 | after mem_begin and mem_add of every section of any list of disjoint ones whose node and section numbers fit 15 bits, lookups agree with the list |
| MemAdd.AddressSpaceDispatch.Lookup | exec.c:1620-1636 | radix tree and subpage table give the region and offset of the added section that contains the address, the built-in region for RAM that shares its page, and unassigned if none does |
| MemAdd.AddressSpaceDispatch.SubpageAccess | exec.c:1620-1651 | the offset in the subpage selects the section, and with the base of the subpage leads to the place in it |
| RamAlloc.GapIsFree | exec.c:1009-1042 | the gap after a block overlaps no block |
| RamAlloc.InsertedOk | exec.c:1167-1177 | insertion keeps blocks disjoint, aligned and ordered by decreasing length |
| RamAlloc.RemovedOk | exec.c:1210-1255 | so does removal |
| RamAlloc.AnyBlockAnswers | exec.c:1320-1336 | any block that contains an address gives the answer of the search |
| RamAlloc.RamPtrMeans | exec.c:1320-1336 | an address has a host address if and only if a block contains it, and then it is that block's, as far in |
| RamAlloc.RamList.FindRamOffset | exec.c:1009-1042 | the end of a block with a smallest sufficient gap; none exactly when no gap suffices |
| RamAlloc.RamList.Alloc | exec.c:1116-1203 | adds exactly one block, at that place, and keeps the list in order |
| RamAlloc.RamList.Free | exec.c:1228-1255 | removes exactly the block at that offset, forgets the remembered block and counts the version up, or changes nothing |
| RamAlloc.RamList.GetRamPtr | exec.c:1320-1353 | the remembered block gives the answer of the uncached search: the place in the block that contains the address, which is remembered, and none if no block does |
| RamAlloc.RamList.SafeRamPtr | exec.c:1360-1387 | the same without remembering the block |
| RamAlloc.RamList.LastRamOffset | exec.c:1044-1053 | the largest end of a block |
| ElfLayout.Dump.GetStartBlock | dump.c:1523-1549 | finds the first block in the window, and fails exactly when there is none |
| ElfLayout.Dump.GetNextBlock | dump.c:599-624 | skips exactly the blocks outside the window |
| ElfLayout.Dump.WriteMemory | dump.c:372-395 | page by page and remainder together write exactly the range |
| ElfLayout.Dump.DumpIterate | dump.c:627-650 | writes the parts of all blocks inside the window, in order, and nothing else |
| ElfLayout.PartBytes | dump.c:627-650 | the part of a block that is written: its bytes at the addresses inside the window, in order |
| ElfLayout.PartCounts | dump.c:627-650 | and there are as many as addresses in both |
| ElfLayout.Dump.GetOffsetRange | dump.c:398-457 | the offset and size are where those bytes are in the file, inside one block; none exactly when no block in the window holds the address |
| ElfLayout.HoldsIff | dump.c:398-457 | a block holds an address for the dump if and only if the address is in the block and in the window |
| ElfLayout.Dump.DumpCalculateSize | dump.c:1575-1595 | the announced size is the number of bytes written |
| KdumpFile.GetNextPage | dump.c:1121-1165 | visits every page of every block once, in order |
| KdumpFile.StoreBitAt | dump.c:1089-1096 | setting or clearing a bit of the buffer changes that bit only |
| KdumpFile.BitWeight | dump.c:1089-1096 | bit j of a byte is the one of weight two to the j |
| KdumpBitmap.FlushedOk | dump.c:1070-1087 | a flush puts the buffer into both bitmaps and starts an empty one |
| KdumpPages.DescRoundTrip | dump.c:1429-1434 | a descriptor can be read back in either byte order |
| KdumpPages.DescFormat | dump.c:1429-1434 | its 24 bytes: offset, size, flags and zero page flags, at 0, 8, 12 and 16 |
| KdumpPages.StoreRoundTrip | dump.c:1370-1427 | a page stored compressed or plain can be restored |
| KdumpPages.AllLead | dump.c:1296-1440 | every page's descriptor leads to bytes that decode to the page, shared zero page included |
| KdumpPages.ZeroPagesShare | dump.c:1346-1440 | zero pages, and no others, have the descriptor of the one zero page at the start of the data; every other page is stored behind it and behind those before |
| KdumpPages.RankIsIndex | dump.c:1346-1440 | the number of dumped frames below a frame is the index of its descriptor |
| KdumpLayout.FitsIff | dump.c:1009-1014 | bitmaps start behind the notes and pages behind the bitmaps, if and only if the offsets fit 32 bits |
| KdumpLayout.SeparateIff | dump.c:1009-1014 | for every page size that divides 2^32, headers, bitmaps and pages overlap nowhere, if and only if the offsets fit 32 bits |
| KdumpLayout.DescriptorsOverBitmap | dump.c:1013-1014 | 4096-byte pages and 2^34 page frames: the descriptors start where the first bitmap starts |
| Kdump.BitmapFits | dump.c:1768-1773 | the bitmap length is just enough for the last page frame |
| Kdump.FramesAreBlocks | dump.c:1121-1165 | the dumped frames are exactly those inside guest blocks |
| Kdump.RankOnDisk | dump.c:1167-1217 | counting set bits in the file below a frame gives its descriptor's index |
| Kdump.PagesReadBack | dump.c:1296-1463 | both areas on disk put every page on disk |
| Kdump.DataCache.Write | dump.c:1229-1259 | whatever the buffering, everything put is in the file or the buffer, in order, and nothing else changes; all in the file after a sync |
| Kdump.KdumpWriter.WriteDumpHeader | dump.c:910-1020 | headers and notes are in place, the offsets are what 32-bit arithmetic gives, and the later areas lie behind without overlap if and only if they fit 32 bits |
| Kdump.KdumpWriter.SetDumpBitmap | dump.c:1048-1099 | marks exactly that frame, flushing full buffers to both bitmaps |
| Kdump.KdumpWriter.WriteDumpBitmap | dump.c:1167-1217 | both bitmaps are complete and hold exactly the guest's frames; the number of pages is counted |
| Kdump.KdumpWriter.WriteDumpPages | dump.c:1296-1463 | descriptor and data areas hold what the specification says, and nothing outside them changes |
| Kdump.KdumpWriter.CreateVmcore | dump.c:1465-1521 | if the offsets fit 32 bits, a reader of the file finds the headers, both bitmaps naming exactly the guest's frames, and for every frame a descriptor at its rank leading to data that decodes to the page |
| SoftTlb.Widen | cputlb.c:230-233 | the mask-widening loop ends with the finest mask, coarser than the first, under which both addresses agree |
| SoftTlb.ExtendRegion | cputlb.c:217-236 | the new region covers the new page and all the old region covered, and is the smallest such |
| SoftTlb.SurvivorIsElsewhere | cputlb.c:83-93 | an entry that survives a page flush came from no guest page containing the address |
| SoftTlb.CpuTlb.Flush | cputlb.c:56-81 | every entry is empty and the region is reset |
| SoftTlb.CpuTlb.FlushPage | cputlb.c:95-125 | no entry is left from any guest page, of any power-of-two size, that contains the address; no lookup of the address hits; outside the large-page region no entry for another page is dropped |
| SoftTlb.CpuTlb.AddLargePage | cputlb.c:217-236 | every large page inserted since the last full flush stays covered, by the smallest region that does |
| SoftTlb.CpuTlb.NewEntry | cputlb.c:277-313 | a tag hits exactly if its access is permitted, and goes the slow way exactly if it has to: I/O, a watchpoint, a store to ROM, and the not-dirty mark on stores to clean RAM |
| SoftTlb.CpuTlb.SetPage | cputlb.c:241-313 | lookups of the page then hit for exactly the permitted accesses, go the slow way exactly where the backing demands it, no other entry changes, and a large page, but no small one, extends the region |
| SoftTlb.CpuTlb.HitHasOrigin | cputlb.c:241-313 | a lookup that hits finds an entry inserted for its own page |

## Left out

- TrackedRequests.Scan: requests are compared as unbounded numbers; the 32-bit overlap_bytes and bytes fields are not modelled.
- BlockScripts.IssuedMayBegin: zero-beyond-end reads and growing devices are not among the requests; the disk is unbounded in the protocol and fixed in `UnalignedWrite`.
- UnalignedWrite.BlockDevice.Pwritev: a driver write that fails writes nothing; a driver that writes part of a request before failing appears only in the protocol model, where bytes move one at a time.
- UnalignedWrite.BlockDevice.AlignedPwritev: the dirty bitmap of the device, its highest written sector and its growth are not modelled; what is flushed is what the device holds at that moment.
- ThrottleRuns.RateBound: that no slice starts before an earlier one was to end is sufficient, not necessary, since gaps may make up for overlaps; SlicesBound holds without it. What a request asks for is counted in whole sectors, as the source counts it.
- Throttle.ThrottledDevice.ExceedIoLimits: the order of the throttled queue and the restart of its requests belong to the coroutine queue, which is not part of this model.
- PrecopyRuns.MigrationSafe: RAM hot-plug, RDMA hooks and the guest-throttling timer are not modelled; the cache may evict anything, so `page_cache.c` has no model of its own.
- BitmapWords.DirtyBitmaps.SyncRange: a write outside the arrays, which an int-sized number can lead to, has no model there; an int that is counted past its end is taken to wrap.
- PrecopyRuns.MigrationCompletes: pages queued without a copy are assumed to be flushed before the stream is closed.
- RamLoader.RamLoader.RamLoad: a read past the end of the stream is an error at once, where the source goes on with zero bytes or an unfilled buffer and reports the error after the record; the outcome is an error in both, the page of that record may differ.
- Xbzrle.ScanDiffer: a word is eight bytes; the four-byte words of 32-bit hosts are not modelled.
- PrecopyWire.WireMakesMemory: the stream has no write errors, and the guest page size is fixed at 4096 bytes where the bytes are concerned.
- PhysMap.PhysPageMap.PhysPageSet: ranges beyond the last page of the map, whose high bits the source ignores, are excluded.
- MemAdd.AddressSpaceDispatch.MemAdd: what the source does once node or section numbers exceed 15 bits is not modelled; the source asserts it of node numbers only.
- RamAlloc.RamList.Alloc: mapping, Xen and file-backed memory, dirty-bitmap extension and the host address itself are not modelled.
- Kdump.KdumpWriter.CreateVmcore: header, sub-header and note contents are given byte strings, and the flattened framing around each record is the record's position; write errors, which abandon the dump, are not modelled. Block bounds are whole pages, as the source asserts, and are counted in pages.
- ElfLayout.Dump.GetOffsetRange: addresses are unbounded numbers; ELF header and note contents are not modelled.
- SoftTlb.CpuTlb.SetPage: pages of 4096 bytes and addresses of 64 bits only, where targets have other page sizes and 32-bit addresses; host addends, I/O TLB values and the jump cache are not modelled; dirty-bit updates of write tags are not among the events.
- Discard, compressed writes, write merging, block migration, RDMA, command front ends, option parsing, audio and the remaining code generator are not part of this model.
