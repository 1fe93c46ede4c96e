# Memory managers, reference counts, timers and camera frames of a phone port, in Dafny

This project models the parts of the repository that keep hard invariants and proves what they promise. Code
that works in place stays in place: region arrays, bitmaps, the linked timer list and the preview buffer are
arrays or linked nodes in Dafny too, and the objects whose fields change are classes. Each method is proved
against a specification on values, and what the source promises is then proved of that specification for every
input and every run. `dafny verify dfyconfig.toml` checks the whole project.

**The memblock allocator** (`Regions`, `RegionLoops`, `MemblockTables`, `Alignment`, `Masks`, `FreeSlots`,
`MemoryLimit`, `Memblocks`, `MemblockRuns`). A table of regions denotes a set of addresses. In canonical form -- sorted,
disjoint, never adjacent, a zero-size filler for the empty set -- a set has exactly one table. Adding and removing
ranges are exact set operations that keep the form, the top-down search finds the highest free slot, and over
every run of allocations, reservations and frees the blocks handed out are aligned, inside memory and disjoint.
Addresses are 32 bits wide: a value stored in a `PhysAddr` is a proof that nothing wrapped, and the one
subtraction of the source that can wrap is modelled with its wrap. The rounding masks are modelled bit by bit.

**The bitmap pool and the tiler heap** (`Bitmaps`, `GenPools`, `GenPoolRuns`, `PageBits`, `TilerHeaps`, `TilerRuns`).
First fit over several chunks, the conservation of set bits over all runs, and the tiler allocation with its
lump-or-pages fallback, whose rollback ladder of gotos restores everything whichever step fails. Over every mix of
tiler allocations and frees the buffers stay disjoint.

**Ion reference and map counts** (`IonRefs`, `IonRuns`, `IonMaps`, `IonMapRuns`, `IonCalls`, `IonLaws`,
`IonDevices`, `IonHeaps`, `IonScenarios`). Beside the krefs of buffers, handles and clients the model keeps a ledger
of who holds a reference. Every elementary step keeps each kref equal to its number of holders, so every interleaving
of the steps of any number of calls does. The map counts are a second, two-level count, right for as long as no mapped
handle is destroyed. The calls are methods of a class that perform the steps in the order of the source, and each says
object by object what it changes. `IonScenarios` takes the class through three histories: a shared buffer that outlives
its maker's handle, moves to another client and is freed once (`BufferChangesHands`), a mapped handle that is
destroyed, and a handle that is freed too often.

**The timer list and the charge-only screen** (`AlarmQueues`, `AlarmRuns`, `AlarmTurns`, `AlarmLists`, `ChargeModes`,
`ChargeRuns`, `ChargeLaws`, `ChargeLoops`). alarm_process runs callbacks that set and cancel alarms themselves.
Whatever they do, it ends once the second is over in which it read the clock; and when the deadlines they store lie
ahead, it fires exactly the due alarms that no earlier callback cancelled, once each and in order. On top of it every
run of the event loop keeps the screen invariant, and the device reboots after a long press of the power key, provided
that a high enough voltage was read, and in no other case.

**The camera** (`Yv12`, `RecordingFrames`). The preview conversion writes exactly the YV12 planes of its input, and the
recording queue stays bounded, drops frames only as its thresholds say, and releases every frame once.

## What the proofs say about the code

Where the code does not do what its comments or callers expect, the model does what the code does, and a lemma or
a contract gives the exact condition:

- `__memblock_remove` leaves its loop only on `rgn->base > end`, so a region that starts exactly at `end` reaches
  the top trim, whose size wraps. The table stays canonical if and only if there is no such region
  (`MemblockType.Remove`): with [10, 15) in the table, removing [5, 10) ruins it
  (`MemblockType.RemovalRuinsNeighbour`). Freeing a block of the allocator never meets the case
  (`MemblockRuns.FreesAreExact`).
- The reserved loop of `memblock_enforce_memory_limit` runs for ever if and only if no reserved region starts below
  the new end of DRAM (`MemoryLimit.ClipHaltsExactly`): one region [10, 15) and the end 10 are enough
  (`MemoryLimit.ClipLoops`).
- `memblock_alloc` stops at a BUG_ON if and only if rounding the size up to the alignment wraps
  (`Memblock.AllocBase`).
- `memblock_alloc` reserves the size rounded up to the alignment, so freeing the size asked for restores the table if
  and only if that was a multiple of the alignment (`MemblockRuns.AllocFreeRestores`).
- `gen_pool_alloc` ends its search window `nbits + 1` bits before the end of a chunk. It fails in spite of a clear run
  if and only if the lowest one starts behind the window (`Bitmaps.LateRunIsMissed`): two clear bits do not hold a
  block of one (`Bitmaps.TailIsNotSearched`).
- The rounding of a size to bits wraps if and only if the size is within a unit of 4 GiB
  (`GenPools.BitsCoverExactly`): all but one byte of 4 GiB gets no bits (`GenPools.RoundingWraps`). Such blocks make
  `gen_pool_destroy` silent although they are live (`GenPoolRuns.DestroySilentIffAllFreed`).
- `omap_tiler_alloc` returns 0 without a buffer if and only if the request passes its checks and either the area is
  NULL, or area, pages and pin succeed and the handle is NULL, because PTR_ERR of NULL is 0
  (`TilerHeaps.ReturnsZeroWithoutBuffer`, with a case in `NullHandleReportsSuccess`). `ion_alloc` returns NULL if and
  only if no heap of the device has the tiler's id and a type the client supports
  (`IonHeaps.TilerFailsSilentlyExactly`). Everything is rolled back then too, and the pages succeed if and only if a
  lump fits or as many usable bits are clear as pages are asked for (`TilerHeap.Alloc`).
- `ion_handle_destroy` asks in a comment whether a mapped handle can be destroyed. The map counts stay right if and
  only if it is not (`IonMaps.DestroyKeepsMapsIffUnmapped`), over whole runs (`IonMapRuns.MapsRightIffSpared`) and
  for each call that can destroy a handle. `IonScenarios.MappedHandleDestroyed` reaches a state with wrong counts.
- `ion_free` puts a reference whether or not the client has one left to give. The krefs stay exact if and only if it
  has (`IonCalls.FreeKeeps`). `IonScenarios.HandleFreedTwice` takes the user mapping's reference away.
- `alarm_set_relative` computes with 32-bit integers. The deadline it stores is the one asked for if and only if the
  microseconds fit an int (`AlarmQueues.DeadlineIsAfter`); 2147484 ms ahead becomes 2147 seconds ago
  (`FarDeadlineIsPast`). An alarm that sets itself again that way is due at once and fires any number of times
  (`AlarmTurns.WrappedFiresAgain`), until a deadline stored for it is ahead (`RearmedEndsExactly`). The wrap takes
  nothing from the seconds, so that happens as soon as the second is over (`EndsWhenSecondIsOver`): what fails is
  "once each", not the end of the loop.
- `alarm_get_time_until_next` stores its result in an int. The loop of main processes alarms at once if and only if
  the remainder of the lateness in ms modulo 2^32 is at most 2^31 (`AlarmQueues.DueHeadWakesTheLoop`). So a due head
  is noticed while it is at most 2147483648 ms late, missed one ms later (`VeryLateHeadIsMissed`), noticed again at
  4294967296 ms (`EvenLaterHeadIsNoticed`). An alarm 4294967296 ms ahead, after the clock was set back, makes the loop
  spin until it is less than 2147483648 ms ahead (`FarHeadSpins`).
- `dataTimestampCallback` gives the camera its buffer back if and only if the frame was dropped or copied
  (`RecordingFrames.ReturnedFromArrived`); a frame that nobody copies takes its buffer along
  (`RecordingFrames.BufferIsKept`).

## Model

| member | source | states |
|---|---|---|
| Regions.CanonicalUnique | modules/ion/memblock.c:285-413 | two canonical tables that denote the same addresses are the same table, filler included |
| Regions.SeparatedUnique | modules/ion/memblock.c:285-413 | sorted gap-separated region lists are determined by the set they denote |
| Regions.PrefixSizeFits | modules/ion/memblock.c:764-781 | the running sum of region sizes never exceeds the end of the last region, so it cannot wrap |
| Regions.IsolatedExactly | modules/ion/memblock.c:285-377 | a range touches no region if and only if neither it nor an address next to it is in the set |
| Regions.StrictlyInsideExactly | modules/ion/memblock.c:442-455 | a range needs a split if and only if it and both addresses next to it are in the set |
| Regions.StartsAtExactly | modules/ion/memblock.c:427-440 | a region starts at an address if and only if it is in the set and the one below is not |
| Regions.TotalSizeCounts | modules/ion/memblock.c:764-781 | the total size of a table is the number of addresses it denotes |
| RegionLoops.MergeAbsorbed | modules/ion/memblock.c:343-365 | removing a region the range reaches past and folding it into the range keeps the coalescing loop's invariant |
| RegionLoops.MergeExtended | modules/ion/memblock.c:310-338 | extending a region down over the range yields a canonical table for exactly the union |
| RegionLoops.MergeDone | modules/ion/memblock.c:366-377 | after the loop the range fits in one gap of the table; table plus range denote the old set plus the argument; nothing was merged exactly when the argument touched no region |
| RegionLoops.CutDrop | modules/ion/memblock.c:436-440 | dropping an enclosed region keeps the removal loop's invariant |
| RegionLoops.CutSplit | modules/ion/memblock.c:442-455 | a split leaves a low part that the high part does not touch, and together they denote the difference |
| RegionLoops.CutDone | modules/ion/memblock.c:427-469 | at the loop's end the table is canonical and denotes the difference, unless a region started at the end of the range |
| MemblockTables.MemblockType.OverlapsRegion | modules/ion/memblock.c:67-83 | the lowest overlapping index, or -1 when none overlaps |
| MemblockTables.MemblockType.RemoveRegion | modules/ion/memblock.c:184-200 | the entry is taken out and the tail shifted; an emptied table gets the filler back |
| MemblockTables.MemblockType.DoubleArray | modules/ion/memblock.c:205-277 | capacity doubles and the contents stay, or nothing changes |
| MemblockTables.MemblockType.ShiftIn | modules/ion/memblock.c:384-400 | the new region lands in the gap where it belongs and every later one moves up by one |
| MemblockTables.MemblockType.NewBlock | modules/ion/memblock.c:377-413 | the sorted insertion; a table that becomes full doubles, and the insertion is undone with -1 if and only if it becomes full and cannot grow |
| MemblockTables.MemblockType.Coalesce | modules/ion/memblock.c:285-366 | the range ends inside one region with the exact union denoted, or every region it touched is folded into it |
| MemblockTables.MemblockType.AddRegion | modules/ion/memblock.c:285-413 | the table denotes exactly the union and stays canonical; when the range touches nothing and takes the last entry, capacity doubles if it may and memory is there, and otherwise -1 is returned and nothing has changed; in no other case is there a -1 or growth |
| MemblockTables.MemblockType.Remove | modules/ion/memblock.c:421-470 | canonical if and only if no region starts at the end of the range, and then exactly the difference; a split that takes the last entry doubles the capacity, or returns -1 with everything restored when it cannot grow; in no other case is there a -1 |
| MemblockTables.MemblockType.RemovalRuinsNeighbour | modules/ion/memblock.c:421-470 | a range whose removal from a one-region table leaves no table of any set |
| MemblockTables.MemblockType.Search | modules/ion/memblock.c:686-702 | an index whose region holds the address; -1 if and only if no region does |
| Alignment.AlignDownHighest | modules/ion/memblock.c:51-54 | rounding to the multiple below gives the highest multiple not above the address |
| Alignment.AlignUpLowest | modules/ion/memblock.c:56-59 | rounding to the multiple above gives the lowest multiple not below the address |
| Masks.MaskDownRounds | modules/ion/memblock.c:51-54 | the bit mask of the source rounds down to a multiple, for every power of two and every 32-bit address |
| Masks.MaskUpRounds | modules/ion/memblock.c:56-59 | the bit mask of the source rounds up to a multiple if and only if the sum fits in 32 bits |
| Masks.MaskUpZero | modules/ion/memblock.c:56-59 | a positive 32-bit size is rounded to 0 if and only if its rounding wraps |
| Masks.ClearingLowBits | modules/ion/memblock.c:51-59 | for words of any width, masking with the complement of 2^k - 1 subtracts the remainder modulo 2^k |
| FreeSlots.SkipIsSafe | modules/ion/memblock.c:104-112 | the jump below an overlapping reserved region passes over no free slot and moves strictly down |
| FreeSlots.HighestSlotFits | modules/ion/memblock.c:117-150 | a slot found lies wholly in memory and is aligned; the error value means there is none |
| FreeSlots.SlotExactly | modules/ion/memblock.c:86-150 | a free slot is an aligned range of the window that is all memory and nowhere reserved; page 0 is kept back when window and memory begin there |
| FreeSlots.OneRegionHoldsAll | modules/ion/memblock.c:714-723 | in canonical form a range is all memory only if one region holds it |
| Memblocks.Memblock.FindRegion | modules/ion/memblock.c:86-115 | the highest aligned unreserved address of the window, page 0 excluded, or the error value if and only if there is none |
| Memblocks.Memblock.FindBase | modules/ion/memblock.c:117-150 | the highest free slot over all memory regions below the limit, or the error value if and only if there is none |
| Memblocks.Memblock.AllocBase | modules/ion/memblock.c:491-506 | for every size and legal alignment: BUG_ON(0 == size) fires if and only if rounding wraps; otherwise the highest free slot, now reserved exactly, or 0 if and only if no slot is free, or the highest one touches nothing, takes the last entry and the table cannot grow; then nothing has changed |
| Memblocks.Memblock.Add | modules/ion/memblock.c:415-419 | memory denotes the union; an entry that fills the table doubles it, or -1 is returned and nothing has changed when it cannot grow |
| Memblocks.Memblock.Reserve | modules/ion/memblock.c:482-489 | reserved denotes the union, with growth and -1 in the same cases |
| Memblocks.Memblock.Free | modules/ion/memblock.c:477-480 | reserved denotes the difference whenever no reserved region starts at the end of the range; -1 exactly when a split takes the last entry of a table that cannot grow |
| Memblocks.Memblock.EndOfDram | modules/ion/memblock.c:638-643 | the address after the highest memory address |
| Memblocks.Memblock.Analyze | modules/ion/memblock.c:764-781 | memory_size is the number of memory addresses, without wrapping |
| Memblocks.Memblock.IsMemory | modules/ion/memblock.c:709-712 | true if and only if the address is in the memory set |
| Memblocks.Memblock.IsReserved | modules/ion/memblock.c:704-707 | true if and only if the address is in the reserved set |
| Memblocks.Memblock.IsRegionMemory | modules/ion/memblock.c:714-723 | true if and only if the base and every address of the range are memory |
| Memblocks.Memblock.IsRegionReserved | modules/ion/memblock.c:725-729 | true if and only if some address of the range is reserved |
| Memblocks.Memblock.TruncateMemory | modules/ion/memblock.c:655-666 | memory is cut to its lowest bytes up to the limit |
| Memblocks.Memblock.ClipReserved | modules/ion/memblock.c:670-683 | reserved denotes exactly its old addresses below the end, and the loop ends when a region survives |
| Memblocks.Memblock.EnforceMemoryLimit | modules/ion/memblock.c:646-684 | both tables stay canonical; memory is truncated and reserved cut to the addresses below the new end of DRAM |
| Memblocks.LimitAndAnalyze | modules/ion/memblock.c:646-684 | limit and analyze: memory_size is the smaller of the limit and the old total |
| MemoryLimit.TruncatedSize | modules/ion/memblock.c:655-666 | the truncated list has the smaller of the limit and the old total |
| MemoryLimit.TruncatedAddresses | modules/ion/memblock.c:655-668 | truncation keeps exactly the memory below the new end of DRAM |
| MemoryLimit.ClipDiverges | modules/ion/memblock.c:671-683 | with no survivor the loop is still running after any number of iterations |
| MemoryLimit.ClipHaltsExactly | modules/ion/memblock.c:671-683 | the reserved loop terminates if and only if some reserved region starts below the end |
| MemoryLimit.ClipLoops | modules/ion/memblock.c:671-683 | a reserved list on which the loop does not end |
| MemblockRuns.ReservedRangeHasNoSuccessor | modules/ion/memblock.c:421-440 | a range that is wholly reserved never has a region starting at its end |
| MemblockRuns.RunSafe | modules/ion/memblock.c:477-506 | over every run the live blocks are aligned, in memory and pairwise disjoint, and reserved is the reservations plus the blocks, even when a reservation overlaps a live block |
| MemblockRuns.ClearIffAvoided | modules/ion/memblock.c:477-506 | over every run blocks and reservations stay apart if and only if no reservation is made inside a live block |
| MemblockRuns.FreesAreExact | modules/ion/memblock.c:477-480 | in every run every free meets the condition under which removal is exact |
| MemblockRuns.BalancedRunRestores | modules/ion/memblock.c:477-506 | a run that returns what it took restores the very same reserved array |
| MemblockRuns.AllocFreeRestores | modules/ion/memblock.c:477-506 | freeing the size that was asked for restores the array, whatever the block was coalesced with, if and only if that size is a multiple of the alignment |
| MemblockRuns.ReserveOrderIrrelevant | modules/ion/memblock.c:482-489 | the order of two reservations does not matter, not even for the array contents |
| Bitmaps.BusyDetermines | modules/ion/genalloc.c:111-195 | the shape and the set bits determine every bitmap |
| Bitmaps.LateRunIsMissed | modules/ion/genalloc.c:128-145 | the search fails although there are clear runs if and only if the lowest starts behind the window |
| Bitmaps.TailIsNotSearched | modules/ion/genalloc.c:128-145 | a chunk with room that the search does not find |
| GenPools.Chunk.FindRun | modules/ion/genalloc.c:128-145 | the lowest start bit of the search window with a clear run, or -1 if and only if there is none |
| GenPools.Chunk.Fill | modules/ion/genalloc.c:148-149 | exactly the bits of the run are set or cleared |
| GenPools.SkipBlocked | modules/ion/genalloc.c:138-144 | the jump past a set bit passes over no fitting start |
| GenPools.BitsCoverExactly | modules/ion/genalloc.c:119-122 | the bits computed cover the request if and only if the rounding does not wrap in 32 bits, and are then the fewest that do; otherwise there are none |
| GenPools.RoundingWraps | modules/ion/genalloc.c:119-122 | a size that gets no bits |
| GenPools.Pool.Add | modules/ion/genalloc.c:49-70 | a clear chunk at the head of the list, its end computed in 32 bits, or nothing on failure; the end lies behind the start if and only if it did not wrap |
| GenPools.Pool.Alloc | modules/ion/genalloc.c:111-158 | the lowest fit of the first chunk that has one is marked and its address returned; 0 and no change if and only if no chunk has one |
| GenPools.Pool.Free | modules/ion/genalloc.c:169-195 | for any range: a BUG_ON fires exactly when the range, its end computed in 32 bits, runs past the first chunk that holds its start, or no chunk does and it has bits; otherwise exactly its bits are cleared |
| GenPools.Pool.BlockIsFreed | modules/ion/genalloc.c:169-195 | for a block handed out neither BUG_ON fires, and the bits that free computes from its address are its own |
| GenPools.Pool.EmptyBlockIsFreed | modules/ion/genalloc.c:169-195 | a block without bits is freed without a BUG_ON and without clearing a bit |
| GenPools.Pool.WholeUnitsOnBitmap | modules/ion/genalloc.c:169-195 | in chunks of whole units no range below 4 GiB makes free run off the bitmap |
| GenPools.Pool.BlockInChunk | modules/ion/genalloc.c:169-195 | a block handed out from a chunk whose end did not wrap, and all its bytes, lie in the chunk that free looks up |
| GenPools.Pool.Destroy | modules/ion/genalloc.c:80-100 | the BUG_ON fires if and only if some bit is set |
| GenPoolRuns.RunSafe | modules/ion/genalloc.c:111-195 | over every run, with blocks of any number of bits, also none, the live blocks are disjoint and in bounds and the set bits are exactly theirs |
| GenPoolRuns.RunConserves | modules/ion/genalloc.c:111-195 | over every run the number of set bits is the sum of the live blocks' bits |
| GenPoolRuns.DestroySilentIffAllFreed | modules/ion/genalloc.c:80-100 | no bit is set if and only if every block that has bits was freed |
| GenPoolRuns.BalancedRunRestores | modules/ion/genalloc.c:111-195 | a run that ends with the blocks it began with ends with the same bitmaps |
| GenPoolRuns.FreeUndoesAlloc | modules/ion/genalloc.c:111-195 | free undoes its alloc bit for bit |
| GenPoolRuns.DisjointInBytes | modules/ion/genalloc.c:111-195 | blocks with disjoint bits are disjoint byte ranges when the chunks are |
| PageBits.RoomWhileUsable | modules/ion/genalloc.c:128-145 | no chunk has room for a page if and only if no usable bit is clear |
| PageBits.PageTakesOne | modules/ion/genalloc.c:128-149 | a page allocation takes exactly one usable bit |
| TilerHeaps.TilerHeap.CarveoutAllocate | modules/ion/gpu/ion_carveout_heap.c:36-48 | a free block of the pool and its address, or the failure value if and only if no chunk has room |
| TilerHeaps.TilerHeap.CarveoutFree | modules/ion/gpu/ion_carveout_heap.c:50-59 | exactly the block's bits are cleared |
| TilerHeaps.TilerHeap.AllocatePages | modules/ion/gpu/omap/omap_tiler_heap.c:112-122 | the pages taken back the first entries of the address array, from bits that were free; their number is the smaller of the pages asked for and the usable bits that were clear |
| TilerHeaps.TilerHeap.AllocatePhys | modules/ion/gpu/omap/omap_tiler_heap.c:110-127 | one lump with consecutive pages if and only if the pool has room for it, and pages one by one otherwise; failure if and only if too few usable bits are clear as well |
| TilerHeaps.TilerHeap.ReleasePages | modules/ion/gpu/omap/omap_tiler_heap.c:159-161 | the page rollback restores the bitmaps of before the call |
| TilerHeaps.TilerHeap.ReleaseLump | modules/ion/gpu/omap/omap_tiler_heap.c:157-158 | the lump rollback restores the bitmaps of before the call |
| TilerHeaps.TilerHeap.Alloc | modules/ion/gpu/omap/omap_tiler_heap.c:59-165 | a buffer if and only if the format check, the sizes, the memory, the area, the pages, the pin and the handle all succeed; otherwise the value of the first that fails, -22, the tiler's, -12, the area's error or 0, -12, the pin's, the handle's error or 0, with pool, areas and pins as they were; the buffer holds exactly the bits added |
| TilerHeaps.ReturnsZeroWithoutBuffer | modules/ion/gpu/omap/omap_tiler_heap.c:71-165 | 0 is returned without a buffer if and only if the area is NULL, or everything before the handle succeeds and the handle is NULL |
| TilerHeaps.NullHandleReportsSuccess | modules/ion/gpu/omap/omap_tiler_heap.c:139-165 | a request that fails with the value 0 |
| TilerHeaps.TilerHeap.Free | modules/ion/gpu/omap/omap_tiler_heap.c:167-185 | exactly the buffer's bits, area and pin go, in both modes |
| TilerHeaps.AllocThenFreeRestores | modules/ion/gpu/omap/omap_tiler_heap.c:59-185 | a buffer freed right after its allocation gives the bitmaps back |
| TilerRuns.RunSafe | modules/ion/gpu/omap/omap_tiler_heap.c:59-185 | over every mix of allocations, failures and frees no two live buffers share a bit or an area, none has one that was in use before, and what is busy or pinned is exactly that and theirs |
| TilerRuns.AllFreedRestores | modules/ion/gpu/omap/omap_tiler_heap.c:59-185 | when all buffers are freed, in any order, bitmaps, areas and pins are those of the beginning |
| IonRefs.LastReferenceMeansNoMapping | modules/ion/gpu/ion.c:772-797 | while only one reference to a client is left, and a call holds it, no handle of the client is mapped by a user |
| IonRuns.StepKeeps | modules/ion/gpu/ion.c:162-256 | every elementary step keeps each kref equal to its number of holders, one handle per client and buffer, and one free per buffer |
| IonRuns.RunSafe | modules/ion/gpu/ion.c:162-380 | every interleaving of steps of any number of calls keeps that, with no dangling link; a final put is one step with the destruction it triggers, and so are the search for a client and its insertion |
| IonRuns.AllFreedAtTheEnd | modules/ion/gpu/ion.c:190-256 | when the last user, share file, mapping and call are gone, every buffer ever made has been freed exactly once |
| IonRuns.PutHandleKeeps | modules/ion/gpu/ion.c:229-256 | putting a handle, destroyed on its last reference together with its buffer reference, keeps the counts |
| IonRuns.DestroyHandleOfKeeps | modules/ion/gpu/ion.c:772-797 | a dying client may destroy a handle whatever its count, and the counts stay exact |
| IonMaps.MappedHandleMeansMappedBuffer | modules/ion/gpu/ion.c:386-413 | the BUG_ONs of _ion_map and _ion_unmap on the buffer's count cannot fire |
| IonMaps.MapKeeps | modules/ion/gpu/ion.c:386-400 | after a map the buffer's count is the number of handles that map it, and it is mapped in the heap |
| IonMaps.UnmapKeeps | modules/ion/gpu/ion.c:402-413 | after an unmap too; the heap unmaps exactly when the count returns to zero |
| IonMaps.DestroyKeepsMapsIffUnmapped | modules/ion/gpu/ion.c:229-241 | destroying a handle keeps the map counts right if and only if it is not mapped |
| IonMaps.StepKeepsMaps | modules/ion/gpu/ion.c:386-546 | every step that destroys no mapped handle keeps the map counts of both modes right |
| IonMapRuns.StepKeepsMapsIff | modules/ion/gpu/ion.c:229-546 | an elementary step keeps the map counts of a mode right if and only if it destroys no handle mapped in it |
| IonMapRuns.MapsRightIffSpared | modules/ion/gpu/ion.c:229-546 | over every run the map counts are right in every state if and only if no step destroys a mapped handle |
| IonMapRuns.MappedMayUnmap | modules/ion/gpu/ion.c:402-413 | in such a run a mapped handle can always be unmapped: neither BUG_ON fires |
| IonMapRuns.HeapCalledExactly | modules/ion/gpu/ion.c:386-546 | a buffer is mapped in the heap exactly when its count leaves zero, or would but for the heap's failure, and unmapped exactly when the last mapping goes; a failure changes nothing and is not followed by an unmap |
| IonMapRuns.HeapBalanced | modules/ion/gpu/ion.c:386-546 | over every such run the heap's map calls for a buffer are its unmap calls, the failed ones, and the one in use |
| IonCalls.OpenKeeps | modules/ion/gpu/ion.c:681-769 | a new or shared client per task, with exact counts |
| IonCalls.AllocKeeps | modules/ion/gpu/ion.c:311-359 | a new buffer held by exactly its handle, a new handle held by exactly its caller |
| IonCalls.FreeKeeps | modules/ion/gpu/ion.c:365-380 | the krefs stay exact, also when handle and buffer are destroyed, if and only if the reference was one of those handed out; the map counts stay right if and only if no mapped handle is destroyed |
| IonCalls.ImportKeeps | modules/ion/gpu/ion.c:570-590 | import adds one reference to the client's only handle for the buffer, or makes that handle |
| IonCalls.ImportUndone | modules/ion/gpu/ion.c:935-948 | putting the imported handle leaves nothing of the import |
| IonCalls.ShareKeeps | modules/ion/gpu/ion.c:969-990 | an open share file is one reference to the buffer |
| IonCalls.ShareReleaseKeeps | modules/ion/gpu/ion.c:815-825 | after the file is closed the counts are exact, and a buffer freed by it is mapped nowhere |
| IonCalls.MmapKeeps | modules/ion/gpu/ion.c:879-932 | a user mapping is one reference to the handle and one to its client |
| IonCalls.VmaHandlePutKeeps | modules/ion/gpu/ion.c:849-872 | between the two puts of ion_vma_close every link leads to a live object |
| IonCalls.VmaCloseKeeps | modules/ion/gpu/ion.c:849-872 | both references go back and the krefs stay exact; the map counts do if and only if neither put destroys a mapped handle |
| IonCalls.ReleaseKeeps | modules/ion/gpu/ion.c:1094-1101 | closing the device drops one client reference; the last one takes all the client's handles along, the krefs stay exact, and the map counts do if and only if none of those handles is mapped |
| IonCalls.ClientPutKeeps | modules/ion/gpu/ion.c:772-807 | the same for any client reference a call holds |
| IonCalls.DestroyingMaps | modules/ion/gpu/ion.c:779-797 | the destroy loop of a dying client leaves the map counts right if and only if no handle it destroys is mapped |
| IonCalls.UnmapUndoesMap | modules/ion/gpu/ion.c:455-475 | when the heap's map operation fails, both counts are back where they were |
| IonCalls.MapCallKeeps | modules/ion/gpu/ion.c:441-514 | a successful map keeps the krefs, and the map counts of both modes when they were right |
| IonCalls.UnmapCallKeeps | modules/ion/gpu/ion.c:516-546 | an unmap of a mapped handle does too |
| IonDevices.IonDevice.ClientPut | modules/ion/gpu/ion.c:772-807 | the loop over the client's handles ends, having destroyed each of them once, and the client is gone |
| IonDevices.IonDevice.Open | modules/ion/gpu/ion.c:1103-1123 | one client per task: it gains a reference, or is made when there is none; failure changes nothing |
| IonDevices.IonDevice.Release | modules/ion/gpu/ion.c:1094-1101 | the client has one reference less, or is gone with all its handles; krefs are exact, and the map counts stay right if and only if a client that goes has no mapped handle |
| IonDevices.IonDevice.Alloc | modules/ion/gpu/ion.c:311-363 | the new handle, or no handle and no buffer left behind |
| IonDevices.IonDevice.Free | modules/ion/gpu/ion.c:365-380 | a reference is put; the krefs stay exact if and only if it was one of those handed out; a handle the client does not have, unknown or another's, is refused as in ION_IOC_FREE; the map counts stay right if and only if no mapped handle is destroyed |
| IonDevices.IonDevice.Import | modules/ion/gpu/ion.c:570-590 | the client's handle for the buffer, one reference richer, or failure and no change |
| IonDevices.IonDevice.ImportFd | modules/ion/gpu/ion.c:594-613 | import of the buffer behind a share file |
| IonDevices.IonDevice.Share | modules/ion/gpu/ion.c:969-990 | a file holding a buffer reference, or failure and no change |
| IonDevices.IonDevice.ShareRelease | modules/ion/gpu/ion.c:815-825 | the file is closed; its buffer has one reference less, or is gone and freed once if that was the last; nothing else changes |
| IonDevices.IonDevice.Mmap | modules/ion/gpu/ion.c:879-948 | on success the mapping holds handle and client; it fails only for the reasons of the source, and then nothing has changed |
| IonDevices.IonDevice.MapHandle | modules/ion/gpu/ion.c:905-947 | the part after the client lookup: the imported handle is kept by the mapping or put back without a trace |
| IonDevices.IonDevice.VmaClose | modules/ion/gpu/ion.c:849-872 | the mapping's two references are given back, whether they are the last or not, and all krefs are exact; the map counts stay right if and only if neither put destroys a mapped handle |
| IonDevices.IonDevice.Map | modules/ion/gpu/ion.c:441-514 | on any device: the heap's map operation is called exactly on counts of zero, a failure rolls both counts back, and the BUG_ON is reported exactly; while the map counts are right it cannot fire, and the call comes exactly when nobody had the buffer mapped |
| IonDevices.IonDevice.Unmap | modules/ion/gpu/ion.c:516-546 | on any device: the heap's unmap operation is called exactly on the last unmap, and the BUG_ONs are reported exactly; while the map counts are right only the one on a handle that is not mapped can fire |
| IonDevices.IonDevice.CountsBacked | modules/ion/gpu/ion.c:386-413 | a mapped handle's buffer has a positive count, and the heap mapping is in effect exactly while it is positive |
| IonCalls.ClientPutBack | modules/ion/gpu/ion.c:944-947 | a client reference taken and put back leaves the device as it was |
| IonLaws.ShareReleaseDoes | modules/ion/gpu/ion.c:815-825 | closing a share file takes one reference from its buffer, and frees it if that was the last |
| IonLaws.FreeDoes | modules/ion/gpu/ion.c:229-256 | a reference is taken from the handle, or the handle goes and its buffer loses one |
| IonLaws.ImportDoes | modules/ion/gpu/ion.c:570-590 | the client's handle for the buffer has one reference more, or a new handle holds the buffer |
| IonLaws.MmapDoes | modules/ion/gpu/ion.c:879-932 | the mapping adds a reference to the handle and one to the client |
| IonLaws.OpenDoes | modules/ion/gpu/ion.c:1103-1123 | the task's client has one reference more, or a new client has one |
| IonLaws.ReleaseDoes | modules/ion/gpu/ion.c:1094-1101 | the client has one reference less, or is gone with all its handles, each of which gave back its buffer |
| IonLaws.VmaCloseDoes | modules/ion/gpu/ion.c:849-872 | handle and client have one reference less, whether that was the last or not |
| IonLaws.DestroyedAreGone | modules/ion/gpu/ion.c:772-797 | the destroy loop takes one reference from the buffer of each handle and frees the buffers that have no other |
| IonLaws.MapDoes | modules/ion/gpu/ion.c:386-400 | the handle's count in one mode goes up by one, and the buffer's with it when the handle's was zero |
| IonLaws.UnmapDoes | modules/ion/gpu/ion.c:402-413 | both go down in the same way |
| IonHeaps.AllocFrom | modules/ion/gpu/ion.c:311-363 | the first heap of the walk that matches and makes a buffer provides it; otherwise the last error is returned, and NULL if and only if no heap matches |
| IonHeaps.TilerFailsSilentlyExactly | modules/ion/gpu/omap/omap_tiler_heap.c:71-165 | with the handle ion_alloc returns, the silent failure of omap_tiler_alloc depends on the area, the pool, the pin, and on whether a tiler heap matches |
| IonScenarios.MappedHandleDestroyed | modules/ion/gpu/ion.c:229-241 | a history from the empty device to a state with exact krefs and wrong map counts |
| IonScenarios.HandleFreedTwice | modules/ion/gpu/ion.c:365-380 | a history from the empty device to wrong krefs: a handle freed twice is gone while a user mapping leads to it |
| AlarmQueues.LaterIsMicros | charge_only_mode/alarm.c:50-54 | the seconds-then-microseconds comparison orders times by their microseconds |
| AlarmQueues.After | charge_only_mode/alarm.c:81-86 | what the caller asks for: the normalised time exactly ms milliseconds later |
| AlarmQueues.DeadlineIsAfter | charge_only_mode/alarm.c:75-86 | the deadline stored in 32-bit fields is that time if and only if the sum of microseconds fits an int |
| AlarmQueues.FarDeadlineIsPast | charge_only_mode/alarm.c:75-86 | a time ahead for which the deadline stored lies in the past; stored one second later it does not |
| AlarmQueues.DeadlineNear | charge_only_mode/alarm.c:75-86 | no stored deadline is further ahead than an int of microseconds |
| AlarmQueues.LaterSecondIsAhead | charge_only_mode/alarm.c:43-86 | a deadline set in a later second than alarm_process sampled is ahead, for any int ms |
| AlarmQueues.DueHeadWakesTheLoop | charge_only_mode/alarm.c:62-73 | the exact condition for a delay below 1, with the wrap of the int; short of the wraps a due head always meets it, no alarm meets it a millisecond or more early, and the delay before it is stored is within a millisecond of the time left |
| AlarmQueues.VeryLateHeadIsMissed | charge_only_mode/alarm.c:69-72 | a due time for which the int wraps to the largest delay |
| AlarmQueues.EvenLaterHeadIsNoticed | charge_only_mode/alarm.c:69-72 | a later due time for which it wraps to 0 |
| AlarmQueues.FarHeadSpins | charge_only_mode/alarm.c:69-72 | of an alarm at most 2^32 ms ahead, the times at which the loop takes it for due: when it is less than a millisecond away, and while it is 2^31 ms away or more |
| AlarmQueues.InsertedSorted | charge_only_mode/alarm.c:90-109 | setting keeps the list sorted and puts the alarm behind all with the same deadline |
| AlarmQueues.CancelCount | charge_only_mode/alarm.c:113-135 | cancelling removes as many alarms as were pending for the function |
| AlarmRuns.AheadIfNear | charge_only_mode/alarm.c:75-86 | an alarm set by a callback is not due if its time is positive and its microseconds fit an int |
| AlarmRuns.CallbackSplits | charge_only_mode/alarm.c:43-135 | whatever a callback sets and cancels, due alarms only go, by cancelling, and the others are treated as if nothing were due |
| AlarmRuns.CallbackShrinks | charge_only_mode/alarm.c:49-59 | a callback that stores only deadlines ahead leaves fewer due alarms |
| AlarmRuns.ProcessFiresExactly | charge_only_mode/alarm.c:43-60 | when the deadlines that callbacks store lie ahead, exactly the due alarms that no earlier callback cancelled fire, once each, in deadline order with ties as set; the rest is left as the callbacks made it |
| AlarmRuns.FiredPlaces | charge_only_mode/alarm.c:43-60 | a due alarm fires in its place among the fired ones unless a callback that ran before it cancelled its function |
| AlarmRuns.AllDueFire | charge_only_mode/alarm.c:43-60 | when no callback cancels, every due alarm fires |
| AlarmRuns.NothingDueIsLeft | charge_only_mode/alarm.c:43-60 | afterwards the list is sorted and nothing on it is due |
| AlarmTurns.TurnsDueCount | charge_only_mode/alarm.c:49-59 | each turn of the loop takes one due alarm away and adds at most those its callback sets due, and exactly those if it cancels none |
| AlarmTurns.EndsExactly | charge_only_mode/alarm.c:43-60 | with callbacks that only set alarms the loop ends if and only if after some number of callbacks there were no more due alarms, at the start and set since, than callbacks |
| AlarmTurns.EndsIfAheadFrom | charge_only_mode/alarm.c:43-60 | with any callbacks the loop ends when only finitely many of them store a deadline that is not ahead |
| AlarmTurns.EndsWhenSecondIsOver | charge_only_mode/alarm.c:43-86 | with any callbacks and any int ms the loop ends when the clock passes the second that was sampled |
| AlarmTurns.RearmedEndsExactly | charge_only_mode/alarm.c:43-86 | an alarm that sets itself again, each time at the clock of then, keeps the loop running if and only if no deadline stored for it is ever ahead |
| AlarmTurns.RearmedTurns | charge_only_mode/alarm.c:43-86 | until then it fires once in every turn |
| AlarmTurns.WrappedFiresAgain | charge_only_mode/alarm.c:43-86 | with 2147484 ms it fires any given number of times before the second is over, and then rests |
| AlarmTurns.ForwardEnd | charge_only_mode/alarm.c:43-60 | when all deadlines stored lie ahead, the turns of the loop fire and leave what ProcessFiresExactly says |
| AlarmLists.AlarmList.SetRelative | charge_only_mode/alarm.c:75-111 | the linked list holds the new alarm in its place, with the deadline that 32-bit arithmetic gives for any int ms, and is otherwise the same |
| AlarmLists.AlarmList.Stamped | charge_only_mode/alarm.c:75-88 | the carry computed step by step gives that deadline |
| AlarmLists.AlarmList.CancelAll | charge_only_mode/alarm.c:113-135 | the linked list loses exactly the alarms of the function, and their number is returned |
| AlarmLists.AlarmList.PopDue | charge_only_mode/alarm.c:49-55 | the first alarm is unlinked if and only if it is due |
| AlarmLists.AlarmList.Turn | charge_only_mode/alarm.c:49-58 | one turn: the first alarm goes and its callback runs on the list if and only if it is due |
| AlarmLists.AlarmList.Process | charge_only_mode/alarm.c:43-60 | on the linked list, with re-entrant callbacks and whenever the loop ends: the alarms fired and the list left are those of the turns, nothing due is left, and when all deadlines stored lie ahead they are those of ProcessFiresExactly |
| AlarmLists.AlarmList.TimeUntilNext | charge_only_mode/alarm.c:62-73 | the delay in milliseconds as an int, below 1 if and only if there is a head that meets the condition of DueHeadWakesTheLoop |
| ChargeModes.CallbackIsOps | charge_only_mode/main.c:51-127 | each callback of main.c acts on the list by its listed set and cancel operations |
| ChargeModes.FireKeeps | charge_only_mode/main.c:51-127 | running the callback of the first alarm keeps the screen invariant |
| ChargeModes.WakeupKeyKeeps | charge_only_mode/main.c:129-146 | so do both wake-up handlers |
| ChargeModes.PowerEventKeeps | charge_only_mode/main.c:105-127 | and a battery event |
| ChargeModes.ProcessedKeeps | charge_only_mode/main.c:164-169 | and processing all due alarms, after which none is due |
| ChargeLaws.DarkenDoes | charge_only_mode/main.c:57-69 | the screen goes dark and the animation stops; the device is powered off if it is shut down, and not otherwise |
| ChargeLaws.DimDoes | charge_only_mode/main.c:71-76 | the screen is dimmed to 0.4 and goes dark 10 s later |
| ChargeLaws.StartDoes | charge_only_mode/main.c:78-85 | the display is lit at 0.8, dimmed 5 s later and animated half a second later |
| ChargeLaws.PowerKeyDoes | charge_only_mode/main.c:87-103 | one restart, no screen timer left, and the program quits if the restart works |
| ChargeLaws.PowerEventDoes | charge_only_mode/main.c:105-127 | a voltage of 3470000 or more is remembered; the first reading with neither charger powers off at once, with the screen dark and no screen timer; any other changes nothing |
| ChargeLaws.WakeupKeyDoes | charge_only_mode/main.c:129-138 | if the brightest stage was pending its end, the screen is out with no timer; otherwise it is lit at 0.8 with the two timers of a new cycle |
| ChargeLaws.WakeupKey2Does | charge_only_mode/main.c:140-146 | the other keys begin a new cycle in any case |
| ChargeLaws.PowerKeyDownDoes | charge_only_mode/main.c:179-182 | the key sets a timer of one second if a good voltage was read, and nothing otherwise |
| ChargeLaws.PowerKeyUpDoes | charge_only_mode/main.c:183-186 | releasing it cancels that timer and wakes the screen or puts it out |
| ChargeLaws.BegunDoes | charge_only_mode/main.c:148-164 | before the loop the device is read once and the first cycle begins |
| ChargeRuns.MainFiresExactly | charge_only_mode/main.c:51-146 | the callbacks that main.c runs are those alarm_process promises: due, not cancelled, once each, in order |
| ChargeRuns.RunKeeps | charge_only_mode/main.c:148-208 | in every reachable state at most one brightness alarm is pending, the animation alarm exactly when one is and never twice, and then the display is lit; a pending power-key alarm means the key is down |
| ChargeRuns.NextKeeps | charge_only_mode/main.c:164-208 | one turn of the loop keeps both invariants |
| ChargeRuns.PowerupMeansReading | charge_only_mode/main.c:105-127 | over every run powerup is set if and only if a voltage of at least POWERUP_VOLTAGE has been read, by main, for a battery event or by an animation callback |
| ChargeRuns.RestartsAreLongPresses | charge_only_mode/main.c:87-103 | over every run a reboot happens only when the key has been down for at least a second, and only after an earlier reading of at least POWERUP_VOLTAGE |
| ChargeLaws.LongPressRestarts | charge_only_mode/main.c:87-186 | over every run: a key pressed after a good voltage and not released for a second restarts the device, at the latest when alarms are next processed |
| ChargeRuns.UnpluggedPowersOff | charge_only_mode/main.c:120-126 | the first reading without a charger powers off at once, with the screen dark and no screen alarm left |
| ChargeLoops.ChargeOnly.HandlePower | charge_only_mode/main.c:105-127 | the state after a battery reading |
| ChargeLoops.ChargeOnly.Wakeup | charge_only_mode/main.c:129-138 | the power key puts a bright screen out and lights any other |
| ChargeLoops.ChargeOnly.Wakeup2 | charge_only_mode/main.c:140-146 | the other keys restart the display cycle |
| ChargeLoops.ChargeOnly.Call | charge_only_mode/main.c:51-103 | each function pointer runs its callback |
| ChargeLoops.ChargeOnly.ProcessAlarms | charge_only_mode/alarm.c:43-60 | processing with the callbacks of main.c, on the linked list, ends in the specified state |
| ChargeLoops.ChargeOnly.Turn | charge_only_mode/main.c:164-207 | alarms are processed in a turn exactly when the head met that condition as the loop asked; then no alarm that was due at the asking is left |
| ChargeLoops.ChargeOnly.Run | charge_only_mode/main.c:148-208 | the program's runs are runs of the event model, event by event as the turns of the loop meet them, so both invariants hold whenever the loop turns |
| Yv12.Yuv422iToYV12 | libcamera/cameraHal.cpp:190-222 | exactly width * height * 3 / 2 bytes are written, in bounds, and they are the converted planes |
| Yv12.CopyLuma | libcamera/cameraHal.cpp:196-204 | the Y plane is the even bytes of the source |
| Yv12.MeanChroma | libcamera/cameraHal.cpp:206-221 | the V plane then the U plane, each sample the truncated mean of its two rows |
| Yv12.PixelsConverted | libcamera/cameraHal.cpp:190-222 | pixel by pixel: Y kept, and the block's mean V and U in the right plane and place |
| Yv12.LumaBytes | libcamera/cameraHal.cpp:196-204 | byte by byte, the Y plane is every other byte of the source |
| Yv12.ChromaBytes | libcamera/cameraHal.cpp:206-221 | byte by byte, V and then U of each block are half the sum of its two rows, rounded down |
| Yv12.LosslessIffRowsPaired | libcamera/cameraHal.cpp:206-221 | no chroma is lost if and only if the rows of every pair carry the same chroma |
| RecordingFrames.QueueBounded | libcamera/cameraHal.cpp:346-385 | over every run the queue holds at most 16 frames if it began so |
| RecordingFrames.ConsecutiveDropsMeanHardThreshold | libcamera/cameraHal.cpp:353-368 | of two incoming frames in a row both are dropped if and only if more than 15 wait at the second |
| RecordingFrames.AtMostHalfDropped | libcamera/cameraHal.cpp:353-383 | while at most 15 wait, at most every second frame of a recording is dropped |
| RecordingFrames.RunConserves | libcamera/cameraHal.cpp:346-415 | the frames ever queued are those still waiting and those released |
| RecordingFrames.ReleasedExactlyOnce | libcamera/cameraHal.cpp:605-621 | a queued frame is released at most once, and has been exactly when it no longer waits |
| RecordingFrames.FlushReleasesAll | libcamera/cameraHal.cpp:406-415 | after a flush everything queued has been released |
| RecordingFrames.ReleaseFinds | libcamera/cameraHal.cpp:605-621 | releasing by data pointer takes out that very frame |
| RecordingFrames.ReturnedFromArrived | libcamera/cameraHal.cpp:346-385 | the camera gets back only buffers it delivered, and all of them if and only if every frame was dropped or copied |
| RecordingFrames.BufferIsKept | libcamera/cameraHal.cpp:346-385 | a frame whose buffer the camera does not get back |
| RecordingFrames.ArrivalDoes | libcamera/cameraHal.cpp:346-385 | a frame is dropped when more than 15 wait, or more than 12 and the one before was not; otherwise it is queued if it was copied; the preview is throttled when more than 6 wait |
| RecordingFrames.ReleaseDoes | libcamera/cameraHal.cpp:605-621 | the first frame with the data is released, and NULL or unknown data releases none |
| RecordingFrames.CameraDevice.DataTimestamp | libcamera/cameraHal.cpp:346-385 | the state after an incoming frame |
| RecordingFrames.CameraDevice.ReleaseRecordingFrame | libcamera/cameraHal.cpp:605-621 | the first frame with the data is released and removed; no match changes nothing |
| RecordingFrames.CameraDevice.ReleaseCameraFrames | libcamera/cameraHal.cpp:406-415 | every waiting frame is released once and the queue is empty |

## Left out

- memblock outside the live path: growth of a table without slab, NUMA ranges, debugfs and dumps, the panicking wrappers memblock_alloc and memblock_alloc_base, and the weak can_coalesce hook, taken at its default of 1.
- Ranges of size 0 and ranges that wrap at 4 GiB in memblock: memblock_reserve rejects the former with BUG_ON, and the callers of add, free and alloc do not pass either.
- MemblockTables.MemblockType.Remove: exact if and only if no region starts at the end of the range, because the loop of the source runs on to such a region.
- Memblocks.Memblock.Free: exact under the same condition.
- Memblocks.Memblock.ClipReserved: asks for a reserved region below the end, because the loop of the source does not end otherwise and a method must; MemoryLimit.ClipHaltsExactly covers the other inputs.
- Memblocks.Memblock.EnforceMemoryLimit: asks for a reserved region below the new end of DRAM, for the same reason.
- Memblocks.LimitAndAnalyze: asks the same.
- MemblockRuns.RunSafe: a run frees whole blocks, of the size that was reserved; frees of the size asked for are in AllocFreeRestores.
- gen_pool chunks at address 0, whose first block could not be told from failure, and the locks and NUMA node of the pool.
- GenPools.Pool.Free: asks that a range which ends inside its chunk have all its bits on the bitmap, as every range below 4 GiB has in chunks of whole units.
- GenPools.BitsFor: does not cut the number of bits to an int, which matters for requests and chunks of 2 GiB and more in a pool of order 0; addresses handed out from a chunk whose end wraps are not cut to 32 bits either.
- The tiler path through nonsecure_tiler_heap, tiler sizes whose page count overflows or is zero, and the tiler hardware, which is a set of areas and a set of pins whose calls may fail.
- ion_vma_open, which takes a client reference but no handle reference, ion_device_add_heap, gralloc imports, debugfs, and copying to and from user space.
- Ion below the granularity of one reference: the steps of concurrent calls interleave in IonRuns, but the memory operations inside one step do not; the class runs one call at a time.
- IonRuns.RunSafe: a final put is atomic with the destruction it triggers, which the source does not lock together: the last put of a handle or buffer is one step, and a dying client keeps its last reference on the ledger until its handles are gone. The search for a task's client is atomic with the insertion of a new one, while ion_client_create unlocks the device between them: two opens by threads of one process may both insert, and the second insertion loop makes no progress on an equal task.
- IonDevices.IonDevice.Map: does not model the pointer that the heap returns and the buffer keeps, also when it is an error.
- AlarmLists.AlarmList.Process: asks that the loop end, which AlarmTurns shows for every clock that goes on; a method has to.
- A failing malloc in alarm_set_relative is modelled in the list but not in the event loop of main.c, which ignores it; a clock that runs backwards, cookies, and deadlines beyond the range of time_t.
- Real reboots, LEDs, the framebuffer, and screen drawing: they are counted or recorded, not performed.
- Preview frames of odd width or height, for which 4:2:2 and YV12 are not defined, negative sizes, and the unused stride.
- gralloc, overlay and parameter plumbing of the camera HAL, and the preview throttling by time.
- Audio policy, lights, usbd, boot mode, hooks, network switching and build files: glue over libraries that are not part of this model, or state machines too small to add a hard property.
