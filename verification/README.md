# RT-Thread kernel: a verified model

A Dafny model of the core of the RT-Thread kernel (`src/`), with proofs of what its data structures
and protocols promise.

- **Two heaps.** The boundary-tag heap of `memheap.c` and the small-memory heap of `mem.c` share the theory of
  block chains (`BlockChain`), of headers linked as a chain (`HeaderLinks`) and of what may happen to the bytes
  (`HeapBytes`). Alignment is `RT_ALIGN_SIZE` = 4; header sizes and pool sizes are symbolic.
- **Slab allocator** (`slab.c`): page runs (`Pages`), size classes and zones (`Zones`), and the allocator over them.
- **Timers** (`timer.c`): a skip list with any number of rows, compared modulo 2^32, against a sequence sorted by
  true time; and calls that interrupt each other (`TimerCalls`).
- **Scheduler** (`scheduler.c`, `thread.c`, `clock.c`, `__rt_ffs`): ready lists, one- and two-level bitmap, round
  robin; and thread operations that interrupt each other (`ThreadCalls`).
- **IPC** (`ipc.c`): semaphore, mutex with priority inheritance, event, mailbox and message queue as step systems,
  with waiting lists, resumed threads that have not run yet, timeouts and resets.
- **Waiting** (`Kernel`): scheduler, semaphores and thread timers in one state, with what a timed wait promises.
- **Intrusive list** (`rtservice.h`), on linked objects.

Each component has a specification, `XSpec`: its state as a value, its operations as functions, an invariant, and
a function over any sequence of operations (`RunAll`, `Run`) whose result is proved to satisfy the invariant. A class
beside it holds the fields the kernel holds and changes them step by step; its methods are proved to take exactly the
specified steps. Code that runs with interrupts disabled, or under the heap semaphore, is one step. Operations that
enable interrupts on their way are one step in `TimerSpec.RunAll` and `SchedulerSpec.RunAll`, and several in
`TimerCalls`, `ThreadCalls`, `MailboxSpec` and `MessageQueueSpec`, with other calls in between. Names and addresses
become numbers; null is a negative number.

Where the code and its documentation disagree the model follows the code:

- `slab.c` says that power-of-two chunks are aligned to their size. Above the page size they are only as aligned as
  their zone is (`Zones.ChunkAligned`, `Zones.LargeChunkMisaligned`).
- `mem.c` says that `lfree` points to the lowest free block. After the shrink path of `rt_realloc` it may not
  (`SmallMemSpec.ShrinkLowest`, `SmallMemSpec.ShrinkHidesMemory`).
- `memheap.c` refuses a request that equals the whole available size (`MemHeapSpec.AllocRefusesLast`), and `mem.c` an exact fit
  in the last block (`SmallMemSpec.MallocFails`).
- `rt_memheap_realloc` with a request from 0xfffffff1 to 0xfffffffc and a free right neighbour takes the grow path,
  because its guard wraps round, and writes a header inside the block (`MemHeapSpec.ReallocInv`,
  `MemHeapSpec.ReallocWraps`). All other reallocations keep the pool whole (`MemHeapSpec.RunInv`).
- `rt_realloc` of `mem.c` with a request above 2^32 - 4 frees the block (`SmallMemSpec.ReallocGives`,
  `SmallMemSpec.ReallocFreesHuge`), and such a request to `rt_malloc` or `rt_memheap_alloc` is served with the
  smallest block (`SmallMemSpec.MallocGives`, `MemHeapSpec.AllocGives`).
- `rt_timer_start` links the timer in a second region without looking whether it is linked. A start of the same timer
  in between breaks the list (`TimerCalls.NestedStart`), and a start inside `rt_timer_stop` leaves a running timer that
  cannot be stopped (`TimerCalls.StartInStop`). `TimerCalls.StepWhole` says exactly which steps do harm.
- `rt_thread_resume` inserts the thread in a second region, and `rt_thread_delete` closes it after its region. Other
  operations on the thread in between can break the ready lists (`ThreadCalls.NestedResume`,
  `ThreadCalls.ChangeInDelete`); `ThreadCalls.StepWhole` says exactly which.
- `rt_thread_control` leaves a waiting thread in its place when it changes its priority, so that a list by priority
  may get out of order (`WaitList.ChangeFair`, `WaitList.ChangeUnfair`).
- The 16-bit `rt_scheduler_lock_nest` wraps after 32767 locks (`SchedulerSpec.LockOverflows`).
- The 8-bit `hold` of a mutex wraps at the 256th nested take (`MutexSpec.TakeInv`, `MutexSpec.TakeOverflows`), the 16-bit value of
  a semaphore at 65536 (`SemaphoreSpec.ValueLaw`).

## Model

| member | source | states |
|---|---|---|
| `Words.AlignCovers` | include/rtdef.h:281 | rounding a size up to a multiple of 4 covers the size exactly when the 32-bit sum does not wrap round |
| `BlockChain.ChainUnique` | src/mem.c:157-195 | a tiling of the pool without free neighbours is determined by its used blocks alone, so the order of takes and releases leaves no trace |
| `BlockChain.BytesConserved` | src/memheap.c:146-596 | used bytes, free data bytes and the headers of free blocks always add up to the pool |
| `BlockChain.UsedApart` | src/memheap.c:146-596 | the blocks in use of any tiling are pairwise disjoint and lie in the pool |
| `BlockChain.AllocCanonical` | src/memheap.c:190-265 | taking a free block, with or without a split, keeps a tiling without two free neighbours |
| `BlockChain.FreeCanonical` | src/memheap.c:536-592 | releasing a block and merging it on both sides keeps a tiling without two free neighbours |
| `BlockChain.ResizeCanonical` | src/memheap.c:356-489 | growing into the free right neighbour, or cutting a block and merging the rest, keeps a tiling without two free neighbours |
| `BlockChain.AllocThenFree` | src/mem.c:273-411 | releasing the block just taken gives back the very same chain, whichever merges that needs |
| `BlockChain.FreeAllAnyOrder` | src/mem.c:549-611 | releasing all used blocks in any order leaves one free block over the whole pool |
| `HeaderLinks.RelinkSplit` | src/memheap.c:195-235 | the four link writes of a split turn headers linked as one chain into headers linked as the split chain, forwards and backwards |
| `HeaderLinks.RelinkFree` | src/memheap.c:536-592 | the link writes of a release with its merges give headers linked as the merged chain |
| `HeaderLinks.RelinkGrow` | src/memheap.c:368-400 | the link writes of growing in place give headers linked as the chain with the moved boundary |
| `HeaderLinks.RelinkPlug` | src/mem.c:157-195 | the link writes of `plug_holes` give headers linked as the chain with both merges |
| `HeapBytes.PutHeader` | src/memheap.c:195-235 | header words land byte by byte where the header is, no other byte of the pool changes, and so none of a live block it is clear of |
| `HeapBytes.Copy` | src/memheap.c:412-420 | the copy loop writes the source bytes to the target and nothing outside it |
| `MemHeapSpec.RequestCovers` | src/memheap.c:153-157 | the size served covers the request exactly up to 2^32 - 4, and is 12 above; it is a multiple of 4 and at least 12 |
| `MemHeapSpec.AllocInv` | src/memheap.c:146-288 | an allocation keeps: tiling ending at the tail, no two free neighbours, free list holds exactly the free blocks once each, counter equals the summed free data sizes, and the high-water mark bounds the used bytes |
| `MemHeapSpec.FreeInv` | src/memheap.c:499-596 | a release keeps the same invariant through none, one or both merges |
| `MemHeapSpec.ResizeInv` | src/memheap.c:356-489 | growing and shrinking in place keep the same invariant |
| `MemHeapSpec.ReallocInv` | src/memheap.c:291-496 | reallocation keeps the same invariant exactly unless the guard `newsize + 12` wraps round 2^32 and the right neighbour is free, for every live block and every request |
| `MemHeapSpec.ReallocWraps` | src/memheap.c:354-400 | a pool of 160 bytes after one 12-byte allocation, in which asking for 0xfffffff1 bytes takes the grow path and breaks the invariant |
| `MemHeapSpec.StepInv` | src/memheap.c:146-596 | any one call keeps the invariant exactly unless it is such a reallocation |
| `MemHeapSpec.RunInv` | src/memheap.c:60-596 | on any run of alloc, free and realloc from initialisation the invariant holds at every point exactly when no reallocation of the run grows with a wrapped guard |
| `MemHeapSpec.SmallHarmless` | src/memheap.c:354-400 | runs that never reallocate to more than 0xfffffff0 bytes are of that kind, whatever else they do |
| `MemHeapSpec.AllocGives` | src/memheap.c:146-288 | a successful allocation adds exactly one block that was not in use, which holds the request up to 2^32 - 4 and is larger than the size served by less than a header and 12 bytes; above that it gets little more than 12 bytes; a failed one changes nothing |
| `MemHeapSpec.AllocFails` | src/memheap.c:162-187 | allocation fails exactly when the available size does not exceed the request or no free block is large enough |
| `MemHeapSpec.AllocRefusesLast` | src/memheap.c:162-187 | when some free block fits, the request is refused exactly when it equals the whole available size |
| `MemHeapSpec.FreeGives` | src/memheap.c:499-596 | a release takes exactly its block out of use |
| `MemHeapSpec.AllocFreeRoundTrip` | src/memheap.c:146-596 | freeing what was just allocated restores the block list and the available size exactly, the free list up to order |
| `MemHeapSpec.ReallocGives` | src/memheap.c:291-496 | reallocation exchanges one block in use for another that holds the rounded request, or changes nothing and returns null, exactly unless the guard wraps with a free right neighbour |
| `MemHeapSpec.ReallocAnswers` | src/memheap.c:291-496 | unless the guard wraps, reallocation fails exactly when the block is too small, the free space behind it does not do and no allocation could succeed; the block stays exactly when it is large enough or can grow, and its new size is given |
| `MemHeapSpec.AllocPlace` | src/memheap.c:176-205 | an allocation takes the start of the first block of the free list that is large enough |
| `MemHeapSpec.FreedFirst` | src/memheap.c:536-592 | memory just freed, with no free memory in front of it, serves the next request that fits |
| `MemHeapSpec.HighWater` | src/memheap.c:207-260 | max_used_size rises exactly when a call uses more than ever before, counting both places of a block that moves |
| `MemHeapSpec.RunHighWater` | src/memheap.c:60-596 | over a whole run it is the most that was in use at any moment |
| `MemHeap.Heap.constructor` | src/memheap.c:60-131 | sets up one free block, the used tail and the free ring |
| `MemHeap.Heap.Search` | src/memheap.c:176-187 | the walk along the free ring stops at the first entry of the free list that fits, or at the heap header |
| `MemHeap.Heap.Alloc` | src/memheap.c:146-288 | the header writes take exactly the specified step, keep both linked structures, and change no user byte of a live block |
| `MemHeap.Heap.Free` | src/memheap.c:499-596 | the header writes take exactly the specified step and change no user byte of the blocks that stay live |
| `MemHeap.Heap.Grow` | src/memheap.c:368-400 | moves the end of a block into its free right neighbour in both linked structures, keeping the bytes of the block |
| `MemHeap.Heap.GrowInside` | src/memheap.c:354-400 | with a wrapped guard the same writes put a header inside the block itself: exactly the broken pool that is specified |
| `MemHeap.Heap.Shrink` | src/memheap.c:436-486 | cuts a block and merges the rest with a free right neighbour, keeping the bytes that stay |
| `MemHeap.Heap.Realloc` | src/memheap.c:291-496 | takes exactly the specified step on every branch and leaves valid structures exactly unless the guard wraps; a result other than null then starts with the first min(old, new) bytes, and other live blocks keep theirs |
| `SmallMemSpec.MallocInv` | src/mem.c:273-411 | an allocation keeps: tiling of [0, heap_end), no two free neighbours, used_mem equal to the summed sizes of used blocks, and lfree a free block or heap_end |
| `SmallMemSpec.FreeInv` | src/mem.c:549-611 | a release keeps the same invariant |
| `SmallMemSpec.ShrinkInv` | src/mem.c:472-498 | the shrink path of realloc keeps the same invariant |
| `SmallMemSpec.ReallocInv` | src/mem.c:422-511 | reallocation keeps the same invariant on every branch |
| `SmallMemSpec.RunInv` | src/mem.c:157-611 | in memories of at least 12 bytes the invariant holds after every run of calls, and on runs without realloc lfree is the lowest free block |
| `SmallMemSpec.RequestCovers` | src/mem.c:280-304 | the size served covers the request exactly for requests up to 2^32 - 4; above, rounding gives 0 and the smallest size is served |
| `SmallMemSpec.MallocGives` | src/mem.c:273-411 | a successful allocation adds exactly one new block in use, which holds the request up to 2^32 - 4 and is larger than the size served by less than a header and 12 bytes; above that it gets little more than the smallest block; a failed one changes nothing |
| `SmallMemSpec.FreeGives` | src/mem.c:549-611 | a release takes exactly its block out of use |
| `SmallMemSpec.MallocFails` | src/mem.c:306-312 | a request fails exactly when it is zero or oversized, or every free block from lfree on that could hold it is an exact fit at the end of the heap |
| `SmallMemSpec.MallocFailsOnlyWhenFull` | src/mem.c:306-312 | while lfree is lowest, a request that is not zero or oversized fails exactly when nothing fits, with the exact fit at the end of the heap as the one exception |
| `SmallMemSpec.MallocLowest` | src/mem.c:381-388 | allocation keeps lfree the lowest free block |
| `SmallMemSpec.FreeLowest` | src/mem.c:598-602 | release keeps lfree the lowest free block |
| `SmallMemSpec.ShrinkLowest` | src/mem.c:472-498 | shrinking keeps lfree lowest exactly when a free block lies below the shrunk one or lfree is its right neighbour |
| `SmallMemSpec.ShrinkHidesMemory` | src/mem.c:472-498 | a concrete heap in which a shrink leaves free memory that the next request cannot reach |
| `SmallMemSpec.MallocFreeRoundTrip` | src/mem.c:273-611 | freeing the block just allocated restores the chain, lfree and used_mem exactly |
| `SmallMemSpec.FreeEverything` | src/mem.c:549-611 | from any heap that satisfies the invariant, freeing all live blocks in any order leaves one free block, used_mem 0 and lfree at 0, unless nothing was in use and lfree was already at heap_end |
| `SmallMemSpec.ReallocGives` | src/mem.c:422-511 | reallocation exchanges one block for one that holds the rounded request, or changes nothing and returns null, exactly unless the rounded request is 0; then the block is freed |
| `SmallMemSpec.ReallocAnswers` | src/mem.c:422-511 | reallocation fails exactly when the rounded size is 0 or more than the memory, or the block must move and no block from lfree on will do; the block stays exactly when the size is unchanged or the rest makes a block, and then has exactly that size |
| `SmallMemSpec.MallocPlace` | src/mem.c:306-320 | an allocation takes the lowest block from lfree on that fits within the bound |
| `SmallMemSpec.MallocLow` | src/mem.c:381-388 | afterwards lfree is the lowest free block at or behind where it was, or heap_end |
| `SmallMemSpec.FreeLow` | src/mem.c:598-611 | after a release lfree is the start of the free block that holds the lower of its old value and the freed block |
| `SmallMemSpec.HighWater` | src/mem.c:340-372 | max_mem rises exactly when a call uses more than ever before |
| `SmallMemSpec.RunHighWater` | src/mem.c:205-611 | over a whole run it is the most that was in use at any moment |
| `SmallMemSpec.ReallocFreesHuge` | src/mem.c:439-443 | a request for 0xfffffffd bytes frees the block and returns null, in every heap |
| `SmallMemSpec.TinyHeapNeverAnswers` | src/mem.c:306-312 | with less than the minimal size of memory the bound of the search wraps round and the search never ends |
| `SmallMem.Heap.constructor` | src/mem.c:205-258 | one free block and the used heap_end |
| `SmallMem.Heap.PlugHoles` | src/mem.c:157-195 | merges a free block with its free neighbours in the headers |
| `SmallMem.Heap.Search` | src/mem.c:306-312 | the first-fit loop finds the first block from lfree on that fits, within its strict bound |
| `SmallMem.Heap.AdvanceLfree` | src/mem.c:381-388 | the loop moves lfree to the next free block or heap_end |
| `SmallMem.Heap.Malloc` | src/mem.c:273-411 | the header writes take exactly the specified step and change no user byte of a live block |
| `SmallMem.Heap.Free` | src/mem.c:549-611 | the header writes take exactly the specified step and change no user byte of the blocks that stay live |
| `SmallMem.Heap.Realloc` | src/mem.c:422-511 | takes exactly the specified step; the first min(old, new) bytes are kept and so are all other live blocks; pointers outside the heap come back unchanged |
| `Pages.ListUnique` | src/slab.c:282-332 | of all address-sorted lists of maximal runs only one has a given set of free pages |
| `Pages.FirstFitFails` | src/slab.c:246-280 | the search for n pages fails exactly when no n neighbouring pages are free |
| `Pages.FirstFitLowest` | src/slab.c:246-280 | the pages found are the lowest that will do |
| `Pages.TakeKeeps` | src/slab.c:246-280 | allocation removes exactly its pages and keeps the runs maximal |
| `Pages.InsertKeeps` | src/slab.c:282-332 | release adds exactly its pages and keeps the runs sorted and maximal |
| `Pages.ReleaseOrderFree` | src/slab.c:282-332 | any two ways of releasing the same pages give the same list |
| `Pages.AllocThenFree` | src/slab.c:246-332 | releasing what was just allocated restores the list |
| `Pages.PageList.Alloc` | src/slab.c:246-280 | the loop takes the first run that is large enough; zero pages and no room give null |
| `Pages.PageList.Free` | src/slab.c:282-332 | the walk inserts and joins exactly as specified |
| `Zones.ZoneIndexBest` | src/slab.c:411-469 | a request goes to the smallest of the 72 classes whose chunks hold it |
| `Zones.PowerOfTwoTest` | src/slab.c:650-653 | the bit test of the source recognises exactly the powers of two among the chunk sizes |
| `Zones.ChunksApart` | src/slab.c:571-583 | chunks of a zone do not overlap, lie in the zone and are clear of its header |
| `Zones.TakeKeeps` | src/slab.c:554-583 | a chunk handed out was not in use, nothing else changes hands, and z_nfree = (z_nmax-1-z_uindex) + length of the free list stays true |
| `Zones.GiveKeeps` | src/slab.c:859-875 | a chunk given back is the only one that leaves use, and the count stays true |
| `Zones.TakeChooses` | src/slab.c:554-583 | chunks go out in the order of their addresses, and once all have been out the one given back last goes first |
| `Zones.AllFree` | src/slab.c:871-884 | z_nfree reaches z_nmax exactly when no chunk of the zone is in use |
| `Zones.NewZoneInv` | src/slab.c:640-667 | a new zone of any class satisfies the zone invariant, has its first chunk in use and at least two left |
| `Zones.NewZoneFull` | src/slab.c:643-660 | a zone has as many chunks as fit, and its header with the alignment wastes less than one |
| `Zones.ChunkAligned` | src/slab.c:643-653 | chunks whose size is a power of two are aligned to it exactly when their zone is |
| `Zones.SmallChunksAligned` | src/slab.c:643-653 | so they are for all sizes up to the page size |
| `Zones.LargeChunkMisaligned` | src/slab.c:643-653 | a zone at an odd page hands out 8192-byte chunks that are not aligned to 8192 |
| `SlabSpec.AddRegion` | src/slab.c:512-519 | pages taken from the free list become a region, with the page table telling so, and every page stays free or in exactly one region |
| `SlabSpec.RemoveRegion` | src/slab.c:826-849 | a region goes back to the free list under the same invariant |
| `SlabSpec.LookupFinds` | src/slab.c:824-857 | the page table leads from any object in use to the zone or the page run it came from, with its length |
| `SlabSpec.MallocGives` | src/slab.c:488-682 | a successful request adds exactly one object, at least as large, disjoint from every live object, and keeps the invariant of runs, regions, page table, class lists and spare zones |
| `SlabSpec.MallocFails` | src/slab.c:488-682 | a request fails, changing nothing, exactly when rounding to pages wraps, or it needs pages and no span of free pages is long enough |
| `SlabSpec.MallocChooses` | src/slab.c:533-667 | a small request comes from the first zone in the list of its class if one has room, else from the newest spare zone, else from the lowest free pages that make a zone |
| `SlabSpec.MallocPagesChooses` | src/slab.c:512-530 | a large request comes from the lowest free pages that hold it |
| `SlabSpec.FreeGives` | src/slab.c:791-933 | a release removes exactly its object and keeps the invariant, also when the zone becomes spare or its pages are released |
| `SlabSpec.FreeRetires` | src/slab.c:859-928 | a zone stops being active exactly when its last object goes and another zone serves its class; it then becomes the newest spare, or its pages become free when there are two spares; a full zone that gets a chunk back joins its list at the front; no other region or list changes |
| `SlabSpec.FreeReleases` | src/slab.c:826-849 | the pages of a large object become free and nothing else changes |
| `SlabSpec.RetireKeeps` | src/slab.c:883-928 | a zone without objects can become spare or give its pages back; no object appears or disappears |
| `SlabSpec.LiveApart` | src/slab.c:488-682 | objects in use never overlap, across zones and page runs |
| `SlabSpec.HeaderApart` | src/slab.c:640-667 | no object in use touches a zone header, of its own zone or of another |
| `SlabSpec.RunAll` | src/slab.c:354-933 | the invariant holds after every run of malloc and free: no page is lost or doubly used, and zone lists hold exactly the zones of their class with a free chunk |
| `SlabSpec.RunSafe` | src/slab.c:488-933 | in every reachable state live objects are disjoint, no byte of one is in a free page, and none touches a zone header |
| `SlabAllocator.ZoneSize` | src/slab.c:386-388 | the doubling loop gives 32, 64 or 128 KiB: the largest that stays below a 1024th of the heap, or the smallest |
| `SlabAllocator.Slab.constructor` | src/slab.c:354-405 | all pages free but the page table, whose contents do not matter |
| `SlabAllocator.Slab.MarkZone` | src/slab.c:631-637 | the loop writes the distance of each page from the start of its zone |
| `SlabAllocator.Slab.Unlink` | src/slab.c:892-894 | the search for the link removes the zone from its list |
| `SlabAllocator.Slab.Malloc` | src/slab.c:488-682 | takes exactly the specified step |
| `SlabAllocator.Slab.Free` | src/slab.c:791-933 | takes exactly the specified step |
| `Ordered.PlaceSorted` | src/timer.c:339-368 | stable insertion keeps the sequence sorted |
| `Ordered.PlaceAtCut` | src/timer.c:339-368 | a linear scan stops behind the last element whose key is not larger |
| `Ordered.PlaceThenRemove` | src/timer.c:123-131 | inserting and removing an element leaves the others in their order |
| `Ordered.ChangeSorted` | src/timer.c:321 | a new key for one element leaves the sequence sorted exactly when it is in order with the two neighbours |
| `TimerSpec.MinusOrders` | src/timer.c:356-363 | for times less than RT_TICK_MAX/2 apart the wrapped difference tells earlier, equal and later apart |
| `TimerSpec.MinusExact` | src/timer.c:356-363 | for times less than 2^32 apart the test is right exactly within the stated bounds |
| `TimerSpec.KeepPlace` | src/timer.c:339-368 | inserting into the bottom row and then keeping the timers of some height equals inserting into that row |
| `TimerSpec.KeepSubsequence` | src/timer.c:123-131 | each row is a subsequence of the row below |
| `TimerSpec.StartSound` | src/timer.c:294-409 | starting a timer keeps the row sorted by true time, each running timer in it once |
| `TimerSpec.StopSound` | src/timer.c:419-442 | stopping a timer keeps the same |
| `TimerSpec.StartGives` | src/timer.c:294-409 | a start sets the end of its timer to now plus init_tick and leaves the times, states and order of all others |
| `TimerSpec.StopGives` | src/timer.c:419-442 | a stop clears its timer and leaves all others |
| `TimerSpec.LinkSound` | src/timer.c:323-389 | the second region of a start, which removes nothing, keeps the row sorted with each running timer in it once exactly when the timer is not linked yet, also when its end has passed |
| `TimerSpec.SetSound` | src/timer.c:321 | storing an end keeps the same exactly when the timer is not linked or stays in order with its neighbours |
| `TimerSpec.StartSteps` | src/timer.c:294-409 | unlinking, storing the end and linking, one after the other, make up a start |
| `TimerSpec.CheckFires` | src/timer.c:488-546 | a check ends, fires exactly the expired timers in (timeout, start) order, re-arms periodic ones to now + init_tick, ends the others, touches no timer that did not fire, and leaves none expired |
| `TimerSpec.CheckOrder` | src/timer.c:488-546 | afterwards the row is the unexpired timers with the periodic ones inserted in firing order |
| `TimerSpec.TickFires` | src/clock.c:83-105 | with a check at every tick each timer fires in the tick it is due (with no ticks to wait, in the next), and a periodic one is due again exactly init_tick later |
| `TimerSpec.TickStable` | src/clock.c:83-105 | a tick keeps all running timers within half the tick range |
| `TimerSpec.RunAll` | src/timer.c:294-546 | sortedness and the window hold after every run of starts, stops and ticks, across any number of wraps, when nothing falls into a call |
| `TimerSpec.StableCalm` | src/timer.c:294-546 | this is the state of `Calm` with no lateness |
| `TimerSpec.CalmLink` | src/timer.c:323-389 | a link up to `late` ticks after the end was computed leaves no timer more than `late` ticks overdue and all within half the tick range, exactly when the timer was not linked yet |
| `TimerSpec.CalmTick` | src/clock.c:83-105 | a tick then fires exactly the timers due by it, none more than `late` + 1 ticks after its end, and leaves the others so |
| `TimerCalls.StepWhole` | src/timer.c:294-442 | starts and stops are split where interrupts are enabled, and any number of calls on any timers interleave: a step keeps the list sound and its flags right exactly unless it links a linked timer, clears the flag of a linked timer, or stores an end that puts a linked timer out of place |
| `TimerCalls.RunWhole` | src/timer.c:294-546 | after any interleaving of starts, stops and ticks the list is as it should be exactly when no step of the run was of that kind |
| `TimerCalls.SerialHarmless` | src/timer.c:294-442 | runs in which no start begins while another call on its timer is in the middle have no such step |
| `TimerCalls.WholeStart` | src/timer.c:294-409 | the steps of a start with nothing in between are the start of the specification |
| `TimerCalls.WholeStop` | src/timer.c:419-442 | the steps of a stop with nothing in between are the stop of the specification, and nothing happens when the flag is clear |
| `TimerCalls.NestedStart` | src/timer.c:306-389 | a start of a timer inside another start of it breaks the list, whatever state it was in |
| `TimerCalls.NestedRun` | src/timer.c:306-389 | the shortest such run from initialisation |
| `TimerCalls.StartInStop` | src/timer.c:419-442 | a start inside a stop leaves the timer linked with its flag cleared, so that it cannot be stopped |
| `TimerSpec.CalmWindow` | src/timer.c:356-363 | in such a state all running timers are in one window of half the tick range, as the comparisons of the skip list need |
| `TimerList.TimerList.RowsNest` | src/timer.c:294-409 | in every valid state each row is a subsequence of the row below, for any number of rows |
| `TimerList.TimerList.Unlink` | src/timer.c:123-131 | removes the timer from every row |
| `TimerList.TimerList.Scan` | src/timer.c:342-364 | the inner loop with its wrapped comparison ends at the place a scan by true time finds |
| `TimerList.TimerList.Descend` | src/timer.c:339-368 | the descent finds in every row the place a linear scan of that row would |
| `TimerList.TimerList.LinkRows` | src/timer.c:373-389 | links the timer into the bottom row and some rows above, contiguous from the bottom |
| `TimerList.TimerList.Store` | src/timer.c:321 | computing the end from a tick read before, modulo 2^32, equals storing the true end, and keeps the rows valid exactly when a linked timer stays in its place |
| `TimerList.TimerList.Link` | src/timer.c:323-389 | the second region of a start, at whatever tick it runs: the descent and the link writes equal stable linear insertion by the end stored in the timer, and leave valid rows exactly when the timer was not linked |
| `TimerList.TimerList.Start` | src/timer.c:294-409 | the skip list operation equals stable linear insertion in the bottom row, when nothing falls into it |
| `TimerList.TimerList.Stop` | src/timer.c:419-442 | fails when the timer does not run, else removes it from all rows, when nothing falls into it |
| `TimerList.TimerList.Check` | src/timer.c:488-546 | the firing loop with wrapped comparisons terminates and equals the specified check |
| `TimerList.TimerList.Tick` | src/clock.c:83-105 | counting the tick modulo 2^32 and checking equals the specified tick, also with timers that were linked up to `late` ticks late |
| `TimerList.TimerList.NextTimeout` | src/timer.c:110-121 | gives the timeout of a timer due first, RT_TICK_MAX when none runs |
| `RtList.Node.constructor` | include/rtservice.h:61-64 | a ring of one node |
| `RtList.InsertAfter` | include/rtservice.h:72-79 | the node joins the ring right behind the given one, links right in both directions, writing only the three nodes |
| `RtList.InsertBefore` | include/rtservice.h:87-94 | the node joins right in front of the given one; at the head that is the end of the list |
| `RtList.Remove` | include/rtservice.h:100-106 | the rest stays a ring and the node becomes a ring of its own, also when it was one already |
| `RtList.IsEmpty` | include/rtservice.h:112-115 | true exactly when the ring has no other node |
| `RtList.Len` | include/rtservice.h:121-132 | the counting walk ends and gives the number of other nodes |
| `Bits.TableLowest` | src/kservice.c:1249-1267 | the 256-entry table holds the lowest set bit of every byte |
| `Bits.FfsLowest` | src/kservice.c:1279-1293 | __rt_ffs gives the lowest set bit of every 32-bit word, counted from 1 |
| `ReadyBitmap.SetMirrors` | src/scheduler.c:286-323 | after a thread was inserted a bit is set exactly when the list of its priority is not empty, in the one-level and the two-level form |
| `ReadyBitmap.ClearMirrors` | src/scheduler.c:332-372 | the same after a thread was removed |
| `ReadyBitmap.HighestTop` | src/scheduler.c:205-212 | one or two bit searches find the most urgent list that is not empty |
| `SchedulerSpec.SchedulePicks` | src/scheduler.c:191-277 | with the lock open the first thread of the most urgent ready priority runs, and no ready thread is more urgent |
| `SchedulerSpec.StepInv` | src/thread.c:273-752 | startup, suspend, resume, timeout, priority change, delete, exit, yield, tick and lock changes keep: a thread is ready exactly when it is, once, in the list of its current priority, when nothing falls into them |
| `SchedulerSpec.RunAll` | src/thread.c:95-752 | this holds after every run of such operations |
| `SchedulerSpec.InsertLists` | src/scheduler.c:286-323 | inserting a thread keeps that exactly when the thread is not ready yet |
| `SchedulerSpec.WakeGives` | src/thread.c:273-304 | a thread that starts up, is resumed or timed out is ready, last of its priority, a new one with its own priority; all others keep state and order |
| `SchedulerSpec.SleepGives` | src/thread.c:413-679 | a thread that is suspended, deleted or ends has that state and is in no list; all others keep state and order; suspending one that is not ready changes nothing |
| `SchedulerSpec.ChangeGives` | src/thread.c:569-616 | the thread has the new priority and its old state, and if ready stands last of that priority; all others keep state and order |
| `SchedulerSpec.YieldGives` | src/thread.c:453-487 | the running thread goes behind all of its priority exactly if there are others |
| `SchedulerSpec.TickTurns` | src/clock.c:83-105 | a tick takes one tick from the running thread; when its slice is used up the top list turns by one and the next thread runs |
| `SchedulerSpec.RoundRobin` | src/clock.c:83-105 | with only ticks, the thread at any position of the top list runs after exactly the ticks left to those before it, at most the sum of their slices, and the list is then rotated to it |
| `SchedulerSpec.RoundRobinFirst` | src/thread.c:453-487 | until then only threads before it run |
| `SchedulerSpec.LockNests` | src/scheduler.c:377-420 | after n < 2^15 locks exactly the n-th unlock opens the scheduler, with all else unchanged until it schedules |
| `SchedulerSpec.LockOverflows` | src/scheduler.c:377-420 | after n locks one unlock opens the scheduler exactly for n = 1 and, the 16-bit counter having wrapped, for n from 32769 to 65536 |
| `ThreadCalls.StepWhole` | src/thread.c:273-722 | resume, suspend, delete and startup are split where interrupts are enabled: a step keeps the ready lists right exactly unless a resume or a delete goes on with a thread that has become ready meanwhile |
| `ThreadCalls.RunWhole` | src/thread.c:95-752 | after any interleaving of thread operations the ready lists are right exactly when no step of the run was of that kind |
| `ThreadCalls.SerialHarmless` | src/thread.c:413-722 | runs in which no operation names a thread that is in the middle of a call have no such step |
| `ThreadCalls.WholeResume` | src/thread.c:689-722 | the steps of a resume with nothing in between are the resume of the specification |
| `ThreadCalls.WholeSuspend` | src/thread.c:647-679 | the same for suspend |
| `ThreadCalls.WholeDelete` | src/thread.c:413-442 | the same for delete |
| `ThreadCalls.WholeStartup` | src/thread.c:273-304 | the same for startup, up to its call of the scheduler |
| `ThreadCalls.NestedResume` | src/thread.c:689-722 | a resume between the two regions of another resume puts the thread into its list twice, from any state |
| `ThreadCalls.ChangeInDelete` | src/thread.c:413-442 | a change of priority inside a delete leaves the closed thread in a ready list |
| `Scheduler.Scheduler.constructor` | src/scheduler.c:120-147 | empty lists and bitmap, then the idle thread ready |
| `Scheduler.Scheduler.InsertThread` | src/scheduler.c:286-323 | appends to the list of the priority and keeps bitmap and masks in agreement |
| `Scheduler.Scheduler.RemoveThread` | src/scheduler.c:332-372 | removes from the list, clearing bits exactly when the list becomes empty; right also for a thread that is not ready |
| `Scheduler.Scheduler.Schedule` | src/scheduler.c:191-277 | the bitmap lookup makes the specified thread current |
| `Scheduler.Scheduler.Startup` | src/thread.c:273-304 | takes exactly the specified step, uninterrupted, and keeps lists, bitmap and masks in agreement |
| `Scheduler.Scheduler.Suspend` | src/thread.c:647-679 | an error for a thread that is not ready, else the specified step |
| `Scheduler.Scheduler.Resume` | src/thread.c:689-722 | an error for a thread that is not suspended, else the specified step, uninterrupted |
| `Scheduler.Scheduler.Timeout` | src/thread.c:731-752 | the thread becomes ready and the scheduler runs |
| `Scheduler.Scheduler.ChangePriority` | src/thread.c:569-616 | a ready thread moves between lists, another only changes its masks |
| `Scheduler.Scheduler.Delete` | src/thread.c:413-442 | uninterrupted, the thread is closed and in no ready list |
| `Scheduler.Scheduler.Exit` | src/thread.c:95-130 | the running thread is closed and another one runs |
| `Scheduler.Scheduler.Yield` | src/thread.c:453-487 | a ready thread goes to the end of its list exactly when it shares it |
| `Scheduler.Scheduler.Tick` | src/clock.c:83-105 | reloads a used-up slice and yields |
| `Scheduler.Scheduler.EnterCritical` | src/scheduler.c:377-392 | counts in 16 bits with a sign |
| `Scheduler.Scheduler.ExitCritical` | src/scheduler.c:398-420 | the unlock that brings the 16-bit counter to zero or below sets it to zero and schedules |
| `WaitList.EnqueueFair` | src/ipc.c:92-135 | a waiting list stays sorted by priority and first come first served among equals, or plainly first come first served |
| `WaitList.DropFair` | src/thread.c:731-752 | a thread whose time is up leaves the others in order |
| `WaitList.FirstFair` | src/ipc.c:146-159 | the thread resumed is the one to be served before all others |
| `WaitList.ChangeFair` | src/thread.c:601-612 | a waiting thread whose priority changes stays where it is: a list by priority is then in order exactly when the thread is in order with its two neighbours |
| `WaitList.ChangeUnfair` | src/thread.c:601-612 | a list of two in which the second thread becomes the more urgent and is still served second |
| `WaitList.FifoFair` | src/thread.c:601-612 | a first come first served list stays in order through any change of priorities |
| `WaitList.StaysFairExact` | src/thread.c:601-612 | a change of the priority of any thread, waiting or not, keeps a list of either kind in order exactly under that condition |
| `WaitList.Suspend` | src/ipc.c:92-135 | the scan inserts in front of the first less urgent thread, or at the end |
| `SemaphoreSpec.ValueLaw` | src/ipc.c:328-469 | the value equals initial value plus releases minus takes exactly while that is below 2^16, and then a positive value means that nobody waits |
| `SemaphoreSpec.ReleaseOverflows` | src/ipc.c:435-469 | a release at 65535 sets the value to 0 |
| `SemaphoreSpec.TakeInv` | src/ipc.c:328-411 | a take, immediate, refused or waiting, keeps value law, order and "value > 0 implies nobody waits" |
| `SemaphoreSpec.ReleaseInv` | src/ipc.c:435-469 | a release keeps the same and resumes the thread to be served first, or raises the value when nobody waits |
| `SemaphoreSpec.TakeGives` | src/ipc.c:328-411 | taken exactly if the value was positive, and then it is one lower; waiting exactly if the thread is in the list afterwards; refused exactly if the value was 0 and it may not wait, with nothing changed |
| `SemaphoreSpec.QuitGives` | src/ipc.c:435-510 | a timeout takes exactly its thread out of the list, a reset all and sets the value, a release with nobody waiting adds one |
| `SemaphoreSpec.RunAll` | src/ipc.c:328-510 | all this holds after every run of takes, releases, timeouts and resets; with fixed priorities |
| `SemaphoreSpec.RunChanges` | src/ipc.c:328-510 | runs in which priorities of threads change keep all this at every point exactly when each change leaves the thread in order with its neighbours; first come first served lists allow every change |
| `Semaphore.Semaphore.Take` | src/ipc.c:328-411 | takes exactly the specified step |
| `Semaphore.Semaphore.Release` | src/ipc.c:435-469 | takes exactly the specified step |
| `Semaphore.Semaphore.Reset` | src/ipc.c:481-510 | the loop resumes all waiting threads in order and sets the value |
| `MutexSpec.TakeInv` | src/ipc.c:642-765 | a take keeps "open with value 1, no owner, hold 0, nobody waiting, or held with value 0, one owner, hold >= 1, owner at least as urgent as every waiter" exactly unless the owner nests the 256th take |
| `MutexSpec.TakeGives` | src/ipc.c:642-765 | taken exactly if the thread owns the mutex afterwards, waiting exactly if it is in the list, refused exactly if another thread owns it and it may not wait, with nothing changed; a thread that waits lends the owner its priority if that is more urgent |
| `MutexSpec.TakeOverflows` | src/ipc.c:667-671 | the 256th nested take wraps hold to 0 and the next release does not free the mutex |
| `MutexSpec.ReleaseInv` | src/ipc.c:776-863 | a release keeps the invariant; only the owner may; the last one restores the priority at acquisition and hands over to the most urgent waiter, first come among equals |
| `MutexSpec.TimeoutInv` | src/thread.c:731-752 | a timeout of a waiter keeps the invariant |
| `MutexSpec.TimeoutGives` | src/thread.c:731-752 | a timeout takes exactly its thread out of the list |
| `MutexSpec.RunAll` | src/ipc.c:642-863 | the invariant holds after every run of takes, releases and timeouts that nests fewer than 256 takes |
| `MutexSpec.NestedRoundTrip` | src/ipc.c:642-863 | after n takes exactly n releases free the mutex, no fewer, with all priorities as before, for n up to 255 |
| `Mutex.Mutex.Take` | src/ipc.c:642-765 | takes exactly the specified step, raising the owner where the waiter is more urgent, and keeps the invariant exactly unless it is the 256th nested take |
| `Mutex.Mutex.Release` | src/ipc.c:776-863 | takes exactly the specified step |
| `EventSpec.WalkServes` | src/ipc.c:1028-1071 | the walk of a send equals a series of immediate receives by the waiting threads in list order: same flags returned, same flags cleared |
| `EventSpec.ServeQuiet` | src/ipc.c:1028-1071 | flags are only cleared on the way, and no thread that stays is satisfied by what is left |
| `EventSpec.ServeGot` | src/ipc.c:1033-1056 | a resumed thread gets part of what it wanted, and enough of it |
| `EventSpec.ReceiveInv` | src/ipc.c:1098-1206 | a receive keeps "no waiting thread is satisfied" |
| `EventSpec.SendInv` | src/ipc.c:1002-1082 | a send keeps it although it clears flags while walking |
| `EventSpec.SendGives` | src/ipc.c:1002-1082 | a flag is set after a send exactly if it was set or sent and no resumed thread cleared it; threads have their turns in list order, each stays or is resumed, once, resumed exactly if the flags left to it satisfy it, and gets what it wants of them |
| `EventSpec.ReceiveGives` | src/ipc.c:1098-1206 | received exactly if the flags satisfy the want, with those of them wanted, which are cleared if asked; waiting exactly if the thread is in the list; refused else, with nothing changed |
| `EventSpec.QuitGives` | src/ipc.c:1218-1243 | a timeout takes exactly its thread out of the list, a reset all, and all flags |
| `EventSpec.RunAll` | src/ipc.c:1002-1243 | it holds after every run of sends, receives, timeouts and resets; with fixed priorities |
| `EventSpec.RunChanges` | src/ipc.c:1002-1243 | runs in which priorities of threads change keep all this at every point exactly when each change leaves the thread in order with its neighbours; first come first served lists allow every change |
| `Event.Event.Receive` | src/ipc.c:1098-1206 | takes exactly the specified step |
| `Event.Event.Send` | src/ipc.c:1002-1082 | the loop over the changing list takes exactly the specified step |
| `Event.Event.Reset` | src/ipc.c:1218-1243 | resumes all waiting threads and clears the flags |
| `MailboxSpec.PutInv` | src/ipc.c:1503-1521 | storing a mail keeps the bounded queue in order and the wakeup law |
| `MailboxSpec.GetInv` | src/ipc.c:1650-1672 | taking a mail keeps the same |
| `MailboxSpec.SendGives` | src/ipc.c:1411-1529 | a send stores its mail as the latest exactly if there is room and resumes the receiver to be served first; waits exactly if the thread is in the list; else refused with nothing changed |
| `MailboxSpec.ReceiveGives` | src/ipc.c:1558-1681 | a receive answers with the oldest mail sent and not received, exactly if there is one, and resumes the sender to be served first; waits exactly if the thread is in the list; else refused with nothing changed |
| `MailboxSpec.AgainGives` | src/ipc.c:1441-1672 | a resumed thread goes on as if it had just called, a sender with the mail it came with |
| `MailboxSpec.QuitGives` | src/ipc.c:1693-1722 | a timeout takes exactly its thread out of the lists, a reset all, and all mails |
| `MailboxSpec.NoLostWakeup` | src/ipc.c:1411-1681 | once all resumed threads have run, receivers wait only for an empty mailbox and senders only for a full one |
| `MailboxSpec.SendAgainInv` | src/ipc.c:1441-1501 | a resumed sender that finds the mailbox full again, or gives up, keeps the law |
| `MailboxSpec.ReceiveAgainInv` | src/ipc.c:1586-1648 | a resumed receiver that finds the mailbox empty again, or gives up, keeps the law |
| `MailboxSpec.RunAll` | src/ipc.c:1411-1722 | in every reachable state: mails leave in the order they came, never too many; while receivers wait stored mails do not exceed receivers resumed and not yet run, and the same for senders and free slots; with fixed priorities |
| `MailboxSpec.RunChanges` | src/ipc.c:1411-1722 | runs in which priorities of threads change keep all this at every point exactly when each change leaves the thread in order with its neighbours; first come first served lists allow every change |
| `Mailbox.RingPut` | src/ipc.c:1503-1510 | writing at the in-offset appends to the ring |
| `Mailbox.RingGet` | src/ipc.c:1650-1658 | reading at the out-offset takes the oldest mail |
| `Mailbox.Mailbox.Send` | src/ipc.c:1411-1529 | the ring buffer operation equals the specified step on the queue |
| `Mailbox.Mailbox.SendAgain` | src/ipc.c:1441-1521 | the same for a sender that was resumed |
| `Mailbox.Mailbox.Receive` | src/ipc.c:1558-1681 | the ring buffer operation equals the specified step on the queue |
| `Mailbox.Mailbox.ReceiveAgain` | src/ipc.c:1586-1672 | the same for a receiver that was resumed |
| `Mailbox.Mailbox.Reset` | src/ipc.c:1693-1722 | empties the ring and both lists |
| `MessageQueueSpec.NodeOnce` | src/ipc.c:1931-2285 | every node is in exactly one of the free list, the queue, one sender's hands or one receiver's hands |
| `MessageQueueSpec.Delivered` | src/ipc.c:2214-2215 | at every point of its copy a receiver has no more bytes than its buffer and the message size allow, and they are those of the message that was linked in its node, as far as both reach |
| `MessageQueueSpec.NextDelivered` | src/ipc.c:2199-2212 | the next message received is the latest urgent one, and only when none is urgent the earliest of the others |
| `MessageQueueSpec.LinkedOnce` | src/ipc.c:1970-2221 | each message linked since the last reset has been received once or is queued once, never both |
| `MessageQueueSpec.LinkOrder` | src/ipc.c:1972-2065 | linking at the end, or at the front when urgent, keeps that order |
| `MessageQueueSpec.TakeOrder` | src/ipc.c:2199-2212 | taking the first message keeps that order |
| `MessageQueueSpec.SendTakeGives` | src/ipc.c:1931-1966 | too long exactly above the message size, full exactly if no node is free, with nothing changed; else the thread holds a node that was free, for its message |
| `MessageQueueSpec.CopyGives` | src/ipc.c:1965-1968 | a copy step moves one byte on and touches no other node |
| `MessageQueueSpec.SendLinkGives` | src/ipc.c:1970-2005 | a link enters the message as the latest and resumes the receiver to be served first |
| `MessageQueueSpec.ReceiveGives` | src/ipc.c:2102-2209 | done exactly if a message is queued, the first of them, for a buffer of the size asked for; waiting exactly if the thread is in the list, with that size kept; refused else, with nothing changed |
| `MessageQueueSpec.ReceiveAgainGives` | src/ipc.c:2134-2209 | the same for a receiver that was resumed, with the buffer it came with |
| `MessageQueueSpec.ReceiveFreeGives` | src/ipc.c:2217-2221 | the receive is recorded with its buffer size, message and copy, and its node is free |
| `MessageQueueSpec.QuitGives` | src/ipc.c:2241-2285 | a timeout takes exactly its thread out of the list; a reset empties list and queue, frees the queued nodes and leaves calls in the middle alone |
| `MessageQueueSpec.SendTakeInv` | src/ipc.c:1939-1966 | taking a free node keeps node partition, contents, entry = queue length and the wakeup law |
| `MessageQueueSpec.SendCopyInv` | src/ipc.c:1965-1968 | a byte copied with interrupts enabled disturbs no other node |
| `MessageQueueSpec.SendLinkInv` | src/ipc.c:1970-2005 | linking at the end, or at the front when urgent, keeps it all |
| `MessageQueueSpec.ReceiveInv` | src/ipc.c:2102-2209 | receiving the first message, waiting or giving up keeps it all |
| `MessageQueueSpec.ReceiveAgainInv` | src/ipc.c:2134-2209 | so does a resumed receiver, whatever it finds |
| `MessageQueueSpec.ReceiveFreeInv` | src/ipc.c:2217-2221 | so does freeing the node |
| `MessageQueueSpec.ResetInv` | src/ipc.c:2241-2285 | a reset frees exactly the queued nodes and leaves those in the hands of threads with them |
| `MessageQueueSpec.RunAll` | src/ipc.c:1745-2285 | all this holds in every reachable state, however sends, receives, their copies byte by byte, timeouts and resets interleave; since the last reset every message linked is queued or was received, once, the queue is the urgent messages latest first and then the others in link order, and the others are received in link order; every receive that has ended has exactly as many bytes as buffer and message size allow, those of its message; with fixed priorities |
| `MessageQueueSpec.RunChanges` | src/ipc.c:1745-2285 | runs in which priorities of threads change keep all this at every point exactly when each change leaves the thread in order with its neighbours; first come first served lists allow every change |
| `MessageQueue.MessageQueue.constructor` | src/ipc.c:1745-1792 | the loop chains all nodes into the free list |
| `MessageQueue.MessageQueue.SendTake` | src/ipc.c:1931-1966 | too long and full are refused; else the first free node leaves the chain |
| `MessageQueue.MessageQueue.LinkTail` | src/ipc.c:1972-1983 | tail, head and link writes append the node to the chain |
| `MessageQueue.MessageQueue.LinkHead` | src/ipc.c:2059-2065 | the writes of an urgent send put the node in front |
| `MessageQueue.MessageQueue.SendLink` | src/ipc.c:1970-2005 | equals the specified link step, urgent or not |
| `MessageQueue.MessageQueue.Receive` | src/ipc.c:2102-2209 | unlinking the head, with the tail cleared when it was the last, equals the specified step |
| `MessageQueue.MessageQueue.ReceiveCopyAll` | src/ipc.c:2214-2215 | the copy of a receive, uninterrupted, ends with exactly the smaller of buffer and message size, agreeing with the message |
| `MessageQueue.MessageQueue.ReceiveFree` | src/ipc.c:2217-2221 | equals the specified step |
| `MessageQueue.MessageQueue.Reset` | src/ipc.c:2241-2285 | the loop moves the queued nodes to the free list one by one |
| `Kernel.Run` | src/ipc.c:328-469 | scheduler, semaphores and thread timers together: after every run of takes, releases, sleeps, exits, ticks and scheduling a thread waits or has its timer running only if it is suspended, and a suspended thread does one of both |
| `Kernel.OnePlace` | src/ipc.c:92-159 | in every such state a thread is in exactly one place: once in the ready list of its priority, in one wait list, asleep with its timer running, or in none when it was never started or is closed |
| `Kernel.WaitGoesOn` | src/clock.c:83-105 | no step moves the end of a wait, and a tick ends it exactly when it reaches that end |
| `Kernel.TimedWait` | src/thread.c:731-752 | a thread that waits until some tick is resumed at some point of any run that reaches that tick, and until then its wait is unchanged |
| `Kernel.TakeEnds` | src/ipc.c:328-411 | a take with a timeout of n ticks is over after n ticks, whatever other threads and interrupts do |
| `Kernel.SleepEnds` | src/thread.c:497-524 | a sleep of n ticks ends at the n-th tick and not before, and one of no ticks at the next |
| `Kernel.ReleaseWakes` | src/ipc.c:435-469 | a release with threads waiting makes the one to be served first ready, last of its priority, out of the wait list and with its timer stopped; no other thread changes |
| `Kernel.TakeForever` | src/ipc.c:328-411 | a take without an end waits in the list with no timer running |
| `Kernel.TakeNowGives` | src/ipc.c:328-411 | a take of a positive value lowers it by one and changes nothing else |
| `Kernel.CloseGives` | src/thread.c:413-442 | a closed thread is in no ready list, no wait list and has no timer running; no other thread changes |
| `Kernel.BootInv` | src/scheduler.c:155-180 | the state in which the idle thread runs alone satisfies the invariant |

## Left out

- Hardware: context switch, interrupt enabling, stacks; hooks, debug output, MEMTRACE and finsh commands. They have no effect in the model.
- Several mutexes held at once: the priority restored at a release is the one saved when that mutex was taken, which can drop a priority inherited through another.
- Interrupted calls in the classes: `TimerList` and `Scheduler` run each call whole; only the steps `Store` and `Link` of a timer start can be taken one by one.
- Signals, and the retry of `rt_mutex_take` after `-RT_EINTR`.
- Soft timers, and callbacks that start, stop or delete timers.
- `rt_timer_control`: changing the period of a running timer.
- Computing the rest of a timeout in the mailbox and message queue loops: whether a resumed thread may go on waiting is a parameter of its step.
- The slab allocator's `rt_realloc`, its byte statistics, and calls that interleave while the page allocator runs without the heap semaphore.
- Moving heap addresses to an aligned start in `rt_system_heap_init`, and `prev` of `heap_end` in `mem.c`, which the source does not maintain.
- Ready lists, waiting lists and timer rows in the classes are sequences rather than rings of `rt_list_t` nodes: update through aliases of a node is only modelled in `RtList`.
- The zone headers and free chunks of the slab allocator are kept as values beside the pages, not as bytes in them.
- Deleting and detaching kernel objects, `rt_mq_create` and `rt_mb_create`: they add only easy members.
- Devices, objects, modules, memory pools, idle thread, the formatter of `kservice.c`, and everything under `ardupilot/` and `tools/`.
- MemHeap.Heap.constructor: leaves out pools with less room than two headers, in which `rt_memheap_init` computes a wrapped size; the header is larger than 12 bytes, as in the source, and sizes are below 2^32.
- SmallMem.Heap.constructor: leaves out memories below 12 bytes, in which a search never ends (`SmallMemSpec.TinyHeapNeverAnswers`).
- HeapBytes.PutHeader: says which bytes a write stores, but the classes read link fields from a map beside the bytes; that later writes to the bytes of a header agree with the map is not stated.
- MemHeap.Heap.GrowInside: the header written inside the block is an entry of that map beside the old one; in the source the two overlap, so that its bytes land on `prev` of the block or on user data.
- Scheduler.Scheduler.Delete: unlinking the thread and closing it are one step; `ThreadCalls` splits them.
- Scheduler.Scheduler.Resume: leaving the wait list and joining the ready list are one step; `ThreadCalls` splits them.
- Scheduler.Scheduler.Startup: the change of state and the insertion are one step; `ThreadCalls` splits them.
- SchedulerSpec.StepInv: an operation is one step; `ThreadCalls.StepWhole` splits those that enable interrupts.
- SchedulerSpec.RunAll: runs of whole operations; `ThreadCalls.RunWhole` has interrupted ones. The idle thread is never suspended, deleted or ended, as the scheduler relies on.
- TimerList.TimerList.Start: runs uninterrupted; `Halt`, `Store` and `Link` are its parts.
- TimerList.TimerList.Stop: clears the flag in the step that unlinks; `TimerCalls` splits it.
- TimerCalls.StepWhole: a timer linked twice is twice in the sequence; what the links of the node then look like is not modelled, and nothing is said of what follows. A start that pauses for more than `late` ticks after reading the time goes no further; `late` is any number that leaves room for the times to wait in half the tick range.
- Kernel.Run: fixed priorities, semaphores as the only objects, startup and delete uninterrupted, and no `rt_thread_suspend` or `rt_thread_resume` of another thread.
- SemaphoreSpec.RunAll: priorities are fixed; `SemaphoreSpec.RunChanges` has runs in which they change. A thread that waits takes no other step; the return of the value to a thread is counted when it is resumed.
- MutexSpec.RunAll: leaves out runs that nest 256 takes, where the invariant is false (`MutexSpec.TakeInv`), and changes of priority other than by inheritance.
- TimerSpec.RunAll: a start and a stop are one step each; `TimerCalls.RunWhole` splits them. Periodic timers wait for at least one tick, and every init_tick is below RT_TICK_MAX/2, as the source asserts.
- MailboxSpec.RunAll: priorities are fixed; `MailboxSpec.RunChanges` has runs in which they change.
- MessageQueueSpec.RunAll: priorities are fixed; `MessageQueueSpec.RunChanges` has runs in which they change.
- EventSpec.RunAll: priorities are fixed; `EventSpec.RunChanges` has runs in which they change. A word of flags is the set of its bits, of any number.
