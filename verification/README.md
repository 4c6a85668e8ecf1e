# Verified models of the RT-Thread kernel core and the FreeModbus slave

Dafny models of the parts of this firmware that keep shared state consistent: the three heap
allocators, the timer list, the scheduler with its threads, mutexes, events and message queues, the
intrusive lists below them, and on the Modbus side ASCII framing and coil access.

Each component comes in two modules. A specification module (`SmallMemSpec`, `TimerSpec`, ...) gives the
state as a value, each operation as a function on it, and the theorems about all operations and all
runs. A class module (`SmallMem`, `TimerList`, ...) has the source's own fields, pointers and loops,
and its methods are proved to do exactly what the functions say. Where single calls have more to say for themselves,
what each takes, leaves and answers, a third module holds that (`SmallMemExact`, `MutexExact`, `MessageDelivery`, ...).

Interrupt-disabled regions are atomic steps. Calls that open several, or look at an object before the first, are
taken apart in three places, whose theorems range over all interleavings: send and receive of the message queue
(`MessageQueueSpec`), suspend, resume, detach and delete of threads (`ThreadRegions`), and start and stop of a timer
(`TimerRuns`). Elsewhere (`Threads`, `Scheduler`, `TimerList.Start`) these calls are whole; the lemmas on their
regions say when that is the same. The IPC objects call resume and suspend with interrupts off already, where
they are atomic.

| component | files | what is proved |
|---|---|---|
| first-fit heap (`mem.c`) | `Tiling`, `SmallMemSpec`, `SmallMemExact`, `SmallMem` | tiling, coalescing, just enough granted, accounting, the lowest-free hint, exactly when NULL, free undoes malloc, bytes kept by realloc |
| memory heap (`memheap.c`) | `Tiling`, `MemHeapSpec`, `MemHeapExact`, `MemHeap` | tiling, free list equal to unused blocks, conservation, exactly when NULL, free undoes alloc, bytes kept by realloc |
| slab (`slab.c`) | `PageSpec`, `PageList`, `SizeClasses`, `SlabSpec`, `SlabExact`, `SlabAlignment`, `SlabCounts`, `Slab` | canonical page list, exactly when NULL, size classes, zones, page map, alignment, bounded cache, statistics |
| timers (`timer.c`) | `TimerSpec`, `TimerList`, `TimerRuns` | skip list of any number of rows refines stable insertion; exact firing across wrap-around, in whole runs |
| scheduler and threads | `Bits`, `ReadyBits`, `Threads`, `ThreadsExact`, `ThreadRegions`, `Scheduler` | ready bits, both bitmap layouts, place of every thread under interleaving, most urgent thread runs |
| IPC (`ipc.c`) | `WaitLists`, `WaitOrder`, `MutexSpec`, `MutexExact`, `Mutex`, `EventSpec`, `EventWaits`, `Event`, `MessageQueueSpec`, `MessageDelivery`, `MessageQueue` | priority inheritance, no satisfied sleeper, each wait served by the first send that satisfies it, delivery from buffer to buffer exactly once under interleaving |
| lists (`rtservice.h`) | `Lists`, `IntrusiveList` | the ring each link write leaves |
| Modbus | `AsciiSpec`, `ModbusAscii`, `CoilSpec`, `Coils` | frame round trip, exact acceptance, coil round trip |

## Where the code falls short of a general promise

Each is a lemma with the exact condition, and nearly all also have a concrete case.

- `rt_malloc` never reaches a last block that fits exactly (`MallocFailsExactly`, `WholeHeapIsRefused`);
  `rt_memheap_alloc` compares with available_size strictly (`AllocFailsExactly`, `FreshServesExactly`).
- Aligning a size within 7 of 2^32 wraps to 0, and the request is then served with the minimum block
  (`GrantCoversRequest`, `HugeRequestGetsMinimumBlock`, `GrantedSize`).
- Growing the largest alignable size in place, `rt_memheap_realloc` adds 12 and wraps: its test at `memheap.c:354`
  passes, and the pool is broken. This happens for the sizes 2^32 - 15 to 2^32 - 8 when the next block is unused, and
  for no others (`ReallocKeepsExactly`, `OverrunOccurs`, `GrantedSize`).
- `rt_memheap_realloc` of NULL aligns a small size twice and gets 16 bytes where `rt_memheap_alloc` grants 12
  (`ReallocEdges`).
- Shrinking by `rt_realloc` can leave lfree above the lowest free block (`ShrinkHintExactly`,
  `ReallocHintExactly`, `HintLeftBehind`).
- The notes at `slab.c:162-164` promise alignment for all power-of-two sizes and a non-NULL malloc(0). A request of 2^k
  bytes is aligned to 2^k if and only if 2^k is at most a page, or the page it is served from is a multiple of
  2^k / 4096 (`MallocAlignedExactly`; of held blocks `ChunkAlignedExactly`, `LargeAlignedExactly`). In heaps up to 64 MB
  malloc(8192) comes from the page allocator, which takes the first pages listed, odd or even (`OddPagesAnswer`); in larger
  ones it is a chunk of a zone on any page (`OddZoneAnswers`, `EvenZoneAnswers`). malloc(0) answers NULL.
- With the FIFO flag a mutex hand-off may leave the new owner less urgent than a waiter
  (`FifoHandOffExactly`, `FifoLetsOwnerLag`), and the 256th nested take wraps hold (`NestingOverflowsExactly`,
  `TakenTooOften`).
- `rt_thread_delete` and `rt_thread_detach` turn interrupts on between `rt_schedule_remove_thread` and
  `rt_timer_detach` (`thread.c:348-351`, `thread.c:253-256`). If the thread's timer is running, it may run out there: the
  thread is queued READY, and then becomes CLOSE on the ready queue. `rt_thread_resume` tests the state before its first
  region, with the like effect. Both are safe exactly when the timer is not running as they begin
  (`DequeueSafeExactly`, `ResumeSafeExactly`, `TimeoutBreaksDelete`, `TimeoutBreaksResume`).
- `rt_thread_resume` may be interrupted between its two regions by another resume of the same thread, and the node
  then stands on the ready queue twice (`QueueUpExactly`, `TakeOffExactly`, `OverlapBreaks`); likewise two starts of one
  timer (`StartedExactly`).
- `rt_timer_stop` clears the ACTIVATED flag after its region. A start in between leaves a pending timer without the flag,
  and a periodic one then fires once and no more (`StartSafeExactly`, `ComesBackExactly`).
- The ASCII receiver reports frames of 256 bytes, which fail the assertion of eMBASCIIReceive (`AssertionExactly`).
- A coil write of 6 bytes or more is accepted even when it is shorter than its byte count says, and then stores what
  stands behind it in the frame buffer (`WriteAcceptedExactly`, `CoilsAreOfRequestExactly`).
- Padding bits of the last byte of a coil write can turn on coils behind the written ones
  (`OthersKeptExactly`, `PaddingSpills`).
- For the last coils the bit functions read and write up to two bytes behind the eight of ucSCoilBuf: a write of `count`
  coils from `start` if start / 8 + ceil(count / 8) >= 8, a read if start / 8 + count / 8 + 1 >= 8 (`LeavesBufferExactly`).
  The model gives the buffer two guard bytes, and shows that what is in them does not matter (`GuardsDoNotMatter`,
  `GuardsKept`).
- A wrapped tick comparison is right in a window only (`WrappedCompare`).

## What callers must respect

The preconditions of the models are those of the code. Pointers given to free and realloc are live, NULL
or, in `mem.c`, outside the heap. Timers are started with fewer than RT_TICK_MAX/2 ticks and pending
deadlines stay within that window, which `TimerRuns` derives from the init ticks; periodic timers that fire have a
non-zero period. Only started threads are suspended, resumed or closed, and only suspended ones time out. Calls on
one thread, and starts of one timer, do not overlap; no timer is started while it is being stopped. No thread is
resumed, detached or deleted with interrupts on while its timer is running. A thread that blocks is READY. An event
receive asks for AND or OR. A heap of `mem.c` has room for a block of the minimum size.

## Model

| member | source | states |
|---|---|---|
| Tiling.LayoutIsCanonical | RT-Thread-1.2.2/src/mem.c:136-174 | two coalesced tilings of one region with the same live blocks are the same tiling: what the free blocks look like is decided by what is in use, whatever order led there |
| Tiling.HeldTotal | RT-Thread-1.2.2/src/memheap.c:146-288 | used payloads, free payloads and one header a block add up to the region, for every tiling |
| SmallMemSpec.MallocKeeps | RT-Thread-1.2.2/src/mem.c:246-374 | every malloc, successful or not, keeps the heap invariant: blocks tile the heap, 8-aligned, no two free neighbours, used_mem the total length of used blocks, max_mem no less, lfree a free block or the end |
| SmallMemSpec.MallocGrants | RT-Thread-1.2.2/src/mem.c:290-354 | a non-NULL result is the payload of a block not live before, aligned and of at least the granted size; the live blocks are those of before and that one |
| SmallMemSpec.MallocTakesLowest | RT-Thread-1.2.2/src/mem.c:279-292 | with the hint lowest, the block handed out is at or below every block that passes the search test |
| SmallMemSpec.MallocFailsExactly | RT-Thread-1.2.2/src/mem.c:262-292 | with the hint lowest, NULL is returned if and only if no free block is large enough, except a last block that fits exactly, which the search bound never reaches |
| SmallMemSpec.WholeHeapIsRefused | RT-Thread-1.2.2/src/mem.c:279-281 | concrete case of that exception: a fresh heap refuses the one request it could serve in full |
| SmallMemSpec.GrantCoversRequest | RT-Thread-1.2.2/src/mem.c:262-274 | the size after alignment and the minimum covers the request if and only if aligning does not wrap the 32-bit size |
| SmallMemSpec.HugeRequestGetsMinimumBlock | RT-Thread-1.2.2/src/mem.c:262-274 | concrete case of the wrap: the largest 32-bit request succeeds on any fresh heap, with a smaller block |
| SmallMemSpec.FreeKeeps | RT-Thread-1.2.2/src/mem.c:504-557 | free keeps the invariant, takes exactly the freed block from the live ones, and lowers used_mem by its length; a lowest hint stays lowest |
| SmallMemSpec.FreeUndoesMalloc | RT-Thread-1.2.2/src/mem.c:504-557 | malloc then free of its result restores blocks and used_mem, whether or not the block was split |
| SmallMemSpec.FreesCommute | RT-Thread-1.2.2/src/mem.c:136-174 | freeing two live blocks in either order ends in the same blocks |
| SmallMemSpec.AllFreedIsFresh | RT-Thread-1.2.2/src/mem.c:184-232 | with nothing live the heap is the single block of initialisation and used_mem is zero |
| SmallMemSpec.MallocKeepsHint | RT-Thread-1.2.2/src/mem.c:344-351 | malloc leaves lfree at the lowest free block if it was there before |
| SmallMemSpec.MallocFreeRunsKeepHint | RT-Thread-1.2.2/src/mem.c:344-351 | in every run of malloc and free lfree is the lowest free block, or heap_end when there is none |
| SmallMemSpec.ShrinkHintExactly | RT-Thread-1.2.2/src/mem.c:430-453 | shrinking in place keeps the hint lowest if and only if the cut does not open a free block below it |
| SmallMemSpec.ReallocHintExactly | RT-Thread-1.2.2/src/mem.c:385-466 | realloc as a whole keeps the hint lowest except in exactly that shrinking case |
| SmallMemSpec.HintLeftBehind | RT-Thread-1.2.2/src/mem.c:430-453 | concrete case: two requests and one shrinking realloc leave lfree at 160 with a free block at 32 |
| SmallMemSpec.ReallocKeeps | RT-Thread-1.2.2/src/mem.c:385-466 | realloc keeps the invariant and every other live block, and on NULL leaves the heap as it was, the old block still live |
| SmallMemSpec.ReallocGives | RT-Thread-1.2.2/src/mem.c:385-466 | a non-NULL result is the payload of one live block of at least the aligned new size, which replaces the old one among the live blocks |
| SmallMemSpec.RunsKeepInvariant | RT-Thread-1.2.2/src/mem.c:246-557 | every run of malloc, realloc and free on live pointers keeps the invariant |
| SmallMemSpec.LivePayloadsAreDisjoint | RT-Thread-1.2.2/src/mem.c:294-354 | any two live payloads are disjoint, 8-aligned and inside the heap |
| SmallMemExact.MallocTakesJustEnough | RT-Thread-1.2.2/src/mem.c:290-340 | a granted block is cut from an unused one with less than 32 bytes more than granted; if that one was larger the rest is a free block directly behind; used_mem grows by the block, and max_mem becomes the larger of its old value and the new used_mem |
| SmallMemExact.NullExactly | RT-Thread-1.2.2/src/mem.c:246-374 | with the hint lowest, NULL, with nothing changed, if and only if no bytes are asked for or no free block is large enough, but perhaps a last one that fits exactly |
| SmallMemExact.ReallocOfNull | RT-Thread-1.2.2/src/mem.c:394-403 | realloc(NULL, n) is malloc(n), but for sizes that wrap when aligned, which get NULL |
| SmallMemExact.StrangersChangeNothing | RT-Thread-1.2.2/src/mem.c:407-414 | pointers from outside the heap change nothing, in free and in realloc |
| SmallMemExact.ReallocTakesJustEnough | RT-Thread-1.2.2/src/mem.c:385-466 | a block of the size stays, one much larger is cut to exactly the size in place, any other moves to a block with less than 32 bytes to spare; max_mem grows by moves only |
| SmallMemExact.ReallocNullExactly | RT-Thread-1.2.2/src/mem.c:394-466 | realloc of a live block answers NULL if and only if the size exceeds the heap, or the block must move and malloc has no room |
| SmallMemExact.MaxMemIsHighest | RT-Thread-1.2.2/src/mem.c:320-341 | in every run max_mem is the most that was in use at any moment, moves of realloc included |
| SmallMem.Allocator.SystemHeapInit | RT-Thread-1.2.2/src/mem.c:184-232 | a heap exists if and only if the aligned region holds two headers with room to spare; it then is the fresh heap of the remaining size, as in-band headers |
| SmallMem.Allocator.PlugHoles | RT-Thread-1.2.2/src/mem.c:136-174 | on the headers in memory, both merges give the specified heap, and no byte of a live payload changes |
| SmallMem.Allocator.Search | RT-Thread-1.2.2/src/mem.c:279-291 | the loop over in-band headers stops at the first fit of the block sequence, and finds none if and only if there is none |
| SmallMem.Allocator.Malloc | RT-Thread-1.2.2/src/mem.c:246-374 | headers, hint and counters end as specified; bytes of live payloads stay, and nothing at all changes on NULL |
| SmallMem.Allocator.Free | RT-Thread-1.2.2/src/mem.c:504-557 | headers, hint and counters end as specified for live, NULL and out-of-heap pointers; bytes of all other live payloads stay |
| SmallMem.Allocator.Copy | RT-Thread-1.2.2/src/mem.c:461-461 | the byte loop copies the stretch and leaves every other cell |
| SmallMem.Allocator.Realloc | RT-Thread-1.2.2/src/mem.c:385-466 | the first min(old, new) payload bytes survive, in place or moved; bytes of all other live payloads stay; on NULL memory is untouched |
| MemHeapSpec.AllocKeeps | RT-Thread-1.2.2/src/memheap.c:146-288 | alloc keeps the invariant: an ordered coalesced tiling, the free list holding exactly the unused blocks once each, available_size the sum of their payloads |
| MemHeapSpec.AllocGrants | RT-Thread-1.2.2/src/memheap.c:146-288 | a non-NULL result is a new live block of at least the granted size at a 4-byte boundary; all others stay |
| MemHeapSpec.GrantedSize | RT-Thread-1.2.2/src/memheap.c:154-157 | the granted size is a multiple of 4 and at least 12, covers the request if and only if aligning does not wrap, and wraps when 12 is added if and only if the request is among the last eight sizes that align |
| MemHeapSpec.AllocFailsExactly | RT-Thread-1.2.2/src/memheap.c:161-192 | NULL if and only if every unused block is too small, or the only one fits exactly while being all that is available |
| MemHeapSpec.FreshServesExactly | RT-Thread-1.2.2/src/memheap.c:146-288 | so a fresh pool, whatever its size, serves requests up to 8 bytes less than its one block, and not the block in full |
| MemHeapSpec.FreeKeeps | RT-Thread-1.2.2/src/memheap.c:499-593 | free keeps the invariant and takes exactly its own block from the live ones |
| MemHeapSpec.ReallocKeeps | RT-Thread-1.2.2/src/memheap.c:291-496 | growing in place into the next block, shrinking with or without a merge, and moving all keep the invariant and the other live blocks, and give a block of the granted size; on NULL the old block stays live. The one call excluded is told by size and next block, before the call |
| MemHeapSpec.ReallocKeepsExactly | RT-Thread-1.2.2/src/memheap.c:336-356 | on held pointers realloc keeps the invariant if and only if the size is not the largest that aligns, asked of a block with an unused one behind: there newsize + 12 wraps to 4, the growth test passes, and the new header is put inside the block's own |
| MemHeapSpec.OverrunOccurs | RT-Thread-1.2.2/src/memheap.c:354-400 | concrete case, from a fresh pool by one alloc and one realloc: the client is told it has 2^32 - 8 bytes, and available_size grows |
| MemHeapSpec.Conserved | RT-Thread-1.2.2/src/memheap.c:60-131 | available_size, used payloads and one header a block make up pool_size |
| MemHeapSpec.FreeUndoesAlloc | RT-Thread-1.2.2/src/memheap.c:499-593 | alloc then free of its result restores the block list and available_size |
| MemHeapSpec.FreesCommute | RT-Thread-1.2.2/src/memheap.c:499-593 | two frees in either order give the same block list and the same available_size |
| MemHeapSpec.AllFreedIsFresh | RT-Thread-1.2.2/src/memheap.c:60-131 | with no block of a client left the pool is the single block of initialisation |
| MemHeapSpec.RunsKeepInvariant | RT-Thread-1.2.2/src/memheap.c:146-593 | every run of alloc, realloc and free on held pointers, but for the one realloc that wraps, keeps the invariant and the pool size |
| MemHeapSpec.RunsConserve | RT-Thread-1.2.2/src/memheap.c:146-593 | in every such run from initialisation bytes are conserved and the free list holds exactly the unused blocks |
| MemHeapExact.AllocTakesJustEnough | RT-Thread-1.2.2/src/memheap.c:146-288 | a granted block is cut from the first of the free list that is large enough, with less than 36 bytes more than granted; the rest goes to the front of the list, whose order stays; max_used_size grows only to what is in use |
| MemHeapExact.FreedGoesFirst | RT-Thread-1.2.2/src/memheap.c:499-593 | a freed block goes to the front of the free list unless the block before takes it in; a free block behind leaves the list; the others keep their order |
| MemHeapExact.ReallocEdges | RT-Thread-1.2.2/src/memheap.c:298-316 | realloc(p, 0) is free; realloc(NULL, n) is alloc(n) if 8 < n <= 2^32 - 8, and else alloc(12), which grants 16 where alloc(n) grants 12 |
| MemHeapExact.ReallocToNothing | RT-Thread-1.2.2/src/memheap.c:298-303 | realloc(p, 0) takes exactly the block of p from its holder |
| MemHeapExact.ReallocTakesJustEnough | RT-Thread-1.2.2/src/memheap.c:291-496 | a block too small grows in place to exactly the size when the next is unused and has room, and else moves; one much too large is cut to exactly the size; any other stays with nothing changed |
| MemHeapExact.ReallocNullExactly | RT-Thread-1.2.2/src/memheap.c:322-424 | realloc of a held block answers NULL if and only if it is too small, the next has no room, and alloc refuses |
| MemHeap.MemHeap.constructor | RT-Thread-1.2.2/src/memheap.c:60-131 | the two circular lists set up link by link are the fresh pool |
| MemHeap.MemHeap.LinkBlock | RT-Thread-1.2.2/src/memheap.c:216-220 | inserting a header into the circular block list by its four link writes is splitting the block |
| MemHeap.MemHeap.UnlinkBlock | RT-Thread-1.2.2/src/memheap.c:538-571 | removing a header from the circular block list is merging it into the one before |
| MemHeap.MemHeap.Unlist | RT-Thread-1.2.2/src/memheap.c:222-226 | two link writes take exactly this header out of the circular free list, order kept |
| MemHeap.MemHeap.ListFront | RT-Thread-1.2.2/src/memheap.c:578-584 | the header becomes the first of the circular free list |
| MemHeap.MemHeap.Search | RT-Thread-1.2.2/src/memheap.c:175-188 | the walk along the free list stops at the first block that is large enough, or at the list head |
| MemHeap.MemHeap.Alloc | RT-Thread-1.2.2/src/memheap.c:146-288 | both lists, flags and counters end as specified; no byte of a live block changes, a new header falling into unused bytes |
| MemHeap.MemHeap.Free | RT-Thread-1.2.2/src/memheap.c:499-593 | both lists, flags and counters end as specified |
| MemHeap.MemHeap.Realloc | RT-Thread-1.2.2/src/memheap.c:291-496 | both lists, flags and counters end as specified in all branches, with the 32-bit growth test as it is; unless that wraps, the first min(old, new) payload bytes survive, in place or moved, and all bytes of other live blocks stay |
| MemHeap.MemHeap.Copy | RT-Thread-1.2.2/src/memheap.c:416-416 | the byte copy between payloads, with its frame |
| PageSpec.AllocKeeps | RT-Thread-1.2.2/src/slab.c:246-280 | page allocation keeps the list canonical (address order, maximal runs that never touch) and takes from it exactly the pages handed out |
| PageSpec.AllocIsFirstFit | RT-Thread-1.2.2/src/slab.c:251-272 | no pages if and only if no run is long enough; otherwise the start of the lowest long enough run |
| PageSpec.FreeKeeps | RT-Thread-1.2.2/src/slab.c:282-332 | freeing keeps the list canonical, whichever neighbours merge, and adds exactly the freed pages |
| PageSpec.CanonicalIsUnique | RT-Thread-1.2.2/src/slab.c:282-332 | a canonical list is determined by the set of its pages |
| PageSpec.FreeUndoesAlloc | RT-Thread-1.2.2/src/slab.c:246-332 | freeing what was just handed out gives back the same list, not just the same pages |
| PageSpec.FreesCommute | RT-Thread-1.2.2/src/slab.c:282-332 | two stretches may be freed in either order with the same resulting list |
| PageSpec.RunsKeepInvariant | RT-Thread-1.2.2/src/slab.c:246-344 | in every run the listed pages are exactly those not handed out, and the list is canonical |
| PageSpec.AllFreedIsInitial | RT-Thread-1.2.2/src/slab.c:337-344 | freeing everything, in any order, restores the single initial run |
| PageList.PageList.AllocPages | RT-Thread-1.2.2/src/slab.c:246-280 | the walk along the linked page heads returns and leaves what is specified |
| PageList.PageList.FreePages | RT-Thread-1.2.2/src/slab.c:282-332 | the walk that merges with the run before and after leaves what is specified |
| SizeClasses.ZoneIndex | RT-Thread-1.2.2/src/slab.c:411-469 | the branches with their masks and shifts compute the size class, and the caller gets both the index and the rounded size |
| SizeClasses.RoundsUp | RT-Thread-1.2.2/src/slab.c:419-465 | adding 2^k - 1 and masking rounds up to a multiple of 2^k, for the eight masks used |
| SizeClasses.ClassCovers | RT-Thread-1.2.2/src/slab.c:411-469 | for 0 < n < 16384 the chunk is at least n, the index in 0..71, the waste at most 7 bytes below 128 and less than n/8 from there on |
| SizeClasses.ClassesAreOrdered | RT-Thread-1.2.2/src/slab.c:411-469 | chunk and index are monotone in the request, and two requests have one index if and only if they have one chunk size |
| SizeClasses.ClassOfChunk | RT-Thread-1.2.2/src/slab.c:411-469 | a chunk size is its own class |
| SlabSpec.NewZoneOk | RT-Thread-1.2.2/src/slab.c:602-664 | a zone laid out for a request is sound and has a chunk to give |
| SlabSpec.NextChunkKeeps | RT-Thread-1.2.2/src/slab.c:554-583 | the chunk taken from a zone, recycled or never used, was in nobody's hands, and only that one changes hands; z_nfree falls by one |
| SlabSpec.SameIndexSameChunk | RT-Thread-1.2.2/src/slab.c:549-583 | any zone on the list of the request's index has chunks of the request's size |
| SlabSpec.AllFreeMeansNoneLive | RT-Thread-1.2.2/src/slab.c:879-886 | a zone whose free count equals its capacity has no chunk in a client's hands |
| SlabSpec.MallocSmallGives | RT-Thread-1.2.2/src/slab.c:549-684 | a small request keeps the invariant and gets a chunk of at least its size that was not live, or NULL with nothing changed |
| SlabSpec.MallocLargeGives | RT-Thread-1.2.2/src/slab.c:508-536 | a large request gets a page run that was not in use and covers its size, recorded with its length, or NULL with nothing changed; sizes that wrap when rounded to pages are refused |
| SlabSpec.ChunkInside | RT-Thread-1.2.2/src/slab.c:640-660 | every chunk lies behind its zone header and inside its zone |
| SlabSpec.LiveChunksApart | RT-Thread-1.2.2/src/slab.c:554-664 | no two live chunks overlap, in one zone or in two |
| SlabSpec.PageMapLeadsBack | RT-Thread-1.2.2/src/slab.c:826-858 | for any live chunk the page map gives its distance to its own zone, and the address gives back the chunk number |
| SlabSpec.FreeSmallKeeps | RT-Thread-1.2.2/src/slab.c:853-935 | freeing a chunk keeps the invariant and takes exactly that chunk from the live ones, also when the zone is retired |
| SlabSpec.FreeLargeKeeps | RT-Thread-1.2.2/src/slab.c:826-851 | freeing a large block returns exactly its pages |
| SlabSpec.RetireKeeps | RT-Thread-1.2.2/src/slab.c:879-932 | moving an empty zone to the cache, and releasing one cached too many, keeps the invariant and disturbs no live chunk |
| SlabSpec.ServingKeepsInvariant | RT-Thread-1.2.2/src/slab.c:488-935 | every run of malloc and free on live pointers keeps the invariant |
| SlabSpec.ZonesAreSound | RT-Thread-1.2.2/src/slab.c:488-935 | in every run from initialisation z_nfree equals never-used chunks plus freed ones, a zone is on its list if and only if z_nfree > 0, at most two empty zones are cached, and every page is listed or owned, never both |
| SlabExact.MallocRefusesExactly | RT-Thread-1.2.2/src/slab.c:488-684 | NULL, with nothing changed, if and only if: no bytes; a large request that wraps when rounded to pages or exceeds every free page run; a small one with no free chunk in its class, no cached zone, and no run as long as a zone |
| SlabExact.SmallTakesPagesExactly | RT-Thread-1.2.2/src/slab.c:549-628 | a small request takes a free chunk of its class if there is one, else a cached zone if there is one, else the pages of one zone |
| SlabExact.RetireExactly | RT-Thread-1.2.2/src/slab.c:879-932 | an idle zone is given up if and only if another zone of its class has a free chunk; it is cached if fewer than two are, and else its pages go back |
| SlabAlignment.ChunkAlignedExactly | RT-Thread-1.2.2/src/slab.c:643-650 | a held chunk of 2^k bytes is a multiple of its size if and only if 2^k is at most a page or its zone starts at a page number that is a multiple of 2^k / 4096 |
| SlabAlignment.LargeAlignedExactly | RT-Thread-1.2.2/src/slab.c:508-536 | the same of a held large block of 2^k bytes and its own first page |
| SlabAlignment.MallocAlignedExactly | RT-Thread-1.2.2/src/slab.c:488-664 | for every k: a granted request of 2^k bytes gets a multiple of 2^k if and only if 2^k is at most a page or the page it is served from, known before the call, is a multiple of 2^k / 4096 |
| SlabAlignment.OddPagesAnswer | RT-Thread-1.2.2/src/slab.c:508-520 | it need not: with 8-page zones and an odd first page behind the page map, malloc(8192) answers 4096 past a multiple of 8192 |
| SlabAlignment.OddZoneAnswers | RT-Thread-1.2.2/src/slab.c:602-664 | with 16-page zones malloc(8192) is a chunk, and misaligned just so |
| SlabAlignment.EvenZoneAnswers | RT-Thread-1.2.2/src/slab.c:602-664 | an even page is not enough: with 16-page zones on page 2 modulo 4, a request of 16000 bytes gets a 16384-byte chunk that is no multiple of 16384 |
| SlabAlignment.ChunksAreAligned | RT-Thread-1.2.2/src/slab.c:643-650 | every held chunk is 8-byte aligned |
| SlabCounts.MallocCounts | RT-Thread-1.2.2/src/slab.c:529-589 | the memory in clients' hands, summed over zones and large blocks, grows by what malloc adds to used_mem |
| SlabCounts.FreeCounts | RT-Thread-1.2.2/src/slab.c:834-867 | it falls by what free takes off, for chunks and for large blocks, also when a zone is retired or released |
| SlabCounts.RunsCountTruly | RT-Thread-1.2.2/src/slab.c:488-935 | after every run used_mem is what the clients hold and max_mem the most they ever held |
| SlabCounts.FreshUse | RT-Thread-1.2.2/src/slab.c:354-405 | after initialisation nothing is in use |
| SlabAllocator.SlabAllocator.constructor | RT-Thread-1.2.2/src/slab.c:354-405 | initialisation leaves the single page run behind the page map, or none on a heap of one page, no zones, zero counters, and the zone size chosen by heap size |
| SlabAllocator.SlabAllocator.Malloc | RT-Thread-1.2.2/src/slab.c:488-684 | zone arrays, empty-zone cache, page map, page list, used_mem and max_mem end as specified |
| SlabAllocator.SlabAllocator.FreeBlock | RT-Thread-1.2.2/src/slab.c:793-935 | zone arrays, empty-zone cache, page map, page list and used_mem end as specified |
| TimerSpec.WrappedCompare | RT-Thread-1.2.2/src/timer.c:354-361 | the unsigned 32-bit difference of times a and b is below RT_TICK_MAX/2 exactly when a is not earlier, if and only if a is less than that after b, and b at most 2^31 + 1 after a |
| TimerSpec.InsertOrdered | RT-Thread-1.2.2/src/timer.c:337-365 | the row stays ordered by deadline, with ties in start order |
| TimerSpec.RowOrdered | RT-Thread-1.2.2/src/timer.c:337-386 | every row of the skip list is ordered and its timers are all in the bottom row |
| TimerSpec.RemovedKeeps | RT-Thread-1.2.2/src/timer.c:121-129 | taking a timer out of every row keeps each row a sublist of the row below |
| TimerSpec.StartedKeeps | RT-Thread-1.2.2/src/timer.c:337-386 | for any number of rows and any height, each row stays a sublist of the row below, and the bottom row is the stable linear insertion by deadline |
| TimerSpec.StartedExactly | RT-Thread-1.2.2/src/timer.c:337-386 | the second region of a start keeps the rows in order if and only if the timer was not put there in between |
| TimerSpec.RearmResult | RT-Thread-1.2.2/src/timer.c:512-534 | of the timers that fired exactly the periodic ones are pending again, a period later, and nothing else moves |
| TimerSpec.CheckFiresExactly | RT-Thread-1.2.2/src/timer.c:486-544 | a check fires exactly the timers whose deadline has come, in deadline order with ties in start order; afterwards every pending deadline is in the future |
| TimerList.TimerList.Remove | RT-Thread-1.2.2/src/timer.c:121-129 | the timer leaves every row |
| TimerList.TimerList.Stop | RT-Thread-1.2.2/src/timer.c:417-440 | an active timer leaves every row, an inactive one is refused |
| TimerList.TimerList.FindPlaces | RT-Thread-1.2.2/src/timer.c:337-365 | the descending search, comparing wrapped ticks and going on in each row from where the row above stopped, finds the stable place in every row |
| TimerList.TimerList.InsertRows | RT-Thread-1.2.2/src/timer.c:371-386 | the counter decides the height two bits at a time, and the timer enters the bottom row and the rows up to that height |
| TimerList.TimerList.Withdraw | RT-Thread-1.2.2/src/timer.c:304-310 | first region of a start: the timer is in no row and not active |
| TimerList.TimerList.SetTimeout | RT-Thread-1.2.2/src/timer.c:314-319 | between the regions: the 32-bit deadline shows the true one |
| TimerList.TimerList.Enter | RT-Thread-1.2.2/src/timer.c:321-391 | second region: stable insertion into the rows as they are then |
| TimerList.TimerList.Start | RT-Thread-1.2.2/src/timer.c:292-407 | a start, also of a running timer, undisturbed between its regions, leaves the bottom row as stable linear insertion of the new deadline would, for any number of rows |
| TimerList.TimerList.Check | RT-Thread-1.2.2/src/timer.c:486-544 | the loop terminates, having fired the due timers in order and restarted the periodic ones, across tick wrap-around; of the ACTIVATED flags exactly those of the one-shot timers that fired are cleared |
| TimerList.TimerList.TickIncrease | RT-Thread-1.2.2/src/clock.c:87-88 | the tick shows the true time modulo 2^32 |
| TimerRuns.RunsStayReady | RT-Thread-1.2.2/src/timer.c:292-544 | in every interleaving of start regions, of the test, region and flag clearing of stops, and of clock interrupts, with no two starts of one timer overlapping, the rows are ordered and the deadlines stay within the span that init ticks and delays allow |
| TimerRuns.DeadlinesStayAhead | RT-Thread-1.2.2/src/timer.c:486-544 | with init ticks, periods and delays of a start adding up to less than RT_TICK_MAX/2, after every interrupt all deadlines lie ahead, less than that far |
| TimerRuns.FiresOnTime | RT-Thread-1.2.2/src/timer.c:504-512 | no timer fires before its deadline, and none more than the delay of its start after the interrupt at its deadline |
| TimerRuns.StartSetsDeadline | RT-Thread-1.2.2/src/timer.c:304-390 | a start leaves the timer pending and active, due its init ticks after the tick read between its regions, whatever comes in between |
| TimerRuns.PendingUntilDue | RT-Thread-1.2.2/src/timer.c:292-544 | from then on, not stopped nor started again, it stays pending with that deadline until its time has come |
| TimerRuns.ComesBackExactly | RT-Thread-1.2.2/src/timer.c:523-534 | a timer that fires is pending again, a period from now, if and only if it is periodic and its ACTIVATED flag is set |
| TimerRuns.TidyRunsStayActive | RT-Thread-1.2.2/src/timer.c:292-440 | in every interleaving in which no start begins while a stop of the same timer is under way, every pending timer has the flag set |
| TimerRuns.StartSafeExactly | RT-Thread-1.2.2/src/timer.c:308-440 | that condition is exact: after a start all continuations keep it so if and only if no stop of the timer is under way as it begins; else the stop clears the flag of a pending timer |
| TimerRuns.ReadyGivesWindow | RT-Thread-1.2.2/src/timer.c:354-361 | in all these runs wrapped comparison is inside the window in which it tells the truth, for the check and for every insertion |
| Bits.FfsIsLowest | RT-Thread-1.2.2/src/kservice.c:1205-1249 | table and byte branches give one plus the index of the lowest set bit of any 32-bit word, zero for zero |
| ReadyBits.SetMarkKeeps | RT-Thread-1.2.2/src/scheduler.c:297-300 | for both bitmaps: exactly the mark of the priority is added, group and table staying consistent |
| ReadyBits.ClearMarkKeeps | RT-Thread-1.2.2/src/scheduler.c:338-349 | for both bitmaps: exactly the mark of the priority is removed, the group bit only with the last one of its eight |
| ReadyBits.HighestIsLeast | RT-Thread-1.2.2/src/scheduler.c:205-212 | for both bitmaps: the two-step or one-step lookup gives the least marked priority |
| Threads.StartKeeps | RT-Thread-1.2.2/src/thread.c:203-240 | startup keeps the invariant: each started thread on exactly the list its state calls for, a ready bit set if and only if its queue is not empty |
| Threads.SuspendKeeps | RT-Thread-1.2.2/src/thread.c:554-585 | suspending a thread keeps the invariant and takes a ready one off all lists; one not ready is refused |
| Threads.ResumeKeeps | RT-Thread-1.2.2/src/thread.c:595-626 | resuming, undisturbed between its regions, keeps the invariant, from a wait list or from none |
| Threads.ResumedGoesLast | RT-Thread-1.2.2/src/thread.c:595-626 | a resumed thread queues behind all ready threads of its priority, leaves its wait list, and no other list changes |
| Threads.TimeOutKeeps | RT-Thread-1.2.2/src/thread.c:636-660 | a wait that runs out keeps the invariant and leaves the thread READY with a timeout error |
| Threads.CloseKeeps | RT-Thread-1.2.2/src/thread.c:245-372 | exit, detach and delete leave the thread on no ready or wait list |
| Threads.ChangePriorityKeeps | RT-Thread-1.2.2/src/thread.c:476-526 | a priority change, ready or not, keeps the invariant: the thread moves to its new queue with its masks |
| Threads.YieldKeeps | RT-Thread-1.2.2/src/thread.c:377-411 | yielding keeps the invariant |
| Threads.YieldRotates | RT-Thread-1.2.2/src/thread.c:377-411 | the head of a queue goes to its end and the others move up in order |
| Threads.SuspendOnKeeps | RT-Thread-1.2.2/src/ipc.c:92-135 | blocking on an object's list, in FIFO or priority order, keeps the invariant |
| Threads.RunsKeepInvariant | RT-Thread-1.2.2/src/thread.c:203-660 | every run of start, suspend, resume, timeout, yield, priority change, close and blocking, each undisturbed, keeps the invariant |
| Threads.PlaceOfThread | RT-Thread-1.2.2/src/thread.c:47-82 | what the invariant says: READY on exactly the queue of its current priority, SUSPEND at most on a wait list, CLOSE at most on the defunct list |
| ThreadsExact.StartExactly | RT-Thread-1.2.2/src/thread.c:203-233 | startup leaves the thread READY at its initial priority with that priority's masks, last in that queue; every other list, thread and ready bit is as before |
| ThreadsExact.SuspendExactly | RT-Thread-1.2.2/src/thread.c:554-585 | a READY thread becomes SUSPEND and leaves its queue; another is refused with nothing changed; all others keep their fields and places |
| ThreadsExact.ResumeExactly | RT-Thread-1.2.2/src/thread.c:595-627 | a suspended thread becomes READY, last in the queue of its priority; another is refused; all others keep their fields and places |
| ThreadsExact.TimeOutExactly | RT-Thread-1.2.2/src/thread.c:636-660 | the same with a timeout error |
| ThreadsExact.CloseExactly | RT-Thread-1.2.2/src/thread.c:47-82 | the thread becomes CLOSE, first on the defunct list or on none; all others keep their fields and places |
| ThreadsExact.ChangePriorityExactly | RT-Thread-1.2.2/src/thread.c:485-526 | the thread has the new priority and masks; READY, it is last in the new queue, and otherwise where it was; all others keep their fields and places |
| ThreadsExact.YieldExactly | RT-Thread-1.2.2/src/thread.c:377-411 | a READY thread is last in its queue, the others keep their order |
| ThreadsExact.SuspendOnExactly | RT-Thread-1.2.2/src/ipc.c:92-135 | a blocking thread becomes SUSPEND and joins the object's list at its place; all others keep their fields and places |
| ThreadRegions.InterleavingsKeepInvariant | RT-Thread-1.2.2/src/thread.c:245-660 | with suspend, resume, detach and delete taken region by region, all other calls in between, and timers running out at any moment: every interleaving in which no two calls on one thread overlap, and no resume, detach or delete begins on a thread whose timer is running, keeps each thread where its state, or the call that has it in hand, says, and the ready bits right |
| ThreadRegions.QuietIsSound | RT-Thread-1.2.2/src/thread.c:595-627 | when no call is under way that is the invariant of whole calls |
| ThreadRegions.ResumeIsItsRegions | RT-Thread-1.2.2/src/thread.c:595-627 | the regions of a resume, undisturbed, are the whole call |
| ThreadRegions.CloseIsItsRegions | RT-Thread-1.2.2/src/thread.c:340-366 | and so those of a delete: unlinking, timer, state, defunct list |
| ThreadRegions.QueueUpExactly | RT-Thread-1.2.2/src/thread.c:624-624 | the second region of a resume keeps the invariant if and only if the thread is still on no list |
| ThreadRegions.TakeOffExactly | RT-Thread-1.2.2/src/thread.c:604-618 | the first region keeps it if and only if the thread has not become READY since its state was looked at |
| ThreadRegions.HaltSafe | RT-Thread-1.2.2/src/thread.c:571-582 | the region of a suspend keeps the invariant whatever has become of the thread since it was found READY |
| ThreadRegions.ShutExactly | RT-Thread-1.2.2/src/thread.c:353-354 | closing the thread in hand keeps the invariant if and only if it is on no list but, at most, the defunct list |
| ThreadRegions.LayOutExactly | RT-Thread-1.2.2/src/thread.c:356-363 | putting it on the defunct list keeps the invariant if and only if it is CLOSE and on no list |
| ThreadRegions.DequeueSafeExactly | RT-Thread-1.2.2/src/thread.c:245-366 | a delete or detach keeps the invariant under everything others may do meanwhile, timeouts included, if and only if the thread's timer is not running as it begins |
| ThreadRegions.ResumeSafeExactly | RT-Thread-1.2.2/src/thread.c:595-627 | so does a resume |
| ThreadRegions.TimeoutBreaksDelete | RT-Thread-1.2.2/src/thread.c:347-354 | otherwise, in every state: the timer runs out between the unlinking and rt_timer_detach, and a thread on a ready queue is CLOSE |
| ThreadRegions.TimeoutBreaksResume | RT-Thread-1.2.2/src/thread.c:604-618 | or it runs out after the test, and the thread, READY by now, is taken off its queue |
| ThreadRegions.OverlapBreaks | RT-Thread-1.2.2/src/thread.c:604-624 | for every suspended thread: a resume interrupted between its regions by another of the same thread puts its node on the ready queue twice |
| Threads.ChoiceIsUrgent | RT-Thread-1.2.2/src/scheduler.c:201-217 | the bitmap lookup selects the head of the least-numbered non-empty queue, and no ready thread is more urgent |
| Scheduler.Scheduler.InsertThread | RT-Thread-1.2.2/src/scheduler.c:267-305 | bitmaps, table and queue end as specified |
| Scheduler.Scheduler.RemoveThread | RT-Thread-1.2.2/src/scheduler.c:313-353 | bitmaps, table and queue end as specified |
| Scheduler.Scheduler.ChangePriorityOf | RT-Thread-1.2.2/src/thread.c:485-526 | priority, masks, bitmaps and queues end as specified |
| Scheduler.Scheduler.Startup | RT-Thread-1.2.2/src/thread.c:203-240 | the thread is READY at its initial priority, with masks computed from it, at the end of that queue; no other list or thread changes |
| Scheduler.Scheduler.SuspendCall | RT-Thread-1.2.2/src/thread.c:554-585 | state and answer as specified |
| Scheduler.Scheduler.ResumeCall | RT-Thread-1.2.2/src/thread.c:595-626 | undisturbed between its regions: state and answer as specified |
| Scheduler.Scheduler.TakeOffList | RT-Thread-1.2.2/src/thread.c:612-621 | first region of a resume: the thread leaves its list |
| Scheduler.Scheduler.LayOut | RT-Thread-1.2.2/src/thread.c:356-363 | last region of a delete: the thread is first on the defunct list |
| Scheduler.Scheduler.OnTimeout | RT-Thread-1.2.2/src/thread.c:636-660 | state as specified |
| Scheduler.Scheduler.Yield | RT-Thread-1.2.2/src/thread.c:377-411 | queue as specified |
| Scheduler.Scheduler.CloseCall | RT-Thread-1.2.2/src/thread.c:47-82 | state as specified |
| Scheduler.Scheduler.SuspendOnList | RT-Thread-1.2.2/src/ipc.c:92-135 | the loop over the wait list finds the place behind all waiters at least as urgent |
| Scheduler.Scheduler.ResumeFirst | RT-Thread-1.2.2/src/ipc.c:146-160 | the first waiter becomes ready |
| Scheduler.Scheduler.Schedule | RT-Thread-1.2.2/src/scheduler.c:191-256 | unlocked, a most urgent ready thread runs, the head of its queue; locked, nothing changes |
| Scheduler.Scheduler.EnterCritical | RT-Thread-1.2.2/src/scheduler.c:358-373 | one level more |
| Scheduler.Scheduler.ExitCritical | RT-Thread-1.2.2/src/scheduler.c:378-400 | only leaving the outermost level reschedules; leaving too often does no harm |
| WaitLists.EnqueueSorted | RT-Thread-1.2.2/src/ipc.c:105-131 | insertion by priority keeps a wait list sorted |
| WaitLists.EnqueueAtPlace | RT-Thread-1.2.2/src/ipc.c:105-131 | inserting before the first less urgent waiter is the same as stable insertion by priority |
| WaitOrder.JoinsBehindEquals | RT-Thread-1.2.2/src/ipc.c:105-131 | with the PRIO flag a waiter stands behind all that are at least as urgent, so behind those of its own priority, and before all others |
| WaitOrder.JoinsAtEnd | RT-Thread-1.2.2/src/ipc.c:101-103 | with the FIFO flag it stands at the end |
| WaitOrder.EnqueueWithout | RT-Thread-1.2.2/src/ipc.c:92-135 | joining moves nobody else |
| MutexExact.TakeExactly | RT-Thread-1.2.2/src/ipc.c:642-758 | for both flags, waiting or not: a free mutex gets the taker as owner with hold 1 and its priority saved, and nothing else changes; the owner nests; another joins the waiters and lifts the owner to the more urgent priority if it waits, and changes nothing if not |
| MutexExact.ReleaseExactly | RT-Thread-1.2.2/src/ipc.c:772-857 | for both flags: not the owner, nothing; nested, one less; outermost, the priority comes back and the first waiter owns the mutex at its own, or nobody |
| MutexExact.WaitersKeepPlaces | RT-Thread-1.2.2/src/ipc.c:642-857 | two threads that wait never change places |
| MutexSpec.TakeKeeps | RT-Thread-1.2.2/src/ipc.c:642-758 | every outcome of a take keeps the invariant, with the owner raised to the taker's priority if needed |
| MutexSpec.ReleaseKeeps | RT-Thread-1.2.2/src/ipc.c:772-857 | every outcome of a release keeps the invariant, also when handing the mutex to the first waiter |
| MutexSpec.TimeOutKeeps | RT-Thread-1.2.2/src/thread.c:636-660 | a waiter that gives up leaves the invariant |
| MutexSpec.RunsKeepInvariant | RT-Thread-1.2.2/src/ipc.c:642-857 | every run of takes, releases and timeouts keeps the invariant |
| MutexSpec.OwnerIsUrgent | RT-Thread-1.2.2/src/ipc.c:642-857 | in every run with the PRIO flag: value is 1 iff no owner iff hold is 0, waiters are sorted and imply an owner, the owner is at least as urgent as every waiter, and all other threads run at their own priority |
| MutexSpec.OutermostReleaseRestores | RT-Thread-1.2.2/src/ipc.c:806-849 | an outermost release gives the releaser back its priority at acquisition and the mutex to a most urgent waiter, who needs no raise |
| MutexSpec.NestingBalances | RT-Thread-1.2.2/src/ipc.c:667-671 | k nested takes and k releases restore the mutex |
| MutexSpec.NestingOverflowsExactly | RT-Thread-1.2.2/src/ipc.c:667-671 | a take breaks the count if and only if it is the owner's 256th, hold being 8 bits wide |
| MutexSpec.TakenTooOften | RT-Thread-1.2.2/src/ipc.c:667-671 | 256 takes by one thread from a fresh mutex: it still owns the mutex and holds it zero times |
| MutexSpec.FifoHandOffExactly | RT-Thread-1.2.2/src/ipc.c:811-837 | with the FIFO flag a hand-off keeps the owner as urgent as the waiters if and only if the first waiter is as urgent as the rest |
| MutexSpec.FifoLetsOwnerLag | RT-Thread-1.2.2/src/ipc.c:811-837 | three threads for which it is not |
| MutexObject.MutexObject.Take | RT-Thread-1.2.2/src/ipc.c:642-758 | fields, thread states and wait list as specified, on the scheduler's own lists; taken at once if and only if the mutex was free or the caller's own before the call, else blocked or timed out as the caller chose |
| MutexObject.MutexObject.Release | RT-Thread-1.2.2/src/ipc.c:772-857 | fields, thread states, wait list and answer as specified; the new owner is ready |
| MutexObject.MutexObject.OnTimeout | RT-Thread-1.2.2/src/thread.c:636-660 | the waiter leaves the list and is ready with a timeout error |
| EventSpec.SendExactly | RT-Thread-1.2.2/src/ipc.c:1017-1067 | for every waiter in the walk: woken if and only if its condition holds of what the waiters before it left over, with what it then gets, and the set ends as what is left |
| EventSpec.WokenGetTheirFlags | RT-Thread-1.2.2/src/ipc.c:1029-1061 | a woken thread gets all its bits (AND) or a non-empty part (OR), all of them really sent |
| EventSpec.ClearedGoesOnce | RT-Thread-1.2.2/src/ipc.c:1053-1061 | bits cleared for one woken thread reach no later one and do not remain set |
| EventSpec.GotStays | RT-Thread-1.2.2/src/ipc.c:1187-1191 | what a woken thread got stands until it looks, whatever others do |
| EventSpec.ReceivesItsFlags | RT-Thread-1.2.2/src/ipc.c:1123-1156 | a receive that need not wait gets all its bits (AND) or a non-empty part (OR), all of them set; with CLEAR exactly these are gone and none it asked for is left; otherwise it waits or not and no bit changes |
| EventSpec.NobodySleepsSatisfied | RT-Thread-1.2.2/src/ipc.c:1014-1192 | in every run nobody stays suspended on a condition the event set satisfies |
| EventSpec.RunsKeepInvariant | RT-Thread-1.2.2/src/ipc.c:1014-1192 | every run of sends, receives, timeouts and resets keeps the invariant |
| EventWaits.SatisfiedExactly | RT-Thread-1.2.2/src/ipc.c:1029-1046 | what the options mean: AND, everything named is set; OR without AND, something named is; neither, never |
| EventSpec.AllOverlaps | RT-Thread-1.2.2/src/ipc.c:1036-1045 | a satisfied wait gets exactly the flags that were both asked for and set |
| EventWaits.RecvExactly | RT-Thread-1.2.2/src/ipc.c:1093-1200 | a receive that blocks waits for exactly the flags and option it passed, and no other thread's want or place changes; one that does not block leaves wants and waiters alone |
| EventWaits.WaitEndsAtFirst | RT-Thread-1.2.2/src/ipc.c:1014-1067 | across any run: a wait ends at the first send after which its condition holds of the flags left to it, with the flags that send gives, and at none before |
| EventWaits.BlockedIsServed | RT-Thread-1.2.2/src/ipc.c:1014-1192 | the same from the blocking receive on |
| EventWaits.WaitersKeepPlaces | RT-Thread-1.2.2/src/ipc.c:1014-1192 | two threads that wait never change places |
| EventObject.EventObject.Visit | RT-Thread-1.2.2/src/ipc.c:1024-1066 | one turn of the walk wakes the thread it stands on or moves on, never skipping the successor of a woken thread |
| EventObject.EventObject.Send | RT-Thread-1.2.2/src/ipc.c:998-1083 | event set, wait list and thread fields as specified |
| EventObject.EventObject.Recv | RT-Thread-1.2.2/src/ipc.c:1093-1200 | event set, wait list, thread fields and answer as specified, with what a blocked thread waits for in its event_set and event_info |
| EventObject.EventObject.Reset | RT-Thread-1.2.2/src/ipc.c:1212-1236 | every waiter is ready with an error, and the set is zero |
| MessageQueueSpec.StepKeeps | RT-Thread-1.2.2/src/ipc.c:1940-2276 | every step of any thread, at any point of the others' calls, keeps the invariant |
| MessageQueueSpec.RunsKeepInvariant | RT-Thread-1.2.2/src/ipc.c:1940-2276 | under every interleaving each node is on exactly one of free chain, queue chain or in flight with one thread, messages in flight stand, and no wake-up is lost |
| MessageQueueSpec.StepRefines | RT-Thread-1.2.2/src/ipc.c:1940-2276 | seen as a list of messages, each step appends, puts at the front, takes the head, empties, or does nothing |
| MessageQueueSpec.DeliveryIsExact | RT-Thread-1.2.2/src/ipc.c:2193-2209 | the message copied out with interrupts on is the one unlinked, up to the receiver's length |
| MessageQueueSpec.FifoOrder | RT-Thread-1.2.2/src/ipc.c:1925-2225 | without urgent sends and resets, messages are received in the order they were linked, under every interleaving |
| MessageQueueSpec.EachMessageOnce | RT-Thread-1.2.2/src/ipc.c:1940-2276 | under every interleaving each message linked is received once, dropped once by a reset, or still queued |
| MessageQueueSpec.NobodySleepsOnAMessage | RT-Thread-1.2.2/src/ipc.c:1982-1993 | when every resumed receiver has had its turn, a sleeping receiver means an empty queue |
| MessageDelivery.StepThreads | RT-Thread-1.2.2/src/ipc.c:1934-2276 | which threads a step moves: its own; the first waiter, woken by a link; all waiters, sent away by a reset; and who joins the waiters, where |
| MessageDelivery.ClaimRefusedExactly | RT-Thread-1.2.2/src/ipc.c:1934-1957 | a send is refused with nothing changed if and only if the message is too long or no node is free |
| MessageDelivery.SendLinksItsMessage | RT-Thread-1.2.2/src/ipc.c:1925-2085 | for every interleaving: what a send that is not refused adds to the queue begins with the caller's own message, and stands last, or first if urgent |
| MessageDelivery.KeepsItsPlace | RT-Thread-1.2.2/src/ipc.c:1925-2225 | a queued message moves up with each receive and back with each urgent send, and is lost to a reset only |
| MessageDelivery.ReceiverGetsFirst | RT-Thread-1.2.2/src/ipc.c:2193-2209 | for every interleaving: a receiver gets the front of the message that stood first when it looked, as many bytes as it asks for, up to the message size |
| MessageDelivery.SentIsReceived | RT-Thread-1.2.2/src/ipc.c:1925-2225 | from the sender's buffer to the receiver's, for every interleaving: the receiver that finds the message first gets the sender's own bytes |
| MessageQueue.EntryBounded | RT-Thread-1.2.2/src/ipc.c:1979-1980 | entry never exceeds max_msgs |
| MessageQueue.MessageQueue.constructor | RT-Thread-1.2.2/src/ipc.c:1739-1785 | the free chain threads every node once |
| MessageQueue.MessageQueue.ClaimNode | RT-Thread-1.2.2/src/ipc.c:1934-1957 | chains and answer as specified, for too long a message and a full queue too |
| MessageQueue.MessageQueue.CopyMessageIn | RT-Thread-1.2.2/src/ipc.c:1959-1962 | only the node in flight is written |
| MessageQueue.MessageQueue.LinkMessage | RT-Thread-1.2.2/src/ipc.c:1964-1998 | head, tail and entry match the chain, at the tail or the front; the first waiter is resumed |
| MessageQueue.MessageQueue.TryReceive | RT-Thread-1.2.2/src/ipc.c:2119-2206 | head, tail and entry match the chain after unlinking; empty, the thread sleeps or is refused |
| MessageQueue.MessageQueue.CopyMessageOut | RT-Thread-1.2.2/src/ipc.c:2208-2209 | the buffer holds the unlinked message, up to its own length |
| MessageQueue.MessageQueue.ReturnNode | RT-Thread-1.2.2/src/ipc.c:2211-2217 | the node is back on the free chain |
| MessageQueue.MessageQueue.ResetQueue | RT-Thread-1.2.2/src/ipc.c:2242-2276 | the loop moves every queued node to the free chain and resumes every waiter |
| IntrusiveList.InsertAfter | RT-Thread-1.2.2/include/rtservice.h:62-69 | four link writes put the node behind the given one in the ring |
| IntrusiveList.InsertBefore | RT-Thread-1.2.2/include/rtservice.h:77-84 | four link writes put the node before the given one; before the head is at the end |
| IntrusiveList.Remove | RT-Thread-1.2.2/include/rtservice.h:90-96 | the ring closes over the others, if any, and the node is a ring of its own, as it may have been before |
| IntrusiveList.IsEmpty | RT-Thread-1.2.2/include/rtservice.h:98-106 | true if and only if the ring is the head alone |
| Lists.InsertedAfter | RT-Thread-1.2.2/include/rtservice.h:62-69 | the same four writes on link fields kept as maps |
| Lists.Unlinked | RT-Thread-1.2.2/include/rtservice.h:90-96 | the two neighbour writes on link fields kept as maps |
| AsciiSpec.CharsRoundTrip | FreeModbus/modbus/ascii/mbascii.c:433-467 | two hex characters read back as the byte they spell |
| AsciiSpec.HexDigits | FreeModbus/modbus/ascii/mbascii.c:433-467 | the digits are 0 to 9 and capital A to F in order, and only these are read as digits |
| AsciiSpec.LineIs | FreeModbus/modbus/ascii/mbascii.c:330-407 | a frame on the line, character by character: colon, two digits a byte with the high one first, CR, LF |
| AsciiSpec.TransmitterSpells | FreeModbus/modbus/ascii/mbascii.c:185-407 | the transmitter puts on the line exactly the frame of section 2.5.2.1 of MODBUS over Serial Line V1.02, LRC included, and reports it sent once |
| AsciiSpec.StreamRead | FreeModbus/modbus/ascii/mbascii.c:222-327 | for any characters between colon and CR LF, hex or not: up to 512 are reported once and leave their bytes in the buffer, two to a byte, an odd last one left out; more are dropped without a report |
| AsciiSpec.LineRead | FreeModbus/modbus/ascii/mbascii.c:222-327 | from any receive state, a frame on the line ends as its bytes in the buffer and one report |
| AsciiSpec.LrcCloses | FreeModbus/modbus/ascii/mbascii.c:471-483 | a body followed by its LRC has LRC 0 (section 2.5.2.2) |
| AsciiSpec.LrcSeesOneByte | FreeModbus/modbus/ascii/mbascii.c:471-483 | changing any one byte of a valid frame is detected |
| AsciiSpec.RoundTrip | FreeModbus/modbus/ascii/mbascii.c:151-407 | for every address and PDU of 3 to 255 bytes in all, and any receive state, the receiver reports one frame with the same address and PDU |
| AsciiSpec.AcceptsExactly | FreeModbus/modbus/ascii/mbascii.c:151-182 | a frame read is accepted if and only if it has 3 bytes or more and sums to zero, and what is handed up are its address and PDU |
| AsciiSpec.StreamAcceptedExactly | FreeModbus/modbus/ascii/mbascii.c:151-182 | of any such characters a frame is made if and only if they amount to 3 bytes or more that sum to zero, where a character that is no hex digit counts as 0xFF |
| AsciiSpec.AssertionExactly | FreeModbus/modbus/ascii/mbascii.c:157-157 | what is reported satisfies the assertion of eMBASCIIReceive if and only if it is not 512 characters long |
| AsciiSpec.LongestFrames | FreeModbus/modbus/ascii/mbascii.c:258-272 | a frame is reported if and only if it is at most 256 bytes long, and then satisfies the assertion if and only if it is not of exactly 256 |
| ModbusAscii.AsciiStation.ReceiveFSM | FreeModbus/modbus/ascii/mbascii.c:222-327 | states, position, buffer bytes and event as specified |
| ModbusAscii.AsciiStation.TransmitFSM | FreeModbus/modbus/ascii/mbascii.c:330-407 | states, character and event as specified |
| ModbusAscii.AsciiStation.LrcOf | FreeModbus/modbus/ascii/mbascii.c:471-483 | the wrapping loop gives the two's complement of the byte sum |
| ModbusAscii.AsciiStation.Send | FreeModbus/modbus/ascii/mbascii.c:185-219 | address and LRC are put around the PDU; refused while receiving |
| ModbusAscii.AsciiStation.Receive | FreeModbus/modbus/ascii/mbascii.c:152-182 | the answer as specified |
| ModbusAscii.AsciiStation.TimerExpired | FreeModbus/modbus/ascii/mbascii.c:410-430 | the frame in progress is given up |
| CoilSpec.SetBitsAt | FreeModbus/modbus/functions/mbutils.c:47-83 | for every bit of the buffer: inside the field it becomes the value's, outside it stays unless the value spills onto it |
| CoilSpec.GetBitsAt | FreeModbus/modbus/functions/mbutils.c:86-113 | bit i of the result is bit off + i of the buffer, and nothing beyond the field |
| CoilSpec.WriteCoilsAt | FreeModbus/port/user_mb_app.c:212-227 | for every coil after the write loop: the written ones are the value bits, in order from start, across byte boundaries |
| CoilSpec.ReadCoilsAt | FreeModbus/port/user_mb_app.c:196-209 | bit j of the bytes read is coil start + j, zero padded |
| CoilSpec.ReadAfterWrite | FreeModbus/port/user_mb_app.c:169-237 | reading what was written gives back the value bytes, for every start and count in range |
| CoilSpec.OthersKeptExactly | FreeModbus/port/user_mb_app.c:212-227 | no other coil changes if and only if every set padding bit meets a coil that is already on |
| CoilSpec.PaddingSpills | FreeModbus/modbus/functions/mbfunccoils.c:234-252 | every accepted request for one coil with value byte 3 turns on the next coil too |
| CoilSpec.SpillingRequest | FreeModbus/modbus/functions/mbfunccoils.c:213-222 | and such a request exists, byte for byte |
| CoilSpec.LeavesBufferExactly | FreeModbus/port/user_mb_app.c:190-227 | the accesses of a write leave the eight bytes of ucSCoilBuf if and only if start / 8 + ceil(count / 8) >= 8, those of a read if and only if start / 8 + count / 8 + 1 >= 8, and never go further than two bytes |
| CoilSpec.GuardsDoNotMatter | FreeModbus/port/user_mb_app.c:196-227 | what is behind the buffer shows in no response and does not matter to the coils |
| CoilSpec.GuardsKept | FreeModbus/port/user_mb_app.c:212-227 | a write padded with zeros puts back what was behind the buffer |
| CoilSpec.WriteAcceptedExactly | FreeModbus/modbus/functions/mbfunccoils.c:203-267 | a write request is answered if and only if it is longer than 5 bytes, count and byte count fit each other and the coils exist; past 5 bytes its length does not matter; an exception changes no coil |
| CoilSpec.WriteExceptionExactly | FreeModbus/modbus/functions/mbfunccoils.c:203-267 | which exception a write gets: 03 for its length or counts, 02 for coils that do not exist |
| CoilSpec.ReadAnswersExactly | FreeModbus/modbus/functions/mbfunccoils.c:69-144 | a read is answered if and only if it is 5 bytes long, asks for 1 to 1999 coils, and they exist, with exactly those coils, zero padded; otherwise exception 03 or 02 |
| CoilSpec.CoilsAreOfRequestExactly | FreeModbus/modbus/functions/mbfunccoils.c:213-252 | an accepted request alone decides the coils written, whatever stands behind it in the frame buffer, if and only if it is at least 6 bytes and its byte count long |
| CoilSpec.WriteThenRead | FreeModbus/modbus/functions/mbfunccoils.c:69-267 | Write Multiple Coils then Read Coils answers with the bytes written and changes no other coil (sections 6.11 and 6.1 of MODBUS Application Protocol V1.1b3) |
| Coils.CoilServer.SetBitsHere | FreeModbus/modbus/functions/mbutils.c:47-83 | the two buffer bytes end as specified, all others stay |
| Coils.CoilServer.GetBitsHere | FreeModbus/modbus/functions/mbutils.c:86-113 | the bits as specified |
| Coils.CoilServer.WriteLoop | FreeModbus/port/user_mb_app.c:212-227 | the loop leaves the coil buffer, and the two bytes behind it that the last coils reach, as specified |
| Coils.CoilServer.ReadLoop | FreeModbus/port/user_mb_app.c:196-209 | the loop, which may read the two bytes behind the coil buffer, fills its part of the frame as specified and touches nothing else |
| Coils.CoilServer.FuncWriteMultipleCoils | FreeModbus/modbus/functions/mbfunccoils.c:203-267 | coils, reply and exception as specified |
| Coils.CoilServer.FuncReadCoils | FreeModbus/modbus/functions/mbfunccoils.c:69-144 | frame, reply and exception as specified |

## Left out

Of components that are modelled:

- Heap locks, hooks, debug logs and statistics printing: each allocator call is one atomic step. Lock balance in `slab.c` is not claimed; its failure path releases a semaphore it does not hold.
- SmallMemSpec.RunsKeepInvariant: says nothing about the prev field of the end marker, which the code does not maintain on splits and never follows.
- SmallMemSpec.MallocKeepsHint: starts from a lowest hint; `ReallocHintExactly` says which calls lose it.
- MemHeap.MemHeap.Realloc: after the realloc that wraps nothing more is said of the pool; the bytes of headers are arbitrary values beside the fields, so that the damage to them is not modelled.
- MemHeap.MemHeap.Free: the magic word and pool pointer in each header, checked by assertions only, are not modelled.
- SlabAllocator.SlabAllocator.Malloc: used_mem and max_mem are unbounded numbers; recycled chunks are kept as chunk numbers instead of links inside the chunks, and the page map covers the pages managed.
- `rt_realloc` and `rt_calloc` of `slab.c`: compositions of malloc, copy and free.
- Threads.StartKeeps: startup is one step, since nobody else knows a thread in INIT state; its resume has the regions of `ThreadRegions`.
- Scheduler.Scheduler.ResumeCall: one method calls both regions; what may come in between is in `ThreadRegions`, as for suspend, detach and delete.
- TimerList.TimerList.Stop: one method; what may come between its test, its region and the clearing of the flag is in `TimerRuns`.
- TimerList.TimerList.Start: one method calls both regions; what may come in between is in `TimerRuns`, on the bottom row.
- TimerList.TimerList.Check: timeout functions do not start or stop timers, and the tick does not move within one check.
- Soft timers and their thread, `rt_timer_control`, and `rt_timer_detach`, which leaves the ACTIVATED flag set.
- TimerList.TimerList.Remove: the rows are sequences of timers; the link writes are in `Lists` and `IntrusiveList`.
- Scheduler.Scheduler.Schedule: ends with the choice of the thread; context switch, stacks and interrupt nesting are hardware.
- Threads.RunsKeepInvariant: wait lists are sequences; thread timers, stacks and the object registry are not part of a thread's record, and neither are time slices.
- MutexSpec.OwnerIsUrgent: one mutex with the PRIO flag and no other priority change, which is where inheritance by a single saved priority is right.
- MutexObject.MutexObject.Take: the thread timer of a timed wait is an independent timeout step; so in the other IPC objects.
- MessageQueueSpec.RunsKeepInvariant: where a waiter goes in the suspend list is left open, which covers FIFO and priority order.
- MessageQueueSpec.FifoOrder: excludes urgent sends, which are put in front, and resets; `StepRefines` says exactly what each of those does to the order.
- Sizes of zero, object creation, detach and deletion of IPC objects.
- ModbusAscii.AsciiStation.Receive: requires what eMBASCIIReceive asserts; `AssertionExactly` says when that holds.
- ModbusAscii.AsciiStation.Send: the PDU lies in the frame buffer behind its first byte, where the caller gets it from.
- ModbusAscii.AsciiStation.ReceiveFSM: serial port and timer calls are left out, the character is a parameter, and the event is a result.
- CoilSpec.WriteThenRead: Read Coils refuses 2000 coils, which section 6.1 of the standard allows, but this device has fewer; the extra zero byte it stores for counts that are multiples of 8 lies behind the reply.
- Write Single Coil, discrete inputs and registers: the same bit fields and simpler.

Of the repository:

- Mailbox, semaphore and memory pool: the first two are simpler than what is here; the pool does not look again after waking, so the natural invariant fails.
- Object registry, device layer, idle loop, `module.c`, string and print helpers of `kservice.c`.
- Modbus RTU, TCP and master, and the polling loop: event plumbing over a port layer.
- Board support, drivers and the application: register input and output.
