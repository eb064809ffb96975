# A verified model of the RT-Thread kernel core

The repository ships the RT-Thread 4.0.3 kernel. This project models its memory
managers, its single-core scheduler and its inter-thread communication in Dafny and
proves that they keep their structures and promises over every run.

| files | what they model |
|---|---|
| `Words` | 32-bit rounding and masks, and where they wrap around |
| `Seqs`, `Ring`, `RtList`, `Chains` | sequences without repetition; circular and null-terminated lists threaded through memory; the list of `rtservice.h` |
| `HeapSpec`, `HeapLaws`, `HeapTheorems` | the memheap allocator on values: the block partition and the free list |
| `Memory`, `MemHeapLinks`, `MemHeap`, `SystemHeap` | the same allocator on memory: headers, two rings, counters and payload bytes, then `rt_malloc`, `rt_free` and `rt_realloc` over several heaps |
| `MemHeapThreads` | the same allocator under concurrent calls, which test and read sizes in front of its lock |
| `SmallSpec`, `SmallLaws`, `SmallTheorems`, `SmallHeap` | the allocator of `mem.c`, on values and on its headers |
| `SlabPages`, `SlabZones`, `SlabLaws`, `SlabHeap` | the page allocator, size classes, zones, page table and heap of `slab.c` |
| `SlabThreads` | the same heap under concurrent calls, which give its lock up around the page allocator |
| `SlabRealloc` | `rt_realloc` of `slab.c` and the bytes that this allocator writes for itself |
| `HeapContract`, `HeapMoves` | one contract on live payloads, met by all three allocators; reallocations that move their block, part by part, under concurrent calls |
| `AlignedAlloc` | `rt_malloc_align` and `rt_free_align` on top of the system heap |
| `ReadyMap`, `Sched`, `SchedLaws`, `ThreadLaws`, `Kernel`, `RoundRobin` | the ready bitmap and its lookup, the scheduler and thread states on values, their laws, the kernel object that refines them, and time slices |
| `Semaphore`, `Mutex`, `Event`, `Waiting`, `Mailbox`, `MqSpec`, `MqLaws`, `MqDelivery`, `MsgQueue`, `MqObject`, `MemPool` | the IPC objects and the fixed-block pool as protocols |
| `Base64` | the codec of `wifi_config.c` |

Objects whose C functions update fields are classes; each method is proved to do to
the fields what a function on values says, and the theorems are about those
functions. Concurrency is a state machine: every region with interrupts disabled is
one step, the message queue copies between two regions are steps of their own, and
threads interleave freely at step boundaries. Assertions of the source are
preconditions. A timeout is a step that may happen to any waiting thread.

Where a promise does not hold of the code, the exact condition under which it does is
proved, and a witness shows that it can fail:

- A heap of `mem.c` with less than 12 bytes of room never comes back from a small request
  that passes its size test (`SmallTheorems.ReturnsExactly`, `SmallTheorems.SpinsAtEnd`).
- Both first-fit searches refuse some requests that a block would fit
  (`HeapTheorems.RefusedThoughItFits`, `SmallTheorems.RefusedThoughItFits`).
- `rt_realloc` of `mem.c` can refuse to make a block smaller: one that is to give up 24
  bytes or less has to move (`SmallTheorems.ShrinkStuck`, `SmallTheorems.ShrinkRefused`).
- Requests within a word of 2^32 are rounded to nothing and served with the least block
  (`HeapTheorems.ServedInFull` and `SmallTheorems.ServedInFull`, `ServedShort` in both);
  reallocating to such a size cuts a memheap block of more than 48 bytes to 12
  (`SystemHeap.KeptExactly`, `SystemHeap.KeptFew`) and frees a block of `mem.c`
  (`SmallTheorems.NullKeepsExactly`, `SmallTheorems.NullFrees`).
- Three words further down, the growth test of `rt_memheap_realloc` says yes where there
  is no room, and the new header is laid over that of the block itself
  (`HeapTheorems.GrowTestExactly`, `HeapTheorems.GrowthLands`,
  `HeapTheorems.GrowTestWraps`).
- The padded size of `rt_malloc_align` can wrap around, and then the payload does not lie
  inside its block (`AlignedAlloc.PaddedExactly`, `AlignedAlloc.AlignedFits`,
  `AlignedAlloc.PaddedWraps`).
- `rt_memheap_alloc` tests the free bytes before it takes the lock, so it can serve the very
  last of them, which the test would have refused by then; nothing else changes
  (`MemHeapThreads.LateExactly`, `MemHeapThreads.ServedLate`).
- Initialising too small a pool writes over its own first header or in front of the pool
  (`HeapTheorems.FormatFits`, `HeapTheorems.FormatOverlaps`, `MemPool.FormatFits`,
  `MemPool.FormatUnderruns`).
- Chunks of two pages and more are aligned to their size only if their zone is
  (`SlabLaws.ChunksAligned`, `SlabLaws.LargeChunksMisaligned`).
- A FIFO mutex hand-off can leave a waiter more urgent than the owner; nothing else can
  (`Mutex.FifoStep`, `Mutex.FifoRun`, `Mutex.FifoInversion`).
- The comment of `rt_thread_yield` says that the caller always becomes ready; the code
  needs the flag that only the tick sets (`SchedLaws.YieldNeedsFlag`,
  `SchedLaws.YieldDoesNothing`).
- Decoding an empty Base64 text gives 0 only if no '=' lies in front of it in memory
  (`Base64.ReportedExactly`, `Base64.EmptyBehindPad`).

Methods require of their callers what these conditions ask for, where the code would
otherwise leave the structures broken or not return.

## Model

| member | source | states |
|---|---|---|
| MemHeap.MemHeap.constructor | rt-thread/src/memheap.c:50-114 | on every pool that FormatFits says yes to: one free block and the used tailer, linked in both rings, and the pool minus two headers counted as available |
| MemHeap.MemHeap.Alloc | rt-thread/src/memheap.c:138-281 | the two rings, flags and counters again spell out a valid partition, namely the one first fit over the free list yields; NULL exactly on refusal, and then nothing changed; every live payload and all memory outside the pool is untouched; max_used_size is the running maximum |
| MemHeap.MemHeap.Free | rt-thread/src/memheap.c:495-595 | the freed block joins free neighbours on both sides, rings, flags and counters follow, and no byte of memory changes |
| MemHeap.MemHeap.Realloc | rt-thread/src/memheap.c:284-492 | grow in place, stay, shrink in place, move or free, and the address of the block that comes of it; a NULL pointer allocates, size 0 frees and changes no byte; otherwise NULL exactly when the block is to hold more, has no room behind it up to the next block for a header and more than a least payload, and the heap refuses, and then heap and memory are unchanged; all payload bytes are kept, or, of a block that is cut, the first new-size ones, and so is every other live payload |
| HeapLaws.AllocKeepsValid | rt-thread/src/memheap.c:186-274 | serving a fitting free block keeps the pool tiled, free blocks apart, and the free list exactly the free blocks, each once |
| HeapLaws.FreeKeepsValid | rt-thread/src/memheap.c:535-591 | freeing a block in use keeps the same three things, through merges on either side or both |
| HeapLaws.ResizeKeepsValid | rt-thread/src/memheap.c:309-492 | growing into, or shrinking beside, the right neighbour keeps them too |
| HeapLaws.GrowsWhere | rt-thread/src/memheap.c:326-350 | a block that is to hold more stays exactly if its right neighbour is free and leaves room, by addresses, for a header and more than a least payload |
| HeapLaws.AllocFreeBytes | rt-thread/src/memheap.c:231-268 | the bytes that available_size loses are those of the payload served plus, after a split, one header |
| HeapLaws.FreeFreeBytes | rt-thread/src/memheap.c:538-563 | the bytes that available_size gains are the payload freed plus one header for every merge |
| HeapLaws.ResizeFreeBytes | rt-thread/src/memheap.c:353-485 | in-place growth and shrinking change the free bytes by the difference in payload and by the headers merged or made |
| HeapTheorems.Canonical | rt-thread/src/memheap.c:138-595 | two heaps over one pool with the same blocks in use have the same partition, the same free bytes and list the same free blocks |
| HeapTheorems.AllFreed | rt-thread/src/memheap.c:495-595 | a heap with nothing in use is the heap as it was initialised |
| HeapTheorems.LiveAlloc | rt-thread/src/memheap.c:186-274 | allocation adds one block of at least the size wanted, less than a header and a minimal payload larger, and disturbs no live block |
| HeapTheorems.LiveFree | rt-thread/src/memheap.c:495-595 | freeing removes exactly one block from those in use |
| HeapTheorems.LiveResize | rt-thread/src/memheap.c:284-492 | resizing in place changes the size of one live block and nothing else about those in use |
| HeapTheorems.LiveRealloc | rt-thread/src/memheap.c:284-492 | whichever way a reallocation goes, it replaces the block in use by one of the size wanted or more at the address returned, and nothing else that is in use changes |
| HeapTheorems.ReallocWhere | rt-thread/src/memheap.c:319-492 | by addresses: a block that is to hold no more is cut exactly if it has room within, and is otherwise left alone; one that is to hold more grows, moves or is refused |
| HeapTheorems.SplitsWhere | rt-thread/src/memheap.c:188-274 | by addresses: a block served is cut at the size wanted exactly if the rest holds a header and a least payload, and is otherwise served whole |
| HeapTheorems.FirstIsFirst | rt-thread/src/memheap.c:164-178 | every listed block in front of the one taken is too small |
| HeapTheorems.FreedIsNext | rt-thread/src/memheap.c:577-591 | the block freed last is the next one served, if it is large enough and was not joined to its left neighbour |
| HeapTheorems.RestIsNext | rt-thread/src/memheap.c:218-224 | so is the rest of a block that has been cut |
| HeapTheorems.LowestIsReached | rt-thread/src/memheap.c:353-356 | what max_used_size is computed from is the least number of free bytes: that of the end in place, and for a move that with both blocks allocated |
| HeapTheorems.AllocThenFree | rt-thread/src/memheap.c:147-591 | an allocation freed at once restores the block partition, and the same blocks are listed as free |
| HeapTheorems.Conservation | rt-thread/src/memheap.c:64-112 | free payload, payload in use and one header per block always add up to the pool |
| HeapTheorems.SearchIsComplete | rt-thread/src/memheap.c:160-184 | the walk over the free ring finds a block exactly when some free block is large enough |
| HeapTheorems.RefusedThoughItFits | rt-thread/src/memheap.c:155 | the strict test refuses a request that a block would fit exactly when the only free bytes are one block of precisely that size |
| HeapTheorems.NewHeapRefusesAll | rt-thread/src/memheap.c:155 | a witness: a new heap asked for all it reports as available |
| HeapTheorems.ServedInFull | rt-thread/src/memheap.c:147-150 | the block that serves a request holds it exactly when rounding up to words does not wrap around |
| HeapTheorems.ServedShort | rt-thread/src/memheap.c:147-150 | a witness: a new heap serves 2^32 - 1 bytes with a block of 12 |
| HeapTheorems.GrowTestExactly | rt-thread/src/memheap.c:335-350 | the growth test, taken in 32 bits, decides rightly exactly when newsize + 12 does not wrap around |
| HeapTheorems.GrowTestWraps | rt-thread/src/memheap.c:335-350 | a witness: in a pool of 108 bytes, 12 bytes beside 24 free ones pass for room for 2^32 - 12, and the header of the rest comes to lie in the header of the block |
| HeapTheorems.GrowthLands | rt-thread/src/memheap.c:350-384 | a growth that passes the test lays the header of the rest, and room for the least payload, behind the grown payload and in front of the next block exactly when the test decides rightly; otherwise into the header of the grown block |
| HeapTheorems.FormatFits | rt-thread/src/memheap.c:62-104 | first block and tailer lie behind one another inside the pool, and no more than the pool is counted as available, exactly for pools of two headers or more |
| HeapTheorems.FormatOverlaps | rt-thread/src/memheap.c:62-104 | a witness: a pool of one header |
| HeapTheorems.ServeKeepsValid | rt-thread/src/memheap.c:138-595 | any request in any valid state leaves a valid state |
| HeapTheorems.RunsMeet | rt-thread/src/memheap.c:138-595 | any two runs from a new heap that leave the same blocks in use leave the same partition; every byte is accounted for after any run; and a run that leaves nothing in use leaves the new heap |
| MemHeapThreads.StepKeepsSafe | rt-thread/src/memheap.c:138-595 | every locked part, and every test or read in front of the lock, keeps the heap valid and what each call relies on in use and of the size read; a step adds, drops or resizes at most the one block of its call |
| MemHeapThreads.EveryRun | rt-thread/src/memheap.c:138-595 | after any interleaving from a new heap the heap is valid, every byte is accounted for, sizes read in front of the lock are still right, and a heap with nothing in use is the new heap |
| MemHeapThreads.TestThenFind | rt-thread/src/memheap.c:155-281 | a test and its search with nothing in between do what the whole call does |
| MemHeapThreads.LateExactly | rt-thread/src/memheap.c:155-186 | the locked search differs from a whole call made at that moment exactly when the free bytes are one block of precisely the size wanted |
| MemHeapThreads.ServedLate | rt-thread/src/memheap.c:155-186 | a witness: two interleaved allocations, of which the first to test gets all that is left |
| MemHeapThreads.InitSafe | rt-thread/src/memheap.c:50-114 | a new heap with no call under way is where these runs begin |
| MemHeapLinks.DividedHolds | rt-thread/src/memheap.c:205-243 | laying a new header inside a block and linking it is an insertion into the block ring that leaves free ring and flags as they were |
| MemHeapLinks.OverwriteHolds | rt-thread/src/memheap.c:393-394 | bytes written clear of all headers leave the heap in place |
| SystemHeap.Undisturbed | rt-thread/src/memheap.c:610-695 | what one heap does inside its own pool leaves another heap valid and its payloads unchanged |
| SystemHeap.System.Malloc | rt-thread/src/memheap.c:610-648 | the default heap serves the request, or the first other heap in list order that does not refuse; NULL exactly when all refuse; all live payloads of all heaps are kept |
| SystemHeap.System.Free | rt-thread/src/memheap.c:650-653 | the block goes back to the heap whose pool it lies in |
| SystemHeap.System.Realloc | rt-thread/src/memheap.c:656-695 | the block stays with its heap or falls over to another one, with its bytes (see KeptExactly) and at the address returned; size 0 frees it and changes no byte; NULL for a non-zero size exactly when every way is barred, and then the old block is live and intact |
| SystemHeap.KeptExactly | rt-thread/src/memheap.c:300-421 | a reallocation in the heap of the block keeps the first min(old, new) bytes exactly when the new size does not wrap around or the block has 48 bytes or less; otherwise the block is cut to 12 |
| SystemHeap.KeptFew | rt-thread/src/memheap.c:300-303 | a witness: a block of 100 bytes reallocated to 2^32 - 1 is cut to twelve |
| HeapContract.NeverOverlap | rt-thread/src/memheap.c:138-595 | any sequence of calls that meet the allocation contract one by one keeps live payloads disjoint |
| HeapContract.MemHeapAllocates | rt-thread/src/memheap.c:138-281 | memheap meets the contract: one payload of at least the size, clear of every other, and no other change |
| HeapContract.MemHeapFrees | rt-thread/src/memheap.c:495-595 | memheap meets the contract of freeing |
| HeapContract.SmallAllocates | rt-thread/src/mem.c:272-410 | mem.c meets the same contract |
| HeapContract.SmallFrees | rt-thread/src/mem.c:552-615 | mem.c meets the contract of freeing |
| HeapContract.SlabAllocates | rt-thread/src/slab.c:478-667 | rt_malloc of slab.c meets the same contract for the size asked for; NULL leaves what is live |
| HeapContract.SlabFrees | rt-thread/src/slab.c:771-904 | rt_free of slab.c meets the contract of freeing |
| HeapMoves.StepKeepsInv | rt-thread/src/memheap.c:319-412 | whatever other threads allocate, free, write or move between allocation, copy and free of a move, each move still knows its old payload as it was, and its new one begins with it once copied; no payload is on two moves |
| HeapMoves.NeverStuck | rt-thread/src/memheap.c:405-406 | nothing that other threads do keeps a move that has its new block from copying |
| HeapMoves.EveryMove | rt-thread/src/memheap.c:401-412 | over every interleaving, a reallocation that moves its block takes exactly one payload, and when it returns the old one is free and the one taken is live, of the new size, and begins with what the old one held when the call began |
| HeapMoves.MemHeapKeeps | rt-thread/src/memheap.c:138-595 | an operation of memheap.c that keeps the payloads of blocks in use keeps live payloads in the sense of these moves |
| HeapMoves.SmallKeeps | rt-thread/src/mem.c:272-615 | so does one of mem.c |
| HeapMoves.SlabKeeps | rt-thread/src/slab.c:478-904 | and one of slab.c |
| AlignedAlloc.RaiseFits | rt-thread/src/kservice.c:1249-1257 | for a power of two, the pointer raised with the masks of the source is a multiple of it, at least a word above the block start and at most the alignment above it |
| AlignedAlloc.PaddedExactly | rt-thread/src/kservice.c:1238-1246 | the padded size has room for the alignment and the payload exactly when neither rounding nor sum wraps around |
| AlignedAlloc.PaddedWraps | rt-thread/src/kservice.c:1238-1246 | a witness: 2^32 - 8 bytes aligned to 8 are padded to nothing; a new heap serves twelve bytes, and the aligned address lies eight behind their start |
| AlignedAlloc.AlignedFits | rt-thread/src/kservice.c:1238-1257 | in every heap that serves the padded size, the aligned payload lies inside the block served, a word behind its start, exactly when nothing wraps around |
| Words.Masks | rt-thread/src/kservice.c:1249-1256 | for a power of two, & (a - 1) is the remainder and & ~(a - 1) rounds down |
| Words.AlignMasks | rt-thread/include/rtdef.h:291-300 | RT_ALIGN and RT_ALIGN_DOWN, with their masks, round to words |
| AlignedAlloc.MallocAlign | rt-thread/src/kservice.c:1229-1266 | NULL exactly when every heap refuses the padded size; otherwise an aligned address whose payload and saved-pointer word lie inside the very block just served, the word reading back as the block pointer, and every other live payload kept |
| AlignedAlloc.FreeAlign | rt-thread/src/kservice.c:1275-1281 | the pointer recovered from the saved word frees exactly the block the aligned address was cut from |
| AlignedAlloc.AllocAligned | rt-thread/src/memheap.c:138-281 | allocation keeps every block address word-aligned |
| AlignedAlloc.ReallocAligned | rt-thread/src/memheap.c:284-492 | so does reallocation |
| AlignedAlloc.EveryRun | rt-thread/src/memheap.c:138-595 | in every run on a pool that begins at a word every block address is word-aligned |
| SmallHeap.MemoryPool.constructor | rt-thread/src/mem.c:204-257 | initialisation lays one free block and heap_end on the aligned range, for every range it accepts |
| SmallHeap.MemoryPool.RtMalloc | rt-thread/src/mem.c:272-410 | headers, lfree, used_mem and max_mem again describe a valid heap, namely the one first fit from the heap start yields; NULL exactly on refusal, and then nothing changed; all live payloads are kept |
| SmallHeap.MemoryPool.RtFree | rt-thread/src/mem.c:552-615 | the block is joined with free neighbours on both sides, and lfree and used_mem follow |
| SmallHeap.MemoryPool.RtRealloc | rt-thread/src/mem.c:421-516 | the same pointer for the same size, and for less if the block has room, by addresses, for a header and more than a least payload behind it; otherwise moved, NULL exactly when the heap refuses; a NULL pointer allocates and size 0 frees; NULL leaves the old block live and intact unless the size is rounded to 0; the first min(old, new) bytes are kept and so is every other live payload |
| SmallHeap.MemoryPool.PlugHoles | rt-thread/src/mem.c:156-194 | plug_holes joins a free block with its free neighbours, keeps the headers linked and lfree the lowest free block |
| SmallHeap.MemoryPool.AdvanceLowest | rt-thread/src/mem.c:380-387 | lfree moves to the lowest block that is still free, or to heap_end |
| SmallLaws.PlugKeepsValid | rt-thread/src/mem.c:156-194 | after plug_holes no two free blocks are neighbours |
| SmallLaws.TakeKeepsValid | rt-thread/src/mem.c:311-370 | serving a block, split or whole, keeps the heap tiled and free blocks apart |
| SmallLaws.FreeKeepsValid | rt-thread/src/mem.c:595-613 | so does freeing one |
| SmallLaws.CutKeepsValid | rt-thread/src/mem.c:471-503 | so does cutting one in place |
| SmallLaws.TakeUses | rt-thread/src/mem.c:349-369 | used_mem grows by exactly the extent the served block now has |
| SmallLaws.FreeUses | rt-thread/src/mem.c:608-610 | used_mem shrinks by the extent of the freed block, whatever is merged |
| SmallLaws.CutUses | rt-thread/src/mem.c:474-476 | used_mem shrinks by what is cut off |
| SmallLaws.LowestFreed | rt-thread/src/mem.c:602-606 | a freed block becomes the lowest free one exactly when it lies below the previous one |
| SmallLaws.LowestPlugged | rt-thread/src/mem.c:174-190 | joining free blocks does not change which address is lowest |
| SmallTheorems.SearchFromLowest | rt-thread/src/mem.c:305-313 | the search from lfree finds the block that a search of the whole heap finds |
| SmallTheorems.RefusedExactly | rt-thread/src/mem.c:291-313 | a request that passes the size tests is refused exactly when no free block has room, the last block not counting if it fits exactly |
| SmallTheorems.RefusedThoughItFits | rt-thread/src/mem.c:306 | the strict bound of the loop refuses a request that fits exactly when the only room is a last block of precisely that size |
| SmallTheorems.NewHeapRefusesAll | rt-thread/src/mem.c:291-306 | a new heap refuses every request for all of it or more, and nothing else but zero |
| SmallTheorems.ReturnsExactly | rt-thread/src/mem.c:289-315 | in every valid heap the search of rt_malloc ends exactly unless a request other than 0 passes the size test of a heap with less room than a smallest block |
| SmallTheorems.SpinsAtEnd | rt-thread/src/mem.c:305-307 | a witness: asked for 4 bytes, a heap of 8 has its cursor at heap_end after any number of steps, and still inside the bound |
| SmallTheorems.ServedInFull | rt-thread/src/mem.c:289-300 | the block that serves a request holds it exactly when rounding up to words does not wrap around |
| SmallTheorems.ServedShort | rt-thread/src/mem.c:289-300 | a witness: a new heap of 1024 bytes serves 2^32 - 1 with a block of 12 |
| SmallTheorems.NullKeepsExactly | rt-thread/src/mem.c:430-443 | when rt_realloc returns NULL the old block is still live exactly if the size is not 0, neither as given nor rounded up in 32 bits |
| SmallTheorems.NullFrees | rt-thread/src/mem.c:430-443 | a witness: asked to hold 2^32 - 1 bytes, a block is freed |
| SmallTheorems.TakeThenFree | rt-thread/src/mem.c:305-613 | an allocation freed at once restores the block list |
| SmallTheorems.LiveTake | rt-thread/src/mem.c:311-370 | an allocation adds one block, cut from the front of a free one and clear of every live block |
| SmallTheorems.LiveFree | rt-thread/src/mem.c:552-615 | freeing removes one live block and touches no other |
| SmallTheorems.LiveCut | rt-thread/src/mem.c:471-503 | cutting in place keeps the front of one live block and touches no other |
| SmallTheorems.CutsWhere | rt-thread/src/mem.c:471 | by addresses: a block is cut in place exactly if it has room for a header and more than a least payload behind the new size |
| SmallTheorems.SplitsWhere | rt-thread/src/mem.c:315-370 | by addresses: a block served is cut exactly if the rest holds a header and a least payload |
| SmallTheorems.ShrinkStuck | rt-thread/src/mem.c:462-516 | a request to make a block smaller comes to nothing exactly if it gives up 1 to 24 bytes and the heap has no place for the smaller block |
| SmallTheorems.ShrinkRefused | rt-thread/src/mem.c:462-516 | a witness: in a heap of 1024 bytes a block of 1000 asked to make do with 996 |
| SmallTheorems.Conservation | rt-thread/src/mem.c:336-369 | extents in use and free extents always add up to the heap |
| SlabPages.Determined | rt-thread/src/slab.c:236-322 | two address-ordered lists of runs that never touch and cover the same pages are the same list |
| SlabPages.AllocTakes | rt-thread/src/slab.c:246-264 | rt_page_alloc removes exactly its pages from the free ones and keeps the list ordered and apart |
| SlabPages.AllocFindsLowest | rt-thread/src/slab.c:236-270 | it fails exactly when no contiguous pages of that number are free, and otherwise hands out the lowest ones |
| SlabPages.FreeAdds | rt-thread/src/slab.c:286-317 | rt_page_free adds exactly the freed pages, merged on both sides, and keeps the list ordered and apart |
| SlabPages.BeforeOrBehind | rt-thread/src/slab.c:288-289 | the assertion of the free loop holds for allocated pages |
| SlabPages.AllocThenFree | rt-thread/src/slab.c:236-322 | pages allocated and freed again leave the very same list |
| SlabPages.PageHeap.PageAlloc | rt-thread/src/slab.c:236-270 | the linked list of page heads becomes the list with its first fitting run shortened or dropped |
| SlabPages.PageHeap.PageFree | rt-thread/src/slab.c:272-322 | the linked list of page heads becomes the list with the freed pages merged in |
| SlabZones.ZoneIndex | rt-thread/src/slab.c:401-459 | for 1 to 16383 bytes: the first of 72 size classes whose chunks hold the request, and its chunk size |
| SlabZones.ClassesOrder | rt-thread/src/slab.c:401-459 | the class grows with the request, and two requests share one exactly when they are rounded to the same chunk size |
| SlabZones.LiveApart | rt-thread/src/slab.c:556-568 | live chunks of a zone are disjoint and lie inside it behind the header |
| SlabZones.TakeKeepsZone | rt-thread/src/slab.c:543-568 | taking a chunk keeps nfree the fresh chunks plus the length of the free list, and hands out a chunk that was not live |
| SlabZones.GiveKeepsZone | rt-thread/src/slab.c:830-842 | giving one back keeps it too and takes exactly that chunk out of the live ones |
| SlabZones.LastGivenFirst | rt-thread/src/slab.c:543-568 | in a zone all of whose chunks have been out the one given back last is the next to go |
| SlabZones.EmptyExactly | rt-thread/src/slab.c:854-855 | nfree equals nmax exactly when no chunk of the zone is live |
| SlabLaws.TableFindsOwner | rt-thread/src/slab.c:795-828 | the page table leads from any live small pointer to its zone and from a large one to its page count |
| SlabLaws.LiveDisjoint | rt-thread/src/slab.c:478-904 | live blocks, small and large, lie inside the heap and never overlap |
| SlabLaws.ServeKeepsInv | rt-thread/src/slab.c:539-577 | serving from a listed zone keeps zones, lists, cache, table and pages consistent; a listed zone always has a free chunk |
| SlabLaws.OpenKeepsInv | rt-thread/src/slab.c:587-659 | setting up a zone on fresh or cached pages keeps them |
| SlabLaws.GiveKeepsInv | rt-thread/src/slab.c:825-846 | returning a chunk keeps them |
| SlabLaws.NextToServe | rt-thread/src/slab.c:829-842 | a zone that comes to have chunks to give goes to the front of its list, and one that had some keeps its place |
| SlabLaws.RetireKeepsInv | rt-thread/src/slab.c:854-874 | moving an empty zone to the cache keeps them |
| SlabLaws.AllocSpares | rt-thread/src/slab.c:602-607 | pages from rt_page_alloc belong to no zone and no large block |
| SlabLaws.FreeSpare | rt-thread/src/slab.c:876-900 | pages that nobody holds can be given back |
| SlabLaws.NewZoneOk | rt-thread/src/slab.c:628-648 | a new zone has one live chunk and at least one free one, all inside its pages |
| SlabLaws.ChunksAligned | rt-thread/src/slab.c:631-638 | a live chunk of power-of-two size has an address that is a multiple of it exactly if its zone has, and always up to the size of a page |
| SlabLaws.LargeChunksMisaligned | rt-thread/src/slab.c:631-638 | a witness: an 8192-byte chunk of a zone on an odd page |
| SlabZones.FirstOffsetMasks | rt-thread/src/slab.c:635-638 | the bit operations that tell powers of two apart and round the base offset |
| SlabHeap.Heap.ZoneSize | rt-thread/src/slab.c:374-383 | the zone size is the least of 32, 64 and 128 KiB whose double is no less than a 1024th of the heap, or else 128 KiB; zone_limit is a quarter of it, at most 16 KiB |
| SlabHeap.Heap.RtMalloc | rt-thread/src/slab.c:478-667 | exactly one live block is added, with the chunk size of the class or the pages of a large request, taken from the first listed zone, or else the zone cached last, or else the lowest free pages; NULL exactly for size 0 or when none of these can serve; no page behind the page table is lost |
| SlabHeap.Heap.RtFree | rt-thread/src/slab.c:771-904 | exactly the freed block stops being live; the pages of a large one are free again; a zone left without a live chunk is kept if it is alone on its list, else cached, or released if the cache is full; no page behind the page table is lost |
| SlabHeap.HeapInit | rt-thread/src/slab.c:327-391 | rt_system_heap_init sets up a heap with nothing live and every page behind the page table free |
| SlabThreads.StepKeepsSafe | rt-thread/src/slab.c:478-904 | each locked part of rt_malloc and rt_free, each call of the page allocator and each unlocked write to the page table keeps the heap consistent, pages in threads' hands apart from everything else, and every page accounted for; a malloc adds one live block when it is through, a free drops one |
| SlabThreads.EveryRun | rt-thread/src/slab.c:478-904 | after any interleaving of these parts live blocks do not overlap, and when all calls have returned every page is either free or in use |
| SlabThreads.InitSafe | rt-thread/src/slab.c:327-391 | a consistent heap whose pages behind the page table are all free, with no call under way, is where these runs begin |
| SlabThreads.LargeFreed | rt-thread/src/slab.c:797-821 | rt_free of a large block makes exactly its pages free |
| SlabThreads.ZoneFreed | rt-thread/src/slab.c:829-904 | after rt_free of a chunk its zone is gone exactly if that was its last live chunk and another zone is on its list; it is cached then, or, with a full cache, its pages are free |
| SlabThreads.ListedFrom | rt-thread/src/slab.c:531-575 | a chunk comes from the first listed zone, one that has never been out before the one given back last, and no page or cached zone is touched |
| SlabThreads.CachedFrom | rt-thread/src/slab.c:582-591 | with no zone listed it comes from the zone cached last, and no page is touched |
| SlabThreads.FreshFrom | rt-thread/src/slab.c:592-665 | with none cached either it comes from the lowest pages for a new zone |
| SlabHeap.Heap.InitPages | rt-thread/src/slab.c:327-391 | all pages are free in one run, of which the page table takes the first |
| SlabRealloc.OwnApart | rt-thread/src/slab.c:498-904 | what the allocator itself writes, zone headers, links of freed chunks, heads of free pages and the page table, lies in no live block |
| SlabRealloc.RtRealloc | rt-thread/src/slab.c:679-735 | the same block if the request is rounded to its chunk size; otherwise refused, and nothing changes, or moved with its first min(old, new) bytes; a NULL pointer allocates and size 0 frees; every byte of every other live block is kept |
| RtList.Nodes.InsertAfter | rt-thread/include/rtservice.h:59-66 | the new node becomes the first entry, next and prev stay inverse, other lists are undisturbed |
| RtList.Nodes.InsertBefore | rt-thread/include/rtservice.h:74-81 | the new node becomes the last entry, with the same guarantees |
| RtList.Nodes.Remove | rt-thread/include/rtservice.h:87-93 | the node leaves its list and becomes a list of its own, other lists are undisturbed |
| RtList.Nodes.IsEmpty | rt-thread/include/rtservice.h:99-102 | true exactly when the head is alone |
| RtList.Nodes.Len | rt-thread/include/rtservice.h:108-119 | the number of entries |
| Ring.Insert | rt-thread/include/rtservice.h:59-81 | linking a node behind another is an insertion into the ring sequence |
| Ring.Remove | rt-thread/include/rtservice.h:87-93 | linking the neighbours of a node to each other removes it from the sequence |
| ReadyMap.FfsFindsLowest | rt-thread/src/kservice.c:1286-1330 | __rt_ffs is 0 exactly for 0, and otherwise one more than the lowest set bit |
| ReadyMap.MarkAdds | rt-thread/src/scheduler.c:733-736 | insertion marks exactly the priority of the thread, in the one-level and in the two-level bitmap |
| ReadyMap.ClearRemoves | rt-thread/src/scheduler.c:819-830 | emptying a list unmarks exactly its priority, and the group word still summarises the table |
| ReadyMap.HighestIsLeast | rt-thread/src/scheduler.c:162-184 | the lookup finds the least marked priority; the group word is zero exactly when nothing is marked |
| ReadyMap.Lookup | rt-thread/src/scheduler.c:167-173 | the same for priorities as numbers |
| Kernel.KernelState.constructor | rt-thread/src/scheduler.c:191-239 | after rt_system_scheduler_init all lists are empty and unmarked and nobody is current |
| Kernel.KernelState.StartScheduler | rt-thread/src/scheduler.c:246-267 | the most urgent of the threads started so far gets the processor |
| Kernel.KernelState.InsertThread | rt-thread/src/scheduler.c:708-742 | a thread joins the tail of the list of its priority and its bit is set, or the current thread is RUNNING again |
| Kernel.KernelState.RemoveThread | rt-thread/src/scheduler.c:805-835 | a thread leaves whatever list it is on and the bit of its priority stays set exactly if that list is not empty |
| Kernel.KernelState.HighestPriorityThread | rt-thread/src/scheduler.c:162-184 | the head of the most urgent non-empty list |
| Kernel.KernelState.DoSchedule | rt-thread/src/scheduler.c:418-538 | rt_schedule on lists, bitmap and thread states is the abstract choice by the most urgent non-empty list |
| Kernel.KernelState.SuspendThread | rt-thread/src/thread.c:721-760 | a ready or running thread, and no other, leaves its list and is suspended; otherwise an error and no change |
| Kernel.KernelState.ResumeThread | rt-thread/src/thread.c:770-804 | a suspended thread leaves its wait list for the tail of its ready list; otherwise an error and no change |
| Kernel.KernelState.TimeoutThread | rt-thread/src/thread.c:813-835 | a waiting thread becomes ready with its error set, and the scheduler runs |
| Kernel.KernelState.ChangeThreadPriority | rt-thread/src/thread.c:636-677 | a ready thread moves to the tail of the list of its new priority, the masks follow; a waiting thread keeps its place |
| Kernel.KernelState.EnrollThread | rt-thread/src/thread.c:289-321 | a fresh thread becomes ready at its initial priority; before the scheduler has started that is all |
| Kernel.KernelState.StartupThread | rt-thread/src/thread.c:289-321 | afterwards the scheduler runs |
| Kernel.KernelState.CloseThread | rt-thread/src/thread.c:332-468 | a thread leaves its list and is closed, on the defunct list if it is kept |
| Kernel.KernelState.ExitThread | rt-thread/src/thread.c:80-115 | the running thread, closed before or not, leaves its list, is closed, and the scheduler runs |
| Kernel.KernelState.IpcListSuspend | rt-thread/src/ipc.c:80-123 | the suspended thread joins the wait list at the tail, or in front of the first waiter of strictly lower priority |
| Kernel.KernelState.TickIncrease | rt-thread/src/clock.c:72-96 | a tick counts the slice down, reloads and flags it when it is used up, and then lets the scheduler run |
| Kernel.KernelState.EnterCritical | rt-thread/src/scheduler.c:878-893 | the scheduler is locked once more and nothing else changes |
| Kernel.KernelState.ExitCritical | rt-thread/src/scheduler.c:940-965 | the nesting count never goes below zero and the scheduler runs when it reaches zero |
| SchedLaws.ScheduleSettles | rt-thread/src/scheduler.c:418-538 | after an unlocked rt_schedule, if anything can run, the current thread is RUNNING and no ready thread is strictly more urgent |
| SchedLaws.SwitchKeepsInv | rt-thread/src/scheduler.c:429-478 | a change of hands keeps the placement of all threads |
| SchedLaws.DoKeepsInv | rt-thread/src/thread.c:289-835 | startup, suspend, blocking, resume, timeout, priority change, exit, deletion, tick and critical sections keep the placement of all threads |
| ThreadLaws.SuspendExactly | rt-thread/src/thread.c:721-760 | succeeds exactly on the running thread and on threads on their ready list; the thread is on no list then, and all others keep their state and order |
| ThreadLaws.RunningCanBlock | rt-thread/src/ipc.c:80-123 | the running thread can always be suspended and put anywhere on a wait list, and nothing else changes |
| ThreadLaws.BlockExactly | rt-thread/src/ipc.c:80-123 | a thread that waits has the place it was given and is on no other list |
| ThreadLaws.ResumeExactly | rt-thread/src/thread.c:770-804 | succeeds exactly on a suspended thread, which is last in line at its priority then |
| ThreadLaws.TimeoutExactly | rt-thread/src/thread.c:813-835 | the same, with word left that the time is up |
| ThreadLaws.PriorityExactly | rt-thread/src/thread.c:636-677 | the priority given is the priority had in every state; a ready thread is last in line at it and any other keeps its place |
| ThreadLaws.StartExactly | rt-thread/src/thread.c:289-321 | last in line at the initial priority, without a stale yield |
| ThreadLaws.CloseExactly | rt-thread/src/thread.c:332-468 | closed, on no list but perhaps in front of the defunct ones; a second time nothing happens |
| ThreadLaws.ExitExactly | rt-thread/src/thread.c:80-115 | the same for the running thread |
| ThreadLaws.TickExactly | rt-thread/src/clock.c:72-96 | one tick less of the slice, or at its end a whole slice and the flag, for the running thread only |
| ThreadLaws.SwitchesExactly | rt-thread/src/scheduler.c:418-538 | hands change exactly if the scheduler is unlocked and a thread is ready that is more urgent, or equal with the running one flagged, or any if none runs |
| ThreadLaws.SwitchExactly | rt-thread/src/scheduler.c:418-538 | the head of the list takes over, the loser is last in line with its flag cleared, nobody else is touched |
| ThreadLaws.LockedStays | rt-thread/src/scheduler.c:878-965 | while the scheduler is locked nobody else gets the processor, whatever is called, and the nesting is counted |
| ThreadLaws.LockThenRelease | rt-thread/src/scheduler.c:878-965 | an inner critical section undoes itself, the outermost one ends with the scheduler |
| ThreadLaws.LeadsToSchedule | rt-thread/src/thread.c:80-835 | starting, blocking, timing out, exiting, yielding, the end of a slice and of a critical section settle the processor |
| ThreadLaws.LetsNobodyIn | rt-thread/src/thread.c:434-804 | the other calls leave the current thread current |
| SchedLaws.StepKeepsAll | rt-thread/src/thread.c:289-835 | every call keeps the placement and the idle thread, and one that goes through an unlocked rt_schedule settles the processor |
| SchedLaws.EveryRun | rt-thread/src/scheduler.c:418-538 | the same at every step of every run |
| SchedLaws.WhereThreadsAre | rt-thread/src/scheduler.c:708-835 | READY is being exactly once on the ready list of the current priority and on no other list; a suspended thread is on at most one wait list; RUNNING is being current and on no list |
| SchedLaws.YieldNeedsFlag | rt-thread/src/thread.c:479-484 | rt_thread_yield changes hands exactly when the tick has flagged the running thread and an equal is ready |
| SchedLaws.YieldDoesNothing | rt-thread/src/thread.c:479-484 | a witness: a run of two starts to a settled, unlocked system in which an equal is ready and yielding changes nothing |
| RoundRobin.TickAdvances | rt-thread/src/clock.c:83-96 | each tick brings a queued thread exactly one tick closer to its turn |
| RoundRobin.TurnComes | rt-thread/src/clock.c:72-96 | a thread on the list of the running one gets the processor within the ticks left to the running thread and those ahead of it, and with no stale yield flags exactly then, whatever equally or less urgent threads arrive |
| Semaphore.SemaphoreObject.TakeUnit | rt-thread/src/ipc.c:324-408 | a unit is taken if there is one, otherwise the caller waits or returns |
| Semaphore.SemaphoreObject.ReleaseUnit | rt-thread/src/ipc.c:433-471 | the first waiter is resumed with the unit, or the unit is counted |
| Semaphore.EveryRun | rt-thread/src/ipc.c:324-515 | nobody waits beside a unit in any run, and without resets units taken and left are units released and initial |
| Semaphore.InTurn | rt-thread/src/ipc.c:433-471 | a waiter with k others in front is served by release number k + 1 and by no other, as long as nobody gives up and newcomers queue behind |
| Semaphore.TakesExactly | rt-thread/src/ipc.c:324-408 | a unit is taken exactly if there is one, and waited for exactly if there is none |
| Semaphore.LeavesExactly | rt-thread/src/ipc.c:484-515 | a waiter whose time is up leaves its place; a reset sends all away and leaves the value given |
| Mutex.MutexObject.TakeMutex | rt-thread/src/ipc.c:654-779 | take, nested take that is counted, refusal, or suspension with the priority lent to the owner |
| Mutex.MutexObject.ReleaseMutex | rt-thread/src/ipc.c:790-881 | only the owner releases; the last release restores its priority and hands over to the first waiter or frees the mutex |
| Mutex.MutexObject.Enqueue | rt-thread/src/ipc.c:80-123 | a waiter goes in front of the first one of strictly lower priority, or to the tail |
| Mutex.StepKeepsSound | rt-thread/src/ipc.c:654-881 | the mutex is free with no waiters, or owned with a hold count; only the owner runs above its own priority, and the way back is remembered; for both queue kinds |
| Mutex.FirstBelowSplits | rt-thread/src/ipc.c:97-113 | the place in the queue has everyone at least as urgent in front and everyone less urgent behind |
| Mutex.EveryRun | rt-thread/src/ipc.c:654-881 | in every run of a priority-ordered mutex the owner is at least as urgent as each waiter, through boosts, timeouts and hand-offs |
| Mutex.LastRelease | rt-thread/src/ipc.c:828-871 | the last release gives every thread its own priority back and picks a most urgent waiter |
| Mutex.WhoTakes | rt-thread/src/ipc.c:654-881 | taken exactly if free or one's own, suspended exactly if another's and one may wait, otherwise refused without change; released by the owner and nobody else |
| Mutex.NestedTake | rt-thread/src/ipc.c:684-697 | a release undoes a nested take |
| Mutex.EveryTenure | rt-thread/src/ipc.c:654-881 | in every run hold is the owner's takes less its releases since it came to own the mutex, and it runs exactly at the most urgent priority among its own and those that have waited for it since |
| Mutex.FreeAgrees | rt-thread/src/ipc.c:654-697 | a free mutex is where this begins |
| Mutex.TimeoutExactly | rt-thread/src/thread.c:813-835 | a waiter whose time is up leaves its place, and what it has lent stays lent |
| Mutex.FifoStep | rt-thread/src/ipc.c:654-881 | with a FIFO queue a step keeps the owner at least as urgent as each waiter, except exactly a last release whose first waiter is less urgent than another |
| Mutex.FifoRun | rt-thread/src/ipc.c:654-881 | the owner of a FIFO mutex leads throughout a run exactly when no such hand-off occurs in it |
| Mutex.FifoInversion | rt-thread/src/ipc.c:717-871 | a witness with three threads where it does not |
| Event.Event.Send | rt-thread/src/ipc.c:1029-1111 | one pass over the waiters wakes those whose condition holds, in list order, clearing as it goes |
| Event.Event.Recv | rt-thread/src/ipc.c:1127-1204 | a satisfied receiver returns what is there and clears on request; otherwise it waits or returns |
| Event.ScanLosesNone | rt-thread/src/ipc.c:1058-1101 | whoever is still suspended after a send is unsatisfied by the flags that are left |
| Event.SatisfiedExactly | rt-thread/src/ipc.c:1060-1092 | AND asks for all flags wanted, OR for one; delivered are those wanted that are there |
| Event.ScanExactly | rt-thread/src/ipc.c:1058-1101 | each waiter is resumed exactly if what those in front of it have left satisfies it, and with all it wanted of that |
| Event.ScanKeepsAll | rt-thread/src/ipc.c:1058-1101 | every waiter is resumed or still waits, once |
| Event.SendExactly | rt-thread/src/ipc.c:1029-1111 | a waiter whose flags are all there, with nobody in front that clears any, is resumed with all of them |
| Event.RecvExactly | rt-thread/src/ipc.c:1127-1204 | a satisfied receiver takes the flags away exactly if it says so; one that waits does where it was put |
| Event.LeavesExactly | rt-thread/src/thread.c:813-835 | a waiter whose time is up leaves its place |
| Event.ResetExactly | rt-thread/src/ipc.c:1258-1282 | a reset leaves neither flags nor waiters |
| Event.NeverStuck | rt-thread/src/ipc.c:1127-1204 | a receiver goes on at once exactly if it is satisfied and otherwise waits |
| Event.ScanConsumes | rt-thread/src/ipc.c:1090-1092 | the flags that disappear in a send are exactly those delivered to CLEAR waiters |
| Event.DeliveredFrom | rt-thread/src/ipc.c:1063-1092 | a woken waiter gets only flags that were set and that it wanted, all of them under AND |
| Event.DeliveredOnce | rt-thread/src/ipc.c:1072-1092 | no flag is delivered to two CLEAR waiters of one send |
| Event.EveryRun | rt-thread/src/ipc.c:1029-1282 | in no reachable state does a thread sleep on an event whose condition holds |
| Mailbox.MailBox.Put | rt-thread/src/ipc.c:1540-1547 | the mail becomes the last one of the ring |
| Mailbox.MailBox.Get | rt-thread/src/ipc.c:1688-1696 | the first mail of the ring is taken |
| Mailbox.StepKeepsInv | rt-thread/src/ipc.c:1447-1719 | suspended receivers imply at most as many mails as woken receivers on their way, dually for senders and room |
| Mailbox.EveryRun | rt-thread/src/ipc.c:1447-1719 | the same over every run, and what is received, then what is left, is what was there, then what was sent |
| Mailbox.NeverStuck | rt-thread/src/ipc.c:1447-1719 | a running thread can send exactly if there is room and receive exactly if there is mail, and otherwise wait or give up |
| Mailbox.ResetExactly | rt-thread/src/ipc.c:1730-1761 | a reset leaves no mail and nobody waiting |
| MsgQueue.MessageQueue.constructor | rt-thread/src/ipc.c:1786-1836 | all slots are on the free list |
| MsgQueue.MessageQueue.TakeFreeSlot | rt-thread/src/ipc.c:2008-2088 | the first free slot passes into the hands of the sender, or there is none |
| MsgQueue.MessageQueue.CopyIn | rt-thread/src/ipc.c:2090-2093 | the copy outside the lock touches only the slot in hand, and nobody else's link |
| MsgQueue.MessageQueue.CopyInUrgent | rt-thread/src/ipc.c:2196-2197 | so does the copy of an urgent message, next field included |
| MsgQueue.MessageQueue.CopyOut | rt-thread/src/ipc.c:2359-2360 | the copy to the receiver reads the front of the slot in hand |
| MsgQueue.MessageQueue.Link | rt-thread/src/ipc.c:2095-2111 | the slot becomes the last of the queue; links of slots in other hands stay |
| MsgQueue.MessageQueue.LinkUrgent | rt-thread/src/ipc.c:2199-2211 | the slot becomes the first of the queue; links of slots in other hands stay |
| MsgQueue.MessageQueue.TakeHeadSlot | rt-thread/src/ipc.c:2344-2354 | the first slot passes into the hands of the receiver |
| MsgQueue.MessageQueue.PutFreeSlot | rt-thread/src/ipc.c:2362-2366 | the slot returns to the free list; links of slots in other hands stay |
| MsgQueue.MessageQueue.Reset | rt-thread/src/ipc.c:2421-2439 | all queued slots go to the free list; links of slots in other hands stay |
| MqObject.Step | rt-thread/src/ipc.c:1980-2439 | each region and each copy of each call does to the object what the step of the protocol does to its state, slots, links, bytes and slots terminated for linking included, and returns the slot and the bytes of that step |
| MqObject.Interleave | rt-thread/src/ipc.c:1980-2439 | any interleaving carried out on the object ends in the state in which the protocol ends, so that its laws hold of the object |
| MqObject.NewServes | rt-thread/src/ipc.c:1786-1836 | a new object is the initial state |
| MqLaws.StepKeepsInv | rt-thread/src/ipc.c:1980-2439 | each slot is in exactly one of queue, free list and one thread's hands, entry is the queue length, copies in flight are intact, and nobody sleeps beside work that nobody is coming for |
| MqLaws.NeverStuck | rt-thread/src/ipc.c:1980-2389 | every thread can go on: with a slot or a message exactly if there is one, otherwise by waiting, and with a slot in hand by its copy, its link or its return |
| MqLaws.WaitsExactly | rt-thread/src/ipc.c:80-123 | threads wait where they were put and leave that place when their time is up; a reset sends all that wait away and touches nobody else |
| MqLaws.WakesFirst | rt-thread/src/ipc.c:134-150 | a linked message wakes the first receiver, a returned slot the first sender, and nobody else |
| MqLaws.StepRefinesDeque | rt-thread/src/ipc.c:1980-2439 | every step is push back, push front, pop front, clear or nothing on a bounded double-ended queue of messages |
| MqLaws.RunRefinesDeque | rt-thread/src/ipc.c:1980-2439 | the visible events of any run are ones the bounded double-ended queue accepts, with the same contents at the end |
| MqLaws.EveryRun | rt-thread/src/ipc.c:1786-2439 | all of this in every interleaving from an initialised queue; MqDelivery ties it to the buffers that senders pass and receivers get |
| MqLaws.ReceivedIntact | rt-thread/src/ipc.c:2359-2360 | what a receiver copies is the front of the message it took, however long the copy was delayed |
| MqDelivery.StepStands | rt-thread/src/ipc.c:1980-2389 | every step is one that a post office accepts which keeps whole letters: each thread's own call, its letter queued once for this call, the first letter collected by a thread that holds none, as many of its bytes as asked for handed over |
| MqDelivery.EveryRun | rt-thread/src/ipc.c:1980-2389 | in every interleaving each call queues its buffer at most once, and each receiver returns min(size, msg_size) bytes that agree with the buffer that was first in the queue |
| MqDelivery.FirstInFirstOut | rt-thread/src/ipc.c:1980-2389 | without urgent messages and resets, what is collected, then what is left, is what was there, then what was posted, letter by letter |
| MemPool.MemPool.constructor | rt-thread/src/mempool.c:77-124 | on every pool that FormatFits says yes to, all blocks are on the free list in address order |
| MemPool.FormatFits | rt-thread/src/mempool.c:97-121 | initialisation leaves blocks of the size asked for and writes inside the pool only, exactly when the block size does not wrap around and the pool holds one block and its word |
| MemPool.FormatUnderruns | rt-thread/src/mempool.c:117-121 | a witness: one word written 12 bytes in front of a pool of 8 bytes |
| MemPool.MemPool.TakeBlock | rt-thread/src/mempool.c:371-390 | the first free block is handed out and marked with its pool |
| MemPool.MemPool.PutBlock | rt-thread/src/mempool.c:399-423 | the block becomes the first of the free list |
| MemPool.BlocksApart | rt-thread/src/mempool.c:99-116 | payloads of different blocks are disjoint and inside the pool |
| MemPool.StepKeepsInv | rt-thread/src/mempool.c:303-449 | each block is free or out, and nobody waits beside free blocks unless as many have been woken for them |
| MemPool.EveryRun | rt-thread/src/mempool.c:303-449 | the same over every run, with free and handed-out blocks adding up to the pool |
| MemPool.NeverStuck | rt-thread/src/mempool.c:303-390 | a block is handed out exactly if one is free; otherwise one can wait or give up |
| MemPool.LastFreedFirst | rt-thread/src/mempool.c:371-423 | the block given back last is the next one handed out |
| MemPool.NewestFirst | rt-thread/src/mempool.c:338 | the thread that came last is the first to be resumed |
| Waiting.WakeServed | rt-thread/src/ipc.c:1549-1560 | making one more item available and resuming one waiter strands nobody |
| Waiting.WakesFirst | rt-thread/src/ipc.c:134-150 | whoever waits at the front is resumed, and nobody else |
| Waiting.WaitsExactly | rt-thread/src/ipc.c:80-123 | a thread waits where it was put and leaves that place when its time is up |
| Base64.RoundTrip | board/port/wifi_config.c:68-145 | decoding the encoding of any non-empty byte string gives it back |
| Base64.BufferFits | board/port/wifi_config.c:186 | the encoding and its NUL fit len * 4 / 3 + 4 bytes, with none to spare exactly for lengths of one more than a multiple of three |
| Base64.EncodedShape | board/port/wifi_config.c:81-106 | four characters for every three bytes begun, padded only at the end and only for incomplete groups |
| Base64.Alphabet | board/port/wifi_config.c:44-45 | the letters are those of table 1 of RFC 4648, in order |
| Base64.GroupNumber | board/port/wifi_config.c:81-96 | four digits to base 64 are the number that three bytes are to base 256 |
| Base64.DecodeThenEncode | board/port/wifi_config.c:68-145 | encoding what was decoded gives the text back exactly for well-formed texts: full groups, padding last, unused bits zero |
| Base64.EncodeLen | board/port/wifi_config.c:68-110 | the loop writes the encoding and a NUL, and no other byte of the buffer |
| Base64.DecodeTo | board/port/wifi_config.c:115-145 | the loop writes the decoded bytes and no others; 0 for lengths that are no multiple of four, otherwise the length that ReportedExactly speaks of |
| Base64.ReportedExactly | board/port/wifi_config.c:115-145 | the length reported is the number of bytes decoded exactly unless the text is empty and one of the two bytes in front of it is a pad |
| Base64.EmptyBehindPad | board/port/wifi_config.c:119-124 | a witness: -1 is reported for an empty text behind a pad |

## Left out

- Sizes and addresses are unbounded numbers, reduced to 32 bits where the code could wrap around: rounding, the growth test, the padded size, the search bound, the counters of a new heap. A request to slab.c within a page of 2^32 wraps to no pages there and is refused; here it is refused for want of pages.
- Calls of memheap.c are one operation of the objects here, though their size tests come before the lock and a reallocation that moves its block gives it up in between; MemHeapThreads takes them apart on partitions, HeapMoves with the bytes on the common contract. The reallocation of mem.c gives the lock up likewise; all its other calls decide under it. Those of slab.c are modelled part by part in SlabThreads.
- SmallHeap.MemoryPool.constructor: a range that rt_system_heap_init turns down with a message has no heap.
- slab.c: rt_calloc and used_mem; the bytes that the allocator writes for itself are arbitrary ones in the places where it may write; the links inside chunks and between zones are sequences here, so their update in place is not captured.
- AlignedAlloc.MallocAlign: addresses are below 2^32.
- 8- and 16-bit counters (mutex hold, semaphore value, critical nesting, mail and message counts) do not wrap here.
- MemHeap.MemHeap.constructor: the object name and registration are left out; the list of heaps is a parameter of the system heap.
- Header bytes of mem.c are kept apart from the payload bytes: writing a new header makes twelve payload bytes arbitrary, later changes to a header do not show in the bytes.
- Kernel lists and IPC wait lists are sequences by list head; that the intrusive list implements them is shown in RtList, not linked object by object. IPC objects keep their own wait lists rather than the kernel's.
- Kernel.KernelState.TickIncrease: rt_timer_check is left out; an expiring timer is a separate timeout step.
- RoundRobin.TurnComes: blocking of the running thread during the wait is left out; it would only bring the turn forward.
- ReadyMap.FfsFindsLowest: the 256-entry table is given by its first column and the fifteen entries that all its rows share.
- Mutex.EveryRun: one mutex per thread and no priority changes from outside, as inheritance presumes.
- Event flags are sets of bit positions instead of a 32-bit word.
- Deletion and detaching of IPC objects and pools, rt_mp_create, rt_calloc, and the hooks, names and debug output of all files.
- The wait loops of mailbox, message queue and pool recompute their remaining timeout from the tick; here a woken thread may simply give up or look again.
- SMP and signal branches, context switching, stacks, timers, console output and drivers.
