# A verified model of the RT-Thread kernel core of the ART-Pi robot

The robot firmware is small; what it rests on is the RT-Thread kernel vendored with it. This project
models the kernel's allocators, inter-thread communication and scheduler in Dafny, together with the
bounded formatter, the timer scaling of the PWM driver and the colour-blob search of the robot code,
and proves what each of them keeps over every run.

`dafny verify dfyconfig.toml` checks everything.

## How it is built

Code that edits memory in place is a class whose methods make the same pointer edits in the same order; a
header field, such as `next` of all blocks, is one map from addresses. Each class has an abstract value (a
heap, a protocol state, a sequence of runs), its methods are proved to do exactly what a function does to that
value, and the laws are lemmas about those functions and about all sequences of their steps. The modules named
Exact, and FormatLaws and MailboxLaws, say what each operation does by the state before it, without the
functions that specify it. A header that a merge swallows is taken out of the maps, so code that still read it
would not verify.

| modules | source |
|---|---|
| Rings, Chains, Tiling, Threads, Words, Bits, Arithmetic, Payloads, Options | shared vocabulary: linked rings and chains as raw memory, blocks that tile a range, counting threads, bit sets, find-first-set, which payload bytes stay |
| MemHeapSpec, MemHeapOps, MemHeapLaws, MemHeapExact, MemHeap, SystemHeap | `memheap.c`, the allocator this build uses |
| SmallMemBlocks, SmallMemOps, SmallMemLaws, SmallMemExact, SmallMem | `mem.c`, the lowest-free heap |
| PageRuns, PageAllocator, SlabClasses, SlabZones, SlabOps, SlabLaws, SlabExact, Slab, SlabAlignment | `slab.c`, page runs and the zones above them |
| MemPoolProtocol, MemPoolLaws, MemPool | `mempool.c` |
| IpcLists, Mutex, EventTurns, EventProtocol, Event, Mailbox, MailboxLaws, MessageQueueProtocol, MessageQueueLaws, MessageQueueExact, MessageQueue | `ipc.c` |
| KernelLists, ReadyBitmap, Schedule, ScheduleLaws, ScheduleExact, Scheduler, Inheritance | `rtservice.h`, `scheduler.c`, the parts of `thread.c` and `clock.c` that move threads |
| NumberText, Formatter, FormatLaws | `rt_vsnprintf` of `kservice.c` |
| PwmScaling | `drv_pwm.c` |
| BlobSearch | `color.c` |

A section with interrupts disabled is one step of a protocol, and any thread may take the next step.
A thread that the timer takes off a wait list is a step of its own.

## What the code does not do, and exactly when

- `mem.c` looks only at offsets below `mem_size_aligned - size`, so `rt_malloc` can return null although a
  free block has room: exactly when the only such block ends at `heap_end` and the request fits it
  to the last byte (`SmallMemLaws.NullDespiteRoom`). A fresh heap refuses all the bytes it has.
- `rt_realloc` of `mem.c` moves a block that is to become smaller by 24 bytes or less, and so can answer null for a
  smaller size (`SmallMemExact.ReallocExact`).
- A precision argument below 0 counts as 0, which suppresses the digits, where C takes it as left out
  (`FormatLaws.ReadsBack`).
- `rt_thread_yield` only calls `rt_schedule`; among threads of one priority it gives way exactly when the
  YIELD bit was set before (`ScheduleLaws.YieldNeedsTheBit`), which only the clock tick does. Two threads that were
  just started reach a state where a yield changes nothing (`ScheduleLaws.YieldKeepsRunning`).
- The comment in `slab.c` promises power-of-two alignment for power-of-two sizes. It holds in every heap up to the
  page size. Beyond it, the pointer is aligned exactly when the page that serves the request is a multiple of the
  request in pages: the page of the zone for a chunk, the lowest place with enough free pages for a run
  (`SlabAlignment.MallocPower`). For every such size there is a heap whose first request of it is misaligned
  (`SlabAlignment.MisalignedAtBoot`), and likewise for chunks (`SlabAlignment.MisalignedChunk`).
- With precision 0 the digits are suppressed but still counted in the width (`NumberText.TextLength`): a text reads
  back as its value exactly when the precision is not 0 or the value is 0 (`NumberText.TextReadsBack`), and 5 with width 3
  leaves two blanks (`NumberText.SilentFive`).
- A waiter that times out leaves its boost behind: the owner runs at the most urgent of its own priority and of all that
  began to wait since it took the mutex (`Mutex.RunsKeep`), which differs from the most urgent of its own and the
  present waiters exactly when one that gave up was more urgent than all of these (`Mutex.BoostCurrent`,
  `Mutex.BoostStays`).
- A YIELD bit can be left over in a round of equal threads (`ScheduleLaws.LeftoverBit`); the turns are the same, and a
  full round restores everything but such bits (`ScheduleLaws.FullRound`).
- `%o` prints hexadecimal digits: it is right exactly for values below 8, and with precision 0, which shows no
  digits, when the padding agrees (`NumberText.OctalExact`); 8 comes out as 8 (`NumberText.OctalEight`).
- `drv_pwm_get` multiplies in 32 bits. After `drv_pwm_set` the period read back is right (never longer, at most one
  prescaler step and 1 ns shorter) exactly when its scaled ticks times 1000 fit 32 bits, which the request decides;
  `period * clock` below 2^32 is enough (`PwmScaling.Timer.SetThenGet`). A 20 ms servo period at 240 MHz comes back as
  about 2.1 ms (`PwmScaling.Timer.ServoPeriod`).

## Assumptions

Counters do not wrap (the 8-bit hold of a mutex, the 16-bit lock nest, sizes near the top of the address
range). Callers release only what they were given, and a thread does nothing while it is suspended. `mem.c` gets at
least 12 bytes, as a smaller heap makes its unsigned scan limit wrap; a memory pool has room for one
block, as `rt_mp_init` otherwise writes in front of it; a memory heap has room for two headers;
`SearchCenter` gets steps that are not zero. Threads that wait for a mutex keep their priority, each thread holds one
mutex, and mutexes are created with RT_IPC_FLAG_PRIO. The target is the 32-bit one, with header sizes
as its compiler lays them out.

## Model

| member | source | states |
|---|---|---|
| MemHeap.MemHeap.constructor | art_pi_gc0328c/rt-thread/src/memheap.c:50-110 | after initialisation one free block lies between the first header and the used tail block |
| MemHeap.MemHeap.Search | art_pi_gc0328c/rt-thread/src/memheap.c:169-180 | the walk over the free ring stops at the first free block that is large enough, or at the list head when there is none |
| MemHeap.MemHeap.Carve | art_pi_gc0328c/rt-thread/src/memheap.c:182-270 | the block leaves the free ring, is split when the rest can hold a header and a minimal payload, and the counters follow; no live payload byte changes |
| MemHeap.MemHeap.Alloc | art_pi_gc0328c/rt-thread/src/memheap.c:138-281 | the in-place code does to blocks, ring, free list and counters exactly what the abstract request does, and touches no live payload |
| MemHeap.MemHeap.Free | art_pi_gc0328c/rt-thread/src/memheap.c:495-595 | releasing with merges to the left and to the right is the abstract release; every other live payload keeps its bytes |
| MemHeap.MemHeap.GrowInPlace | art_pi_gc0328c/rt-thread/src/memheap.c:331-402 | a block that grows into the free block behind it keeps its place and its bytes, and the rest is free again |
| MemHeap.MemHeap.ShrinkTo | art_pi_gc0328c/rt-thread/src/memheap.c:432-491 | a block that shrinks keeps its first bytes; the rest joins a free neighbour |
| MemHeap.MemHeap.Move | art_pi_gc0328c/rt-thread/src/memheap.c:405-417 | when the block cannot grow, a new block has the old bytes before the old block is released; on failure nothing changes |
| MemHeap.MemHeap.Realloc | art_pi_gc0328c/rt-thread/src/memheap.c:284-492 | the first min(old, new) payload bytes are found at the returned pointer and no other live payload changes; null for a block exactly when it is too small, cannot grow into the block behind it and nothing else fits, and then nothing changes; the pointer stays exactly when the block is large enough or can grow |
| MemHeapOps.AllocKeeps | art_pi_gc0328c/rt-thread/src/memheap.c:138-281 | a request keeps the heap well formed: tiling ring, no two free neighbours, free list and counters exact |
| MemHeapOps.FreeKeeps | art_pi_gc0328c/rt-thread/src/memheap.c:495-595 | a release keeps the heap well formed in all four neighbour cases |
| MemHeapOps.GrowKeeps | art_pi_gc0328c/rt-thread/src/memheap.c:331-402 | growing in place keeps the heap well formed |
| MemHeapOps.ShrinkKeeps | art_pi_gc0328c/rt-thread/src/memheap.c:432-491 | shrinking keeps the heap well formed |
| MemHeapOps.AllocLives | art_pi_gc0328c/rt-thread/src/memheap.c:138-281 | a successful request adds one live block of at least the rounded size; all others keep place and size |
| MemHeapOps.FreeLives | art_pi_gc0328c/rt-thread/src/memheap.c:495-595 | a release removes exactly the given block from the live ones |
| MemHeapOps.GrowLives | art_pi_gc0328c/rt-thread/src/memheap.c:331-402 | only the resized block changes its end |
| MemHeapOps.ShrinkLives | art_pi_gc0328c/rt-thread/src/memheap.c:432-491 | only the resized block changes its end |
| MemHeapOps.ReallocMoves | art_pi_gc0328c/rt-thread/src/memheap.c:284-492 | a successful reallocation replaces one live block by one of at least the new size, and a failed one changes nothing |
| MemHeapLaws.FreshWellFormed | art_pi_gc0328c/rt-thread/src/memheap.c:50-110 | the initial heap is well formed with nothing live |
| MemHeapLaws.RunsKeep | art_pi_gc0328c/rt-thread/src/memheap.c:138-595 | every sequence of requests, releases and reallocations leaves a well-formed heap; available_size is the sum of the free payloads and max_used_size never below pool_size minus available_size |
| MemHeapLaws.AllocComplete | art_pi_gc0328c/rt-thread/src/memheap.c:138-281 | a request fails exactly when it is not below available_size or every free payload is smaller |
| MemHeapLaws.FreeUndoesAlloc | art_pi_gc0328c/rt-thread/src/memheap.c:138-281 | a release right after a successful request gives back block layout and available_size |
| MemHeapLaws.NothingLive | art_pi_gc0328c/rt-thread/src/memheap.c:495-595 | with nothing live the heap is one free block of the pool without two headers |
| MemHeapLaws.FreeingEverything | art_pi_gc0328c/rt-thread/src/memheap.c:495-595 | releasing all live blocks in any order ends in that one free block |
| MemHeapLaws.LivePayloads | art_pi_gc0328c/rt-thread/src/memheap.c:138-281 | live payloads lie inside the pool and are disjoint |
| MemHeapExact.LivesDecide | art_pi_gc0328c/rt-thread/src/memheap.c:138-595 | two well-formed heaps with the same live blocks agree in all blocks, links and counts |
| MemHeapExact.RoundedLeast | art_pi_gc0328c/rt-thread/src/memheap.c:148-150 | requests are rounded up to the next multiple of 4, and to 12 at least |
| MemHeapExact.AllocExact | art_pi_gc0328c/rt-thread/src/memheap.c:138-281 | which block is taken, where it ends, what goes to the free list, and both counters, by the fields before the call |
| MemHeapExact.FreeExact | art_pi_gc0328c/rt-thread/src/memheap.c:495-595 | available_size grows by the payload and one header for each free neighbour |
| MemHeapExact.ReallocExact | art_pi_gc0328c/rt-thread/src/memheap.c:284-492 | by the fields before the call: null, staying, growing, shrinking and moving each under its exact condition, with live blocks and counters after it |
| MemHeapExact.ReallocMovesAway | art_pi_gc0328c/rt-thread/src/memheap.c:405-417 | a move is a request for the new size followed by the release of the old block |
| MemHeapExact.RunsAligned | art_pi_gc0328c/rt-thread/src/memheap.c:50-595 | in every run all blocks begin at multiples of 4 from the start of the pool |
| SystemHeap.Ask | art_pi_gc0328c/rt-thread/src/memheap.c:138-281 | one heap gives or refuses, and a refusal changes nothing |
| SystemHeap.Malloc | art_pi_gc0328c/rt-thread/src/memheap.c:610-647 | the default heap first, then the others in list order: the first heap that has room gives it and keeps all its live payload bytes, null exactly when no heap has room, and no other heap changes |
| SystemHeap.Resize | art_pi_gc0328c/rt-thread/src/memheap.c:672-697 | the block stays where it is exactly when it can keep or grow its place; otherwise its own heap or the first with room gives a new block with the first min(old, new) bytes, and the old one is released; no other live payload of any heap changes |
| SystemHeap.Realloc | art_pi_gc0328c/rt-thread/src/memheap.c:656-698 | a null pointer asks, size 0 releases, anything else resizes; null for a block and a size that is not 0 exactly when the block can neither stay nor grow and no heap has room, and then nothing has changed |
| SmallMem.SmallMem.constructor | art_pi_gc0328c/rt-thread/src/mem.c:204-258 | one free block up to heap_end, lfree at its start |
| SmallMem.SmallMem.AdvanceFree | art_pi_gc0328c/rt-thread/src/mem.c:380-388 | lfree walks to the next free block or heap_end, with only used blocks below |
| SmallMem.SmallMem.Take | art_pi_gc0328c/rt-thread/src/mem.c:312-370 | splitting or taking the whole block is the abstract allocation, used_mem included |
| SmallMem.SmallMem.Malloc | art_pi_gc0328c/rt-thread/src/mem.c:272-410 | null exactly when the request is empty, too large, or no block below the scan limit suits; otherwise the first block that suits, with lfree the lowest free block again; no live payload byte changes |
| SmallMem.SmallMem.PlugHoles | art_pi_gc0328c/rt-thread/src/mem.c:156-194 | merging forward and backward leaves no two free neighbours and lfree the lowest free block |
| SmallMem.SmallMem.Free | art_pi_gc0328c/rt-thread/src/mem.c:552-615 | rt_free is the abstract release and keeps lfree the lowest free block |
| SmallMem.SmallMem.Realloc | art_pi_gc0328c/rt-thread/src/mem.c:421-516 | same size, shrinking in place, moving, releasing and refusal, each exactly when the code takes that branch; the first min(old, new) payload bytes are found at the returned pointer, no other live payload changes, and a failure changes no byte |
| SmallMemOps.PlugKeeps | art_pi_gc0328c/rt-thread/src/mem.c:156-194 | plugging restores all block invariants and touches no live block |
| SmallMemOps.AllocKeeps | art_pi_gc0328c/rt-thread/src/mem.c:305-390 | an allocation keeps every block invariant and adds one live block of at least the size |
| SmallMemOps.FreeKeeps | art_pi_gc0328c/rt-thread/src/mem.c:552-615 | a release keeps every block invariant and removes one live block |
| SmallMemOps.ShrinkKeeps | art_pi_gc0328c/rt-thread/src/mem.c:471-504 | shrinking in place keeps every block invariant and shortens one live block |
| SmallMemOps.GrantedLives | art_pi_gc0328c/rt-thread/src/mem.c:272-410 | rt_malloc adds one live block or changes nothing |
| SmallMemOps.ReallocatedLives | art_pi_gc0328c/rt-thread/src/mem.c:421-516 | rt_realloc replaces one live block by one of at least the new size, releases it for size 0, or changes nothing |
| SmallMemOps.MergeLowest | art_pi_gc0328c/rt-thread/src/mem.c:160-193 | the two tests of lfree in plug_holes keep it the lowest free block |
| SmallMemLaws.RunsKeep | art_pi_gc0328c/rt-thread/src/mem.c:272-615 | over every run of calls: tiling, no two free neighbours, prev right for all blocks except heap_end, used_mem the total extent of used blocks |
| SmallMemLaws.FreeUndoesAlloc | art_pi_gc0328c/rt-thread/src/mem.c:552-615 | rt_free right after rt_malloc gives back everything that is ever read again |
| SmallMemLaws.NothingLive | art_pi_gc0328c/rt-thread/src/mem.c:552-615 | with everything freed one free block spans the heap and used_mem is 0 |
| SmallMemLaws.RefusedFit | art_pi_gc0328c/rt-thread/src/mem.c:305-313 | a free block with room is passed over exactly when the request fits it to the last byte and heap_end follows |
| SmallMemLaws.NullDespiteRoom | art_pi_gc0328c/rt-thread/src/mem.c:305-313 | for every call, when a free block has room: null is returned exactly when the only such block ends at heap_end and the request fits it to the last byte |
| SmallMemLaws.WholeHeapRefused | art_pi_gc0328c/rt-thread/src/mem.c:305-313 | a fresh heap refuses a request for exactly the bytes it has |
| SmallMemExact.LivesDecide | art_pi_gc0328c/rt-thread/src/mem.c:272-615 | two heaps with the same live blocks agree in all blocks and in used_mem |
| SmallMemExact.MallocExact | art_pi_gc0328c/rt-thread/src/mem.c:272-410 | null, the block taken, where it ends and used_mem, by the fields before the call |
| SmallMemExact.FreeExact | art_pi_gc0328c/rt-thread/src/mem.c:552-615 | one live block less, and used_mem less by its extent |
| SmallMemExact.ReallocExact | art_pi_gc0328c/rt-thread/src/mem.c:421-516 | by the sizes before the call: refused, released, unchanged, cut, or moved, even to become smaller; a move without room answers null and changes nothing |
| SmallMemExact.RunsAligned | art_pi_gc0328c/rt-thread/src/mem.c:204-615 | in every run all blocks begin at multiples of 4 |
| PageAllocator.PageAllocator.constructor | art_pi_gc0328c/rt-thread/src/slab.c:327-334 | one run with all pages |
| PageAllocator.PageAllocator.Alloc | art_pi_gc0328c/rt-thread/src/slab.c:236-270 | null exactly when no n contiguous free pages exist; otherwise the lowest such place, and exactly these pages leave the free set |
| PageAllocator.PageAllocator.Free | art_pi_gc0328c/rt-thread/src/slab.c:272-322 | exactly the given range joins the free set, and the list is again the maximal runs in order |
| PageRuns.Canonical | art_pi_gc0328c/rt-thread/src/slab.c:236-322 | a set of free pages has one sorted list of maximal runs |
| PageRuns.NoneFits | art_pi_gc0328c/rt-thread/src/slab.c:246-264 | when every run is too short no n contiguous free pages exist |
| PageRuns.FirstFitLowest | art_pi_gc0328c/rt-thread/src/slab.c:246-264 | the first run that is long enough holds the lowest place that fits |
| PageRuns.GrowRunPages | art_pi_gc0328c/rt-thread/src/slab.c:291-300 | growing a run, merging with the next where they meet, adds exactly the range |
| SlabClasses.LeastClass | art_pi_gc0328c/rt-thread/src/slab.c:401-459 | zoneindex picks the smallest chunk class that holds the request |
| SlabClasses.ClassesGrow | art_pi_gc0328c/rt-thread/src/slab.c:401-459 | the class sizes are strictly increasing |
| SlabClasses.PowerTest | art_pi_gc0328c/rt-thread/src/slab.c:635-638 | the bit test of the source recognises exactly the powers of two |
| SlabClasses.ZoneRoom | art_pi_gc0328c/rt-thread/src/slab.c:628-646 | every class below zone_limit has at least three chunks in a zone, and they fit it |
| SlabExact.Granularity | art_pi_gc0328c/rt-thread/src/slab.c:401-459 | the chunk is the request rounded up to a multiple of 8 below 128 bytes, and of an eighth of the power of two below it otherwise |
| SlabExact.LimitIs | art_pi_gc0328c/rt-thread/src/slab.c:379-381 | zone_limit is a quarter of the zone, 16 kB at most |
| SlabExact.BaseExact | art_pi_gc0328c/rt-thread/src/slab.c:628-638 | the first chunk lies at the first aligned place behind the header |
| SlabExact.NewZoneExact | art_pi_gc0328c/rt-thread/src/slab.c:628-646 | z_nmax is the most chunks that fit, and all but the first are free |
| SlabExact.OpenExact | art_pi_gc0328c/rt-thread/src/slab.c:625-652 | a new zone is first in its class, with its first chunk handed out |
| SlabExact.TakeExact | art_pi_gc0328c/rt-thread/src/slab.c:539-576 | the next chunk that was never used, and only without one the chunk that came back last; a zone that gave its last chunk leaves the list |
| SlabZones.Lookup | art_pi_gc0328c/rt-thread/src/slab.c:795-828 | the page map sends every pointer handed out back to its own zone or page run |
| SlabOps.TakeChunkKeeps | art_pi_gc0328c/rt-thread/src/slab.c:539-576 | taking a chunk from a zone keeps counters, lists and the partition of its chunks |
| SlabOps.OpenZoneKeeps | art_pi_gc0328c/rt-thread/src/slab.c:625-652 | making a zone for a class keeps all invariants, first chunk handed out |
| SlabOps.GiveBackKeeps | art_pi_gc0328c/rt-thread/src/slab.c:830-846 | a chunk coming back keeps all invariants and relists a full zone |
| SlabOps.AllFree | art_pi_gc0328c/rt-thread/src/slab.c:854-855 | in a zone with z_nfree equal to z_nmax no chunk is in use |
| SlabOps.RetireKeeps | art_pi_gc0328c/rt-thread/src/slab.c:854-866 | a zone without used chunks leaves its class without touching any pointer handed out |
| SlabOps.DropPagesKeeps | art_pi_gc0328c/rt-thread/src/slab.c:876-900 | a third whole free zone returns exactly its pages |
| SlabOps.TakeRunKeeps | art_pi_gc0328c/rt-thread/src/slab.c:493-521 | a page run taken from free pages belongs to nothing else |
| SlabOps.DropRunKeeps | art_pi_gc0328c/rt-thread/src/slab.c:796-820 | freeing a run gives up exactly its pages |
| Slab.SlabHeap.constructor | art_pi_gc0328c/rt-thread/src/slab.c:344-395 | zone size from the heap size in closed form, no zone and no spare yet, and the free pages are those behind memusage |
| Slab.SlabHeap.Malloc | art_pi_gc0328c/rt-thread/src/slab.c:478-666 | a new chunk of at least the size from the zone that serves its class, or a run of exactly the pages it needs at the lowest place; null exactly when the page allocator has no room for what is needed; all other chunks and runs stay |
| Slab.SlabHeap.FromZone | art_pi_gc0328c/rt-thread/src/slab.c:539-576 | the chunk comes from the first zone of the class: the next unused one, then the free list |
| Slab.SlabHeap.FindZone | art_pi_gc0328c/rt-thread/src/slab.c:590-623 | the first whole free zone if there is one, otherwise the lowest place where the pages of a zone fit; null exactly when there is neither, and then nothing changes |
| Slab.SlabHeap.FreeSmall | art_pi_gc0328c/rt-thread/src/slab.c:824-903 | the chunk is first on the free list of its zone; the zone leaves its class exactly when no chunk of it is used and the class has another zone, and then is kept whole or, as a third one, gives back its pages; all other chunks and runs stay |
| Slab.SlabHeap.ReleaseZone | art_pi_gc0328c/rt-thread/src/slab.c:870-900 | at most ZONE_RELEASE_THRESH whole zones are kept |
| Slab.SlabHeap.Free | art_pi_gc0328c/rt-thread/src/slab.c:771-903 | the page map decides between run and chunk and finds the right one; exactly the pages of a run are free again |
| SlabLaws.RunsKeep | art_pi_gc0328c/rt-thread/src/slab.c:478-903 | over every run: z_nfree = z_nmax - 1 - z_uindex + length of z_freechunk, chunks partitioned, zone_array exact, at most two whole zones, lookup right |
| SlabLaws.ChunksApart | art_pi_gc0328c/rt-thread/src/slab.c:539-652 | two chunks handed out never overlap |
| SlabLaws.RunsApart | art_pi_gc0328c/rt-thread/src/slab.c:493-652 | a chunk never overlaps a page run |
| SlabLaws.TwoRunsApart | art_pi_gc0328c/rt-thread/src/slab.c:493-521 | two page runs never overlap |
| SlabAlignment.PowerAligned | art_pi_gc0328c/rt-thread/src/slab.c:583-638 | a power-of-two chunk is aligned to its size up to the page size, and beyond that exactly when its zone is |
| SlabAlignment.ChunkAligned | art_pi_gc0328c/rt-thread/src/slab.c:583-638 | the chunk for a power-of-two request is aligned to the request exactly when that is at most a page or its zone begins at a multiple of it |
| SlabAlignment.MallocPower | art_pi_gc0328c/rt-thread/src/slab.c:478-666 | every power-of-two request, from zones and from page runs: aligned exactly when it is at most a page or the page that serves it, known before the call, is a multiple of the request in pages |
| SlabAlignment.MisalignedAtBoot | art_pi_gc0328c/rt-thread/src/slab.c:344-521 | for every power of two beyond the page size there is a heap whose first such request is misaligned |
| SlabAlignment.TwoPagesAtThree | art_pi_gc0328c/rt-thread/src/slab.c:493-521 | two pages asked of a fresh heap of 512 pages from page 2 on are given at page 3 |
| SlabAlignment.MisalignedChunk | art_pi_gc0328c/rt-thread/src/slab.c:583-638 | a reachable heap whose first chunk of 8192 bytes is misaligned |
| MemPool.MemPools.Init | art_pi_gc0328c/rt-thread/src/mempool.c:77-124 | all blocks of the pool threaded in address order, none waiting |
| MemPool.PayloadsApart | art_pi_gc0328c/rt-thread/src/mempool.c:77-124 | the payload of every block has block_size bytes, lies in the memory of the pool, is clear of all other blocks and their first words, and is aligned |
| MemPool.MemPools.AllocSection | art_pi_gc0328c/rt-thread/src/mempool.c:317-391 | one turn of the loop: a block of this pool not handed out before, a timeout, or suspension |
| MemPool.MemPools.Grant | art_pi_gc0328c/rt-thread/src/mempool.c:371-391 | the first free block leaves the threaded list and names its pool |
| MemPool.MemPools.Free | art_pi_gc0328c/rt-thread/src/mempool.c:399-449 | the block returns to the pool its header names and wakes the waiter in front |
| MemPoolProtocol.StepKeeps | art_pi_gc0328c/rt-thread/src/mempool.c:303-449 | every step keeps partition, owner words and the wake-up bound |
| MemPoolLaws.RunsKeep | art_pi_gc0328c/rt-thread/src/mempool.c:303-449 | over every interleaving: free and outstanding blocks add up to the pool, and while a thread waits block_free_count is at most the number of woken allocators |
| MemPoolLaws.GrantedBlock | art_pi_gc0328c/rt-thread/src/mempool.c:371-391 | a granted block was not handed out |
| MemPoolLaws.ReleaseUndoesAlloc | art_pi_gc0328c/rt-thread/src/mempool.c:399-449 | freeing the block just granted restores the pool |
| MemPoolLaws.NothingOut | art_pi_gc0328c/rt-thread/src/mempool.c:399-449 | with nothing out the free list holds all blocks of the pool |
| MemPoolLaws.AllocExact | art_pi_gc0328c/rt-thread/src/mempool.c:303-391 | the first free block, a failure, or the first place in the wait list, and nothing else changes |
| MemPoolLaws.ReleaseExact | art_pi_gc0328c/rt-thread/src/mempool.c:399-449 | the block is first on the free list of its own pool and the thread that is first in its wait list is resumed; no other pool is touched |
| MemPoolLaws.TimeoutExact | art_pi_gc0328c/rt-thread/src/mempool.c:317-391 | a timeout takes one thread off one list |
| IpcLists.ListSuspend | art_pi_gc0328c/rt-thread/src/ipc.c:80-123 | FIFO at the end, PRIO before the first less urgent thread |
| IpcLists.PlaceExact | art_pi_gc0328c/rt-thread/src/ipc.c:80-123 | there is one place: the end with FIFO, behind all that are as urgent or more with PRIO |
| IpcLists.SuspendSorted | art_pi_gc0328c/rt-thread/src/ipc.c:80-123 | a PRIO list stays sorted, first come first served among equals |
| Mutex.StepKeeps | art_pi_gc0328c/rt-thread/src/ipc.c:654-881 | value 1 iff no owner iff hold 0, waiters imply an owner, waiters sorted and first come first served, owner at least as urgent as every waiter |
| Mutex.RunsKeep | art_pi_gc0328c/rt-thread/src/ipc.c:654-881 | over every interleaving at most one thread holds takes it has not released, no waiter waits for a less urgent owner, who holds nothing runs at its own priority, and the owner runs exactly at the most urgent of its own priority and those of all that began to wait since it acquired the mutex |
| Mutex.OwnerUntilReleased | art_pi_gc0328c/rt-thread/src/ipc.c:681-881 | counted in steps alone: from its grant on a thread is the owner until it has made one release more than it has taken the mutex again, and no longer |
| Mutex.TwoTakesOneRelease | art_pi_gc0328c/rt-thread/src/ipc.c:681-831 | after two takes and one release the thread still owns the mutex |
| Mutex.BoostCurrent | art_pi_gc0328c/rt-thread/src/ipc.c:722-766 | the owner runs at the most urgent of its own and the present waiters exactly when nobody that waited since was more urgent than all of these |
| Mutex.BoostStays | art_pi_gc0328c/rt-thread/src/ipc.c:722-766 | after a take, a second take and its timeout the owner still runs at the priority of the thread that gave up |
| Mutex.FinalRelease | art_pi_gc0328c/rt-thread/src/ipc.c:790-881 | the final release restores the priority held at acquisition and hands over to the first of the most urgent waiters |
| Mutex.Mutex.TakeSection | art_pi_gc0328c/rt-thread/src/ipc.c:681-771 | recursion adds one to hold and changes nothing else; grant, refusal, or suspension with inheritance, each with all fields |
| Mutex.Mutex.ReleaseSection | art_pi_gc0328c/rt-thread/src/ipc.c:808-880 | only the owner releases; an inner release takes one from hold and changes nothing else; hand-over to the first waiter or freeing, each with all fields |
| EventTurns.WalkShrinks | art_pi_gc0328c/rt-thread/src/ipc.c:1058-1100 | during one send the event bits only shrink |
| EventTurns.WokenAtTurn | art_pi_gc0328c/rt-thread/src/ipc.c:1058-1100 | a waiter is woken exactly when its condition held at its turn, and reports what it found then |
| EventTurns.SatisfiedBits | art_pi_gc0328c/rt-thread/src/ipc.c:1064-1082 | the condition in bits: with option bit 0 all bits of the mask, with bit 1 alone one of them |
| EventTurns.WokenBits | art_pi_gc0328c/rt-thread/src/ipc.c:1058-1100 | in bits: a waiter is woken exactly when all, or one, of its bits were set at its turn, and reports those |
| EventTurns.BitsAtTurns | art_pi_gc0328c/rt-thread/src/ipc.c:1058-1100 | in bits: each woken waiter with option bit 2 takes what it reports from those behind it |
| EventTurns.KeptInOrder | art_pi_gc0328c/rt-thread/src/ipc.c:1058-1100 | those who stay keep their order |
| EventTurns.ReportExact | art_pi_gc0328c/rt-thread/src/ipc.c:1064-1082 | a woken receiver reports exactly the requested bits set at its turn, at least one; all of them for AND |
| EventTurns.KeptUnsatisfied | art_pi_gc0328c/rt-thread/src/ipc.c:1058-1100 | after the walk nobody who stayed has a satisfied condition |
| EventTurns.ClearedOnce | art_pi_gc0328c/rt-thread/src/ipc.c:1088-1092 | a bit reported by a CLEAR receiver reaches no receiver behind it |
| EventTurns.BitsConserved | art_pi_gc0328c/rt-thread/src/ipc.c:1058-1100 | bits left and bits taken are disjoint and together the bits before |
| EventProtocol.StepKeeps | art_pi_gc0328c/rt-thread/src/ipc.c:1029-1280 | every section keeps the invariant |
| EventProtocol.NobodyWaitsInVain | art_pi_gc0328c/rt-thread/src/ipc.c:1029-1242 | in every reachable state a suspended thread with option bit 0 lacks one of its bits, and one without it has none of them |
| EventProtocol.ReportStays | art_pi_gc0328c/rt-thread/src/ipc.c:1222-1241 | between wake-up and return nothing changes what a thread reports |
| Event.Event.SendSection | art_pi_gc0328c/rt-thread/src/ipc.c:1046-1104 | what each thread of the list becomes by the bits it met, the bits left, and nobody else touched |
| Event.Event.RecvSection | art_pi_gc0328c/rt-thread/src/ipc.c:1143-1217 | received exactly when all, or one, of the bits are set, with the mask taken from the event under option bit 2; otherwise a timeout, or suspension at its place |
| Event.Event.ReturnSection | art_pi_gc0328c/rt-thread/src/ipc.c:1222-1241 | the return value is what the send reported |
| Event.Event.ResetSection | art_pi_gc0328c/rt-thread/src/ipc.c:1254-1280 | a reset wakes all with an error and clears the bits |
| Mailbox.StepKeeps | art_pi_gc0328c/rt-thread/src/ipc.c:1447-1719 | every section keeps ring buffer, lists and wake-up bounds |
| Mailbox.RunsKeep | art_pi_gc0328c/rt-thread/src/ipc.c:1447-1763 | over every interleaving: while a receiver sleeps there are at most as many mails as woken receivers, while a sender sleeps at most as many free places as woken senders |
| MailboxLaws.FirstInFirstOut | art_pi_gc0328c/rt-thread/src/ipc.c:1447-1763 | by the sends and receives of a run alone: the mailbox holds the values sent since the last reset, in order, without those received |
| MailboxLaws.FirstIsWoken | art_pi_gc0328c/rt-thread/src/ipc.c:1530-1700 | a send wakes the first receiver and a receive the first sender, and nobody else is touched |
| MailboxLaws.WaitsOnly | art_pi_gc0328c/rt-thread/src/ipc.c:1469-1660 | a thread that waits stands at its place in one list |
| MailboxLaws.LeavesOnly | art_pi_gc0328c/rt-thread/src/ipc.c:1469-1700 | a timeout takes one thread off one list |
| MailboxLaws.ResetOnly | art_pi_gc0328c/rt-thread/src/ipc.c:1735-1763 | a reset sends home exactly those who wait |
| Mailbox.Mailbox.SendSection | art_pi_gc0328c/rt-thread/src/ipc.c:1447-1565 | one pass of the sender on the ring buffer |
| Mailbox.Mailbox.RecvSection | art_pi_gc0328c/rt-thread/src/ipc.c:1595-1719 | one pass of the receiver on the ring buffer |
| MessageQueueProtocol.StepKeeps | art_pi_gc0328c/rt-thread/src/ipc.c:1980-2447 | every section of every thread keeps the node partition, lists, contents and wake-up bounds |
| MessageQueueLaws.RunsKeep | art_pi_gc0328c/rt-thread/src/ipc.c:1980-2447 | over every interleaving the invariant holds |
| MessageQueueLaws.Monotone | art_pi_gc0328c/rt-thread/src/ipc.c:1980-2447 | no step loses a node, rewrites a sent message or takes back a delivery |
| MessageQueueLaws.ReceivedOnce | art_pi_gc0328c/rt-thread/src/ipc.c:2344-2366 | a linked message is delivered once, dropped by a reset, or still queued |
| MessageQueueLaws.ReceivedIsSent | art_pi_gc0328c/rt-thread/src/ipc.c:2344-2360 | a receiver copies exactly the bytes that were sent |
| MessageQueueLaws.NoLostWakeUp | art_pi_gc0328c/rt-thread/src/ipc.c:2021-2389 | while a receiver sleeps entry is at most the number of woken receivers, and while a sender sleeps the free nodes are at most the woken senders, so with something to do there is a woken thread |
| MessageQueueLaws.NoDeadlock | art_pi_gc0328c/rt-thread/src/ipc.c:2021-2389 | with nobody on the way, receivers and senders are not asleep together |
| MessageQueueLaws.FifoRuns | art_pi_gc0328c/rt-thread/src/ipc.c:2084-2388 | without urgent messages receipt is in the order of linking |
| MessageQueueExact.FillExact | art_pi_gc0328c/rt-thread/src/ipc.c:2092-2093 | the buffer is copied to the beginning of the node, and nothing else changes |
| MessageQueueExact.LinkExact | art_pi_gc0328c/rt-thread/src/ipc.c:2095-2230 | the message is what was filled in, at the end or, urgent, at the head of the queue, and the first receiver is resumed |
| MessageQueueExact.UrgentIsNext | art_pi_gc0328c/rt-thread/src/ipc.c:2199-2230 | an urgent message is the next one received |
| MessageQueueExact.TakeExact | art_pi_gc0328c/rt-thread/src/ipc.c:2344-2357 | the head of the queue is received |
| MessageQueueExact.SentAsGiven | art_pi_gc0328c/rt-thread/src/ipc.c:2091-2130 | the bytes given to a send are the message linked, whatever other threads do in between |
| MessageQueueExact.ReceivedAsGiven | art_pi_gc0328c/rt-thread/src/ipc.c:2095-2360 | who receives that message after any run copies these bytes |
| MessageQueueExact.GrabExact | art_pi_gc0328c/rt-thread/src/ipc.c:2084-2088 | the first free node is taken |
| MessageQueueExact.PutExact | art_pi_gc0328c/rt-thread/src/ipc.c:2362-2389 | the node is the first free one again, and the first sender is resumed |
| MessageQueueExact.WaitExact | art_pi_gc0328c/rt-thread/src/ipc.c:2021-2340 | waiting, giving up and timing out touch one thread and one list |
| MessageQueueExact.ResetExact | art_pi_gc0328c/rt-thread/src/ipc.c:2411-2447 | exactly those who wait go home, all queued nodes are free, and their messages are dropped |
| MessageQueue.MessageQueue.constructor | art_pi_gc0328c/rt-thread/src/ipc.c:1786-1840 | all nodes of the pool threaded onto the free list, a message and a link apart, the last one first |
| MessageQueue.NodesApart | art_pi_gc0328c/rt-thread/src/ipc.c:1809-1826 | the messages of all nodes have msg_size bytes, lie in the pool, are clear of each other and of all links, and are aligned |
| MessageQueue.MessageQueue.SendSection | art_pi_gc0328c/rt-thread/src/ipc.c:2007-2088 | the first section takes a free node, suspends, or fails |
| MessageQueue.MessageQueue.LinkSend | art_pi_gc0328c/rt-thread/src/ipc.c:2095-2130 | the second section appends the node and wakes a receiver |
| MessageQueue.MessageQueue.UrgentSection | art_pi_gc0328c/rt-thread/src/ipc.c:2159-2191 | an urgent send takes a free node or fails, and never suspends |
| MessageQueue.MessageQueue.LinkUrgent | art_pi_gc0328c/rt-thread/src/ipc.c:2199-2230 | an urgent node goes in front and wakes a receiver |
| MessageQueue.MessageQueue.CopyOut | art_pi_gc0328c/rt-thread/src/ipc.c:2359-2360 | the buffer gets the bytes that were sent, as many as fit it |
| MessageQueue.MessageQueue.RecvSection | art_pi_gc0328c/rt-thread/src/ipc.c:2267-2357 | the receiver unlinks the head, suspends, or fails |
| MessageQueue.MessageQueue.PutFree | art_pi_gc0328c/rt-thread/src/ipc.c:2362-2389 | the node returns to the free list and wakes a sender |
| MessageQueue.MessageQueue.ResetSection | art_pi_gc0328c/rt-thread/src/ipc.c:2411-2447 | a reset wakes all and returns every queued node |
| KernelLists.InsertKeeps | art_pi_gc0328c/rt-thread/include/rtservice.h:58-77 | linking a node in changes one list at one place and leaves all other rings alone |
| KernelLists.RemoveKeeps | art_pi_gc0328c/rt-thread/include/rtservice.h:83-89 | unlinking a node changes one list and leaves all other rings alone |
| KernelLists.Lists.InsertBefore | art_pi_gc0328c/rt-thread/include/rtservice.h:71-78 | the four assignments insert the node before l |
| KernelLists.Lists.InsertAfter | art_pi_gc0328c/rt-thread/include/rtservice.h:58-65 | the four assignments insert the node after l |
| KernelLists.Lists.Remove | art_pi_gc0328c/rt-thread/include/rtservice.h:84-90 | a node leaves its list and points to itself; a node on no list changes nothing |
| KernelLists.Lists.Len | art_pi_gc0328c/rt-thread/include/rtservice.h:105-116 | the length of the list |
| KernelLists.Lists.IsEmpty | art_pi_gc0328c/rt-thread/include/rtservice.h:96-99 | true exactly for the empty list |
| Bits.FfsLowest | art_pi_gc0328c/rt-thread/src/kservice.c:1316-1330 | __rt_ffs finds the lowest bit set, and 0 exactly for the word without bits |
| Bits.LowestByte | art_pi_gc0328c/rt-thread/src/kservice.c:1286-1304 | the table holds the lowest bit of every byte |
| ReadyBitmap.ReadyBitmap.Mark | art_pi_gc0328c/rt-thread/src/scheduler.c:733-737 | exactly the bit of the level is set, in the one-word and the two-level map |
| ReadyBitmap.ReadyBitmap.Unmark | art_pi_gc0328c/rt-thread/src/scheduler.c:818-830 | exactly the bit of the level is cleared, the group bit with the last of its byte |
| ReadyBitmap.ReadyBitmap.Highest | art_pi_gc0328c/rt-thread/src/scheduler.c:162-176 | the least level whose bit is set |
| Schedule.StepKeeps | art_pi_gc0328c/rt-thread/src/scheduler.c:418-965 | a thread is queued exactly when ready, at its priority; only the current thread runs, and it is on no queue |
| ScheduleLaws.RunsKeep | art_pi_gc0328c/rt-thread/src/scheduler.c:418-965 | the same over every run |
| ScheduleLaws.NoSwitchWhileLocked | art_pi_gc0328c/rt-thread/src/scheduler.c:427-432 | while the lock nest is positive the processor stays with the same thread |
| ScheduleLaws.MostUrgentRuns | art_pi_gc0328c/rt-thread/src/scheduler.c:418-538 | after an unlocked rt_schedule with something ready the current thread runs and none ready is more urgent |
| ScheduleLaws.PreemptedWhen | art_pi_gc0328c/rt-thread/src/scheduler.c:439-454 | a running thread loses the processor exactly when a more urgent thread is ready, or an equal one and its YIELD bit is set |
| ScheduleExact.RescheduleExact | art_pi_gc0328c/rt-thread/src/scheduler.c:418-538 | rt_schedule entirely, by the state before it: nothing, or the first thread of the most urgent level takes over |
| ScheduleExact.LastExit | art_pi_gc0328c/rt-thread/src/scheduler.c:940-965 | rt_exit_critical of the last lock: with something ready the current thread runs and none ready is more urgent, and the hand-over is exact |
| ScheduleExact.InnerExit | art_pi_gc0328c/rt-thread/src/scheduler.c:940-965 | from a deeper lock only the counter changes |
| ScheduleExact.EnterExact | art_pi_gc0328c/rt-thread/src/scheduler.c:878-893 | one lock more and nothing else |
| ScheduleExact.StartExact | art_pi_gc0328c/rt-thread/src/scheduler.c:246-268 | the head of the least level that is not empty runs, and nothing else changes |
| ScheduleExact.YieldExact | art_pi_gc0328c/rt-thread/src/clock.c:72-96 | the YIELD bit of the current thread, and then what rt_schedule does |
| ScheduleExact.SuspendExact | art_pi_gc0328c/rt-thread/src/thread.c:721-763 | a ready or running thread is suspended and on no queue, others are left as they are |
| ScheduleExact.ResumeExact | art_pi_gc0328c/rt-thread/src/thread.c:770-806 | a suspended thread is the last of its level, others are left as they are |
| ScheduleExact.StartupExact | art_pi_gc0328c/rt-thread/src/thread.c:289-325 | an initialised thread is the last of the level of its initial priority |
| ScheduleExact.PriorityExact | art_pi_gc0328c/rt-thread/src/thread.c:636-677 | a ready thread is the last of its new level, any other keeps its place |
| ScheduleExact.QuitExact | art_pi_gc0328c/rt-thread/src/thread.c:80-95 | the running thread is closed, and nothing else changes |
| ScheduleLaws.YieldNeedsTheBit | art_pi_gc0328c/rt-thread/src/thread.c:479-484 | rt_thread_yield gives way among equals exactly when the YIELD bit was set before |
| ScheduleLaws.YieldKeepsRunning | art_pi_gc0328c/rt-thread/src/thread.c:479-484 | a reachable state with an equal thread ready in which a yield changes nothing |
| Inheritance.StepKeeps | art_pi_gc0328c/rt-thread/src/ipc.c:654-881 | scheduler and mutex together: both sides agree on all priorities, and who waits for the mutex is suspended, through every step of either |
| Inheritance.NoInversion | art_pi_gc0328c/rt-thread/src/ipc.c:654-881 | after an unlocked rt_schedule, while the owner is ready or running and a thread waits for it, nothing less urgent than the waiter runs |
| Inheritance.NoInversionInRuns | art_pi_gc0328c/rt-thread/src/scheduler.c:418-538 | the same in every state reached by any mix of scheduler steps, takes, releases and timeouts |
| ScheduleLaws.DisplacedToTail | art_pi_gc0328c/rt-thread/src/scheduler.c:449-471 | a displaced running thread is last of its level, its YIELD bit cleared |
| ScheduleLaws.RoundRobinTurns | art_pi_gc0328c/rt-thread/src/scheduler.c:439-471 | n + 1 equal threads take turns, whatever YIELD bits are left over: after k yields thread k runs, the others are queued behind it in order, and only the bits of the k displaced threads are cleared |
| ScheduleLaws.FullRound | art_pi_gc0328c/rt-thread/src/scheduler.c:439-471 | after n + 1 yields queues, current thread and stat are as before and no YIELD bit of the round is set; the whole state is the same exactly when none was |
| ScheduleLaws.LeftoverBit | art_pi_gc0328c/rt-thread/src/scheduler.c:441-444 | a reachable round with a YIELD bit left over: two yields clear it |
| Scheduler.Scheduler.constructor | art_pi_gc0328c/rt-thread/src/scheduler.c:191-240 | empty queues and bitmap |
| Scheduler.Scheduler.InsertThread | art_pi_gc0328c/rt-thread/src/scheduler.c:708-742 | the thread joins the tail of its ring and its bit is set; lists and bitmap still agree |
| Scheduler.Scheduler.RemoveThread | art_pi_gc0328c/rt-thread/src/scheduler.c:805-835 | the thread leaves its ring, the bit goes with the last one |
| Scheduler.Scheduler.HighestPriorityThread | art_pi_gc0328c/rt-thread/src/scheduler.c:162-184 | the head of the most urgent ring |
| Scheduler.Scheduler.RtSchedule | art_pi_gc0328c/rt-thread/src/scheduler.c:418-538 | rt_schedule on rings and bitmap is the abstract reschedule |
| Scheduler.Scheduler.IpcListSuspend | art_pi_gc0328c/rt-thread/src/ipc.c:80-123 | the search along the ring queues the thread where the flag says |
| Scheduler.Scheduler.SuspendThread | art_pi_gc0328c/rt-thread/src/thread.c:721-763 | a ready or running thread leaves the ready queues; others are refused |
| Scheduler.Scheduler.ResumeThread | art_pi_gc0328c/rt-thread/src/thread.c:770-806 | a suspended thread leaves whatever wait list it is on and becomes ready |
| Scheduler.Scheduler.TimeoutThread | art_pi_gc0328c/rt-thread/src/thread.c:813-836 | the timeout error is set; otherwise as a resume followed by rt_schedule |
| Scheduler.Scheduler.ThreadInit | art_pi_gc0328c/rt-thread/src/thread.c:115-209 | the thread is known at its initial priority, with a list node of its own, and is not scheduled |
| Scheduler.Scheduler.StartupThread | art_pi_gc0328c/rt-thread/src/thread.c:289-325 | an initialised thread becomes ready at its initial priority |
| Scheduler.Scheduler.ChangePriority | art_pi_gc0328c/rt-thread/src/thread.c:636-677 | a ready thread moves to the tail of its new level |
| Scheduler.Scheduler.SliceUp | art_pi_gc0328c/rt-thread/src/clock.c:72-96 | the YIELD bit is set before rescheduling |
| Scheduler.Scheduler.EnterCritical | art_pi_gc0328c/rt-thread/src/scheduler.c:878-893 | one lock more |
| Scheduler.Scheduler.ExitCritical | art_pi_gc0328c/rt-thread/src/scheduler.c:940-965 | one lock less, and a schedule when none is left, on rings and bitmap; what that does is ScheduleExact.LastExit |
| Scheduler.Scheduler.StartScheduler | art_pi_gc0328c/rt-thread/src/scheduler.c:246-268 | the most urgent ready thread runs, on rings and bitmap |
| Scheduler.Scheduler.ThreadExit | art_pi_gc0328c/rt-thread/src/thread.c:80-95 | the current thread is closed and on no queue |
| NumberText.TextLength | art_pi_gc0328c/rt-thread/src/kservice.c:606-775 | the field length is max(width, sign + max(precision, digits)); with precision 0 the suppressed digits are missing from it |
| NumberText.FiguresFit | art_pi_gc0328c/rt-thread/src/kservice.c:632-682 | a 32-bit value never overruns the 16 characters of tmp |
| NumberText.DigitsRead | art_pi_gc0328c/rt-thread/src/kservice.c:568-586 | the digits of divide parse back to the number |
| NumberText.FieldReads | art_pi_gc0328c/rt-thread/src/kservice.c:678-775 | with leading zeros the field still parses back to the 32-bit value |
| NumberText.TextReads | art_pi_gc0328c/rt-thread/src/kservice.c:606-775 | every layout is blanks, sign, zeros, digits, blanks |
| NumberText.TextReadsBack | art_pi_gc0328c/rt-thread/src/kservice.c:606-775 | read past blanks and sign the text gives the value exactly when the precision is not 0 or the value is 0 |
| NumberText.SilentFive | art_pi_gc0328c/rt-thread/src/kservice.c:757-765 | 5 with width 3 and precision 0 is two blanks |
| NumberText.OctalExact | art_pi_gc0328c/rt-thread/src/kservice.c:568-586 | base 8 prints the text of base 16, which is the octal one exactly for values below 8, or, with precision 0, when the width is no more than sign and hexadecimal digits or both have as many digits |
| NumberText.OctalEight | art_pi_gc0328c/rt-thread/src/kservice.c:568-586 | 8 is printed as 8 instead of 10 |
| Formatter.Sink.Put | art_pi_gc0328c/rt-thread/src/kservice.c:795-796 | a character past the end is counted and not stored |
| Formatter.Sink.PrintNumber | art_pi_gc0328c/rt-thread/src/kservice.c:606-775 | print_number appends exactly the number text |
| Formatter.Sink.PutConverted | art_pi_gc0328c/rt-thread/src/kservice.c:885-1024 | each conversion appends exactly its text, which FormatLaws tells by the argument |
| Formatter.ScanDirective | art_pi_gc0328c/rt-thread/src/kservice.c:803-882 | flags, width, precision and qualifier are read as the grammar says |
| Formatter.Vsnprintf | art_pi_gc0328c/rt-thread/src/kservice.c:777-1040 | the result counts the whole text whatever the size; the buffer holds its first min(n, size - 1) characters and NUL, and nothing behind size changes |
| FormatLaws.ReadsBack | art_pi_gc0328c/rt-thread/src/kservice.c:803-882 | a directive written out from flags, width, precision, qualifier and conversion, with stars for arguments, is read back as these |
| FormatLaws.GoesOn | art_pi_gc0328c/rt-thread/src/kservice.c:793-1026 | a directive is replaced by its text and the format goes on directly behind it with the next argument |
| FormatLaws.IntegerShown | art_pi_gc0328c/rt-thread/src/kservice.c:885-1021 | d, i and u print the figures of the argument in base 10, x, X and o in base 16, cut to 16 bits with h, behind its sign, in a field |
| FormatLaws.PointerShown | art_pi_gc0328c/rt-thread/src/kservice.c:945-960 | p prints the unsigned word in base 16, eight wide when no width is given |
| FormatLaws.StringShown | art_pi_gc0328c/rt-thread/src/kservice.c:913-943 | s shows the string cut to the precision, padded on the side the flag says; (NULL) for a null pointer |
| FormatLaws.CharacterShown | art_pi_gc0328c/rt-thread/src/kservice.c:890-911 | c shows the low byte, padded on the side the flag says |
| FormatLaws.PercentShown | art_pi_gc0328c/rt-thread/src/kservice.c:962-965 | %% is one percent sign |
| FormatLaws.OthersShown | art_pi_gc0328c/rt-thread/src/kservice.c:984-998 | an unknown conversion is written as it stands |
| FormatLaws.Plain255 | art_pi_gc0328c/rt-thread/src/kservice.c:968-982 | 255 is printed as 255 by d and as ff by x |
| PwmScaling.PrescalerFits | art_pi_gc0328c/libraries/drivers/drv_pwm.c:264-265 | the scaled period is below 65535, and a prescaler one smaller would not do |
| PwmScaling.PulseBelowPeriod | art_pi_gc0328c/libraries/drivers/drv_pwm.c:274-282 | the upper clamp never fires for a pulse within the period |
| PwmScaling.RoundTrip | art_pi_gc0328c/libraries/drivers/drv_pwm.c:225-225 | without the cut to 32 bits the period read back is never longer, and shorter by at most psc * 1000 / clock + 1 ns |
| PwmScaling.ReadBackExact | art_pi_gc0328c/libraries/drivers/drv_pwm.c:225-226 | reading back is exact precisely while the product fits 32 bits |
| PwmScaling.NearExact | art_pi_gc0328c/libraries/drivers/drv_pwm.c:225-226 | what is read is never longer and at most one prescaler step and 1 ns shorter exactly when the product fits 32 bits |
| PwmScaling.Timer.ServoPeriod | art_pi_gc0328c/libraries/drivers/drv_pwm.c:224-284 | a 20 ms period set and read at 240 MHz comes back as 2104036 ns, which is not near it |
| PwmScaling.Timer.Set | art_pi_gc0328c/libraries/drivers/drv_pwm.c:261-284 | a period below 65536, within one prescaler step of the request unless the minimum applies; the pulse between 2 and the period |
| PwmScaling.Timer.Get | art_pi_gc0328c/libraries/drivers/drv_pwm.c:224-226 | period and pulse in nanoseconds when the products fit 32 bits, and less than that when they do not |
| PwmScaling.Timer.SetThenGet | art_pi_gc0328c/libraries/drivers/drv_pwm.c:224-284 | from three ticks on the period read back is never longer and at most one prescaler step and 1 ns shorter exactly when its scaled ticks times 1000 fit 32 bits, which period * clock below 2^32 ensures; the pulse, from two ticks on, exactly when its own scaled ticks fit, which those of the period ensure; a shorter period reads as the minimum |
| BlobSearch.ProbeCell | art_pi_gc0328c/untils/color.c:370-392 | a cell is hit exactly when its cross probe has at most six mismatches |
| BlobSearch.HitIs | art_pi_gc0328c/untils/color.c:363-385 | the mismatches are those on its middle row and its middle column |
| BlobSearch.SearchCenter | art_pi_gc0328c/untils/color.c:345-403 | the centre of the row-major first cell that is hit, and none exactly when there is none |
| BlobSearch.ScanUp | art_pi_gc0328c/untils/color.c:480-492 | the exact place where the mismatch budget is exceeded, or the edge |
| BlobSearch.ScanDown | art_pi_gc0328c/untils/color.c:470-480 | the exact place where the mismatch budget is exceeded, or the edge |
| BlobSearch.StopUnique | art_pi_gc0328c/untils/color.c:470-492 | a scan has one stop only |
| BlobSearch.GrowY | art_pi_gc0328c/untils/color.c:500-532 | top and bottom are the extreme stops of all column scans; dis_x is the first column at which the height was reached |
| BlobSearch.GrowX | art_pi_gc0328c/untils/color.c:538-572 | left and right are the extreme stops of all row scans |
| BlobSearch.Corrode | art_pi_gc0328c/untils/color.c:461-572 | the box before trimming contains the seed, lies in the image, has the exact extreme edges, and dis_x is never read unset |

## Left out

- Slab.SlabHeap.Malloc: the link fields z_next and c_next are sequences, the statistics used_mem and max_mem and the moment with the heap semaphore released are not modelled.
- Slab.SlabHeap.Free: double release and foreign pointers are excluded, as the source asserts or ignores them.
- MemPoolProtocol.StepKeeps: the order in which waiters are served is last come first served, as in the source; fairness is not claimed.
- Event.Event.SendSection: wait lists are sequences here; that the rings behave so is shown in KernelLists and Scheduler.Scheduler.IpcListSuspend.
- Scheduler.Scheduler.RtSchedule: context switch, signals, hooks and stack checks are not modelled.
- Formatter.Vsnprintf: field widths beyond the int range and mismatched arguments, which C leaves undefined, read as plain numbers and defaults.
- PwmScaling.Timer.Set: register access, the choice of the bus clock and the clock division are not modelled.
- BlobSearch.Corrode: the trimming by three pixels and the shape heuristics that follow it.
- Semaphores: the counter handed straight to a waiter adds nothing to the mailbox and mutex protocols.
- rt_calloc and the aligned variants, which wrap the other calls.
- rt_realloc of slab.c: a composition of rt_malloc, a copy and rt_free.
- Nested mutexes, FIFO mutexes and the retry after a signal, where the inheritance claim does not hold.
- Deleting or detaching threads and IPC objects, and rt_mp_create, rt_mb_create, rt_mq_create, which only allocate.
- The locks of the allocators: each call is atomic.
- SMP branches, signals, timers as queues, objects and devices, and all hardware access.
- Colour conversion, the shape test and the floating-point gait code of the robot.
