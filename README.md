# A verified model of the `my_malloc` heap allocators

The repository holds three C rewrites of one user-space heap allocator. Each
block in the data segment starts with a header `{dataSize, allocated, prev,
next}` of `META_SIZE` bytes. Free blocks are kept on a doubly linked free
list. `ff_malloc` and `bf_malloc` pick a free block by first fit or best fit,
split it and hand out the part past its header; when nothing fits they grow
the data segment with `sbrk`. `ff_free` and `bf_free` put a block back on
the list in address order and merge it with byte-adjacent free neighbours.

The model has one module per concern:

- `Blocks` (blocks.dfy): the header, `META_SIZE`, the pointer arithmetic, and
  the two placement searches. The searches are loops over a `next` chain,
  proved against `FirstIndex` and `BestIndex`.
- `Extents` (extents.dfy): the free list seen as a sequence of (address,
  size) values. Release and split are specified as `Release` and `Carve` on
  that view, and the facts about address order, coalescing, bytes and
  totals are proved there.
- `FreeList`, `Steps`, `Carving` (freelist.dfy, steps.dfy, carve.dfy): how
  the pointer writes of the list routines, the coalesce routines, `deallocate`
  and `splitBlock` change the linked list and its view.
- `Invariant` (invariant.dfy): `Sound`, what the main allocator keeps true
  between calls. The list is linked, in address order, fully coalesced and
  holds only free headers. Handed-out blocks overlap neither the list nor
  each other. Everything lies between the heap start and the break. Every
  allocated header off the list has null links (`UnlinkedOff`).
- `Malloc` (malloc.dfy): `Project_1/my_malloc/my_malloc.c`. A class
  `Allocator` holds the header memory, `free_list.head`/`tail`, the two
  `heap_info` counters, the break and errno. Every public routine keeps
  `Valid()`, except a free of a header that a right merge absorbed (see
  "Findings").
- `ThreadMalloc` (thread_malloc.dfy): `project2/my_malloc.c`. Each routine
  is first a function from memory to the memory it leaves (or a fault on a
  null or unknown dereference). Then it is a method of class `Segment` that
  makes the same writes in place. Lemmas say what those effects are on a
  well-formed list.
- `Draft` (draft_malloc.dfy): the earlier draft
  `Project_1/my_malloc/src/my_malloc.c`, its well-formed routines only. Its
  `size_t` free-space counter wraps modulo 2^64.

Memory is a map from header address to header, and a null pointer is
`None`. `META_SIZE` is a symbolic constant greater than one. The free list
of the main allocator is also a ghost sequence `Free`, tied to the pointers
by `Linked`.

Where the code and the allocator's documented design disagree, the model follows
the code:

- `insertInFrontOf` inserts after `curr`, not before it.
- Its null-`curr` branch links nothing, so a block freed below the list head
  leaves the list as it was.
- `bf_malloc` hands out a reused block one byte past its header.
- The free-space counter counts a block absorbed by a right merge twice, so
  it is only an upper bound on the bytes actually on the list.
- The header a right merge absorbs stays marked allocated, so `ff_free`
  accepts it again.

## Model

| member | source | states |
|---|---|---|
| Blocks.DataPointer | Project_1/my_malloc/my_malloc.c:110 | the pointer handed out is one header past the block, and reading the header back one header below it gives the block again |
| Blocks.OneBytePastMisses | Project_1/my_malloc/my_malloc.c:271 | a pointer one byte past a header never leads the free routine back to that header: the header it reads starts `META_SIZE - 1` bytes too early |
| Blocks.FirstIndex | Project_1/my_malloc/my_malloc.c:147-155 | the first-fit position: every earlier entry fails the test, the one at it passes, and it is the end when none passes |
| Blocks.BestIndex | Project_1/my_malloc/my_malloc.c:157-174 | the best-fit position: the first exact match if there is one; otherwise a larger entry no bigger than any other larger one and earlier than every equal one; the end when nothing qualifies |
| Blocks.FindFirstFit | Project_1/my_malloc/my_malloc.c:147-155 | the `while` walk along `next` returns the entry at `FirstIndex`, or null |
| Blocks.FindBestFit | Project_1/my_malloc/my_malloc.c:157-174 | the `while` walk with early exit on an exact match returns the entry at `BestIndex`, or null |
| Extents.Merged | Project_1/my_malloc/my_malloc.c:196-208 | a merged block starts at the left block, ends where the right one ended, and holds both sizes plus one header |
| Extents.Remainder | Project_1/my_malloc/my_malloc.c:181-186 | the remainder header sits right after the kept bytes, ends where the block ended, and the old size is kept size + `META_SIZE` + remainder size |
| Extents.Taken | Project_1/my_malloc/my_malloc.c:176-195 | the block handed out starts at the free block and does not reach past its end |
| Extents.Slot | Project_1/my_malloc/my_malloc.c:133-136 | the deallocation scan stops at the first free block not below the released one; all before it are below |
| Extents.ReleasePlaced | Project_1/my_malloc/my_malloc.c:114-145 | releasing a block at or above the head keeps the list ordered and coalesced, adds exactly the block's bytes and adds its size plus one header to the total |
| Extents.ReleaseShape | Project_1/my_malloc/my_malloc.c:114-145 | in every branch, including the one below the head, a release keeps the list ordered and coalesced and adds no byte outside the block |
| Extents.ReleaseEmpty | Project_1/my_malloc/my_malloc.c:117-123 | releasing into an empty list gives a list of that one block |
| Extents.ReleaseAbove | Project_1/my_malloc/my_malloc.c:128-131 | a block above the tail is appended and merged left only, and absorbs nothing on its right |
| Extents.ReleaseInside | Project_1/my_malloc/my_malloc.c:132-142 | a block between head and tail is inserted at its slot, merged right then left, and grows by exactly what it absorbed |
| Extents.CarvePlaced | Project_1/my_malloc/my_malloc.c:176-195 | a split keeps the list ordered and coalesced; the list's bytes and the handed-out block partition the old bytes; the total drops by the handed-out size plus one header |
| Extents.RemainderBytes | Project_1/my_malloc/my_malloc.c:181-193 | replacing a block by its remainder removes exactly the kept bytes and drops the total by kept size plus one header |
| Extents.MergeBytes | Project_1/my_malloc/my_malloc.c:196-208 | merging two adjacent entries keeps every byte and the total |
| Extents.ReleaseOverlaps | Project_1/my_malloc/my_malloc.c:114-145 | releasing a block whose header lies strictly inside a free entry leaves the view out of address order |
| FreeList.AppendedLinked | Project_1/my_malloc/my_malloc.c:20-34 | appending keeps the list linked, with the block as the new tail (and head of an empty list) |
| FreeList.DetachedLinked | Project_1/my_malloc/my_malloc.c:36-60 | unlinking entry `k` keeps the rest linked and in order, changes only links, and drops exactly entry `k` from the view |
| FreeList.SplicedLinked | Project_1/my_malloc/my_malloc.c:74-86 | linking a block after entry `k - 1` keeps the list linked, changes only links, and inserts the block's extent at `k` in the view |
| FreeList.PrependedLinked | project2/my_malloc.c:40-44 | linking a block in front of the head keeps the list linked with the block as the new head, and puts its extent first in the view |
| FreeList.SplicedOff | Project_1/my_malloc/my_malloc.c:74-86 | linking a block in keeps every allocated header off the list unlinked |
| FreeList.RemovedOff | Project_1/my_malloc/my_malloc.c:36-60 | removing an entry leaves it allocated with null links, and every other allocated header off the list as it was |
| FreeList.AppendedOff | Project_1/my_malloc/my_malloc.c:20-34 | appending keeps every allocated header off the list unlinked |
| FreeList.KeptOff | Project_1/my_malloc/my_malloc.c:196-208 | marking a header free or resizing one keeps every allocated header off the list unlinked |
| FreeList.BlankOff | Project_1/my_malloc/my_malloc.c:10-15 | a fresh header from initBlockMeta keeps every allocated header off the list unlinked |
| Steps.MergedRightView | Project_1/my_malloc/my_malloc.c:202-208 | coalesceWithRight's effect on the list is `MergeRightAt` on the view, and every header off the list is kept |
| Steps.MergedLeftView | Project_1/my_malloc/my_malloc.c:196-201 | coalesceWithLeft's effect on the list is `MergeLeftAt` on the view, and every header off the list is kept |
| Steps.StaleRelease | Project_1/my_malloc/my_malloc.c:202-208 | a right merge leaves the absorbed header allocated, unlinked, off the list and strictly inside the merged block, and releasing it puts the view out of address order |
| Steps.AbsorbCleared | Project_1/my_malloc/my_malloc.c:202-208 | the merge with the absorbed header marked free merges the view the same way and leaves no allocated header off the list that was not one before |
| Steps.ReleasedEmpty | Project_1/my_malloc/my_malloc.c:117-123 | deallocate's empty-list branch meets `Released` |
| Steps.ReleasedBelow | Project_1/my_malloc/my_malloc.c:124-127 | deallocate's below-head branch leaves list and memory unchanged, as `Release` says for that case |
| Steps.ReleasedAbove | Project_1/my_malloc/my_malloc.c:128-131 | append then merge left meets `Released` |
| Steps.ReleasedBetween | Project_1/my_malloc/my_malloc.c:132-142 | insert after the predecessor, merge right, merge left meets `Released` |
| Carving.CarvedWhole | Project_1/my_malloc/my_malloc.c:177-180 | removing a block too small to split leaves the list as `Carve` says, with the block allocated, unlinked and at full size |
| Carving.CarvedCut | Project_1/my_malloc/my_malloc.c:181-193 | writing the remainder, shrinking the block, linking the remainder after it and removing the block leaves the list as `Carve` says |
| Carving.TrimmedOff | Project_1/my_malloc/my_malloc.c:181-187 | splitBlock's header writes keep every allocated header off the list unlinked |
| Invariant.LiveOff | Project_1/my_malloc/my_malloc.c:235-237 | a block handed out is not on the free list |
| Invariant.ReleaseSound | Project_1/my_malloc/my_malloc.c:114-145 | deallocate keeps the allocator sound, with the block no longer handed out |
| Invariant.Deallocated | Project_1/my_malloc/my_malloc.c:143-144 | after the final flag and counter writes the list is linked, all free and unlinked off it, the view is `Release` of the old one, the counter grew by the block, one header and what it absorbed, and soundness holds when the block was handed out |
| Invariant.CarveSound | Project_1/my_malloc/my_malloc.c:176-195 | splitBlock keeps the allocator sound, with the block now handed out |
| Invariant.GrowSound | Project_1/my_malloc/my_malloc.c:102-106 | bytes sbrk granted but discarded keep the allocator sound |
| Invariant.GrantSound | Project_1/my_malloc/my_malloc.c:107-110 | a fresh header at the old break keeps the allocator sound, with the block handed out |
| Malloc.Allocator.constructor | Project_1/my_malloc/my_malloc.c:3-4 | an empty list, zero counters and the break at the heap start form a sound allocator |
| Malloc.Allocator.InitBlockMeta | Project_1/my_malloc/my_malloc.c:10-15 | the header gets the size and flag and null links; nothing else changes |
| Malloc.Allocator.IsEmpty | Project_1/my_malloc/my_malloc.c:17-19 | on a linked list, true exactly when the list has no entry |
| Malloc.Allocator.AppendToFreeList | Project_1/my_malloc/my_malloc.c:20-34 | the block becomes the last entry, linked after the old tail, and is marked free |
| Malloc.Allocator.RemoveFromFreeList | Project_1/my_malloc/my_malloc.c:36-60 | an empty list is left alone; otherwise the block leaves the list, its neighbours are joined, its links cleared and it is marked allocated; allocated headers off the list keep null links |
| Malloc.Allocator.InsertInFrontOf | Project_1/my_malloc/my_malloc.c:62-87 | an empty list gets the block as its only entry; a null `curr` changes nothing; otherwise the block is linked right after `curr` |
| Malloc.Allocator.InsertAtHead | Project_1/my_malloc/my_malloc.c:68-73 | the null-`curr` branch as intended: the block becomes the new head in front of the old list |
| Malloc.Allocator.LinkAfter | Project_1/my_malloc/my_malloc.c:74-86 | the block is linked right after `curr`, becoming the tail when `curr` was the tail |
| Malloc.Allocator.SpliceWrites | Project_1/my_malloc/my_malloc.c:75-85 | the four pointer writes leave exactly the spliced memory |
| Malloc.Allocator.CoalesceWithLeft | Project_1/my_malloc/my_malloc.c:196-201 | merges into `prev` only when `prev` ends exactly where the block starts, removing the block; otherwise nothing changes |
| Malloc.Allocator.CoalesceWithRight | Project_1/my_malloc/my_malloc.c:202-208 | absorbs `next` only when it starts exactly where the block ends, removing it; otherwise nothing changes |
| Malloc.Allocator.CoalesceWithRightCorrected | Project_1/my_malloc/my_malloc.c:202-208 | with the absorbed header marked free: the same view as `MergeRightAt`, and no allocated header left off the list that was not one, unchanged, before |
| Malloc.Allocator.LinkByAddress | Project_1/my_malloc/my_malloc.c:117-142 | the four branches of deallocate together meet `Released` |
| Malloc.Allocator.LinkBelow | Project_1/my_malloc/my_malloc.c:124-127 | a block below the head is left off the list |
| Malloc.Allocator.LinkAbove | Project_1/my_malloc/my_malloc.c:128-131 | a block above the tail is appended and merged left |
| Malloc.Allocator.LinkBetween | Project_1/my_malloc/my_malloc.c:132-142 | the walk stops at the first free block above, and the block is linked after that block's predecessor and merged both ways |
| Malloc.Allocator.Deallocate | Project_1/my_malloc/my_malloc.c:114-145 | for any allocated header: the list stays linked and all free, its view becomes `Release` of the old one, and the counter grows by the block, one header and whatever the right merge absorbed; every header that was off the list, other than the freed one, is unchanged (so every other block handed out keeps its header); the allocator stays sound when the header was a block handed out |
| Malloc.Allocator.SplitBlock | Project_1/my_malloc/my_malloc.c:176-195 | the list becomes `Carve` of the old one, the block is allocated at its `Taken` size, and the counter drops by that size plus one header |
| Malloc.Allocator.TrimBlock | Project_1/my_malloc/my_malloc.c:182-187 | the header writes cut the block to `size` bytes and mark it allocated, with a free header for the rest right after; the list links still hold and the remainder is not yet on the list |
| Malloc.Allocator.CutBlock | Project_1/my_malloc/my_malloc.c:181-193 | the cutting branch leaves the list as `Carve` says |
| Malloc.Allocator.Sbrk | Project_1/my_malloc/my_malloc.c:102 | within the limit the break moves up by `n` and the old break is returned; past it the break stays and errno becomes ENOMEM |
| Malloc.Allocator.Allocate | Project_1/my_malloc/my_malloc.c:99-112 | succeeds exactly when sbrk grants `n + META_SIZE` bytes and errno is clear; then it writes an allocated header, counts the bytes and returns one header past it; memory is the old memory with that one header written, or unchanged on failure, and the list is unchanged |
| Malloc.Allocator.Grant | Project_1/my_malloc/my_malloc.c:107-110 | memory gains exactly the fresh header and nothing else changes; the block is handed out and counted, and the allocator stays sound |
| Malloc.Allocator.Reuse | Project_1/my_malloc/my_malloc.c:224 | taking list entry `k` hands its block out with a header of its `Taken` size, allocated and unlinked, leaves `Carve` of the view and lowers the counter by that size plus one header; every header off the list and outside the chosen block is unchanged |
| Malloc.Allocator.FindFirstFit | Project_1/my_malloc/my_malloc.c:147-155 | returns the first free entry of at least `size` bytes, or null |
| Malloc.Allocator.FindBestFit | Project_1/my_malloc/my_malloc.c:157-174 | returns the first free exact match, else the earliest smallest larger entry, free or not, or null |
| Malloc.Allocator.FfMalloc | Project_1/my_malloc/my_malloc.c:210-230 | size 0 gives null and no change; otherwise the first free fit is split and returned one header past (`Reused`: `Carve` view, its header, the counter drop, break and segment size unchanged, every header off the list and outside the block unchanged), or allocate runs when none fits (`Grown`: the break, memory with exactly the fresh header at the old break added, the segment count, the list and the free count unchanged) |
| Malloc.Allocator.BestFitBlock | Project_1/my_malloc/my_malloc.c:250-273 | the first free exact fit, else the earliest smallest free larger block, is split as `Reused` states; else allocate runs as `Grown` states |
| Malloc.Allocator.BfMalloc | Project_1/my_malloc/my_malloc.c:241-274 | as written: size 0 gives null; a reused block (`Reused`) is returned one byte past its header, a fresh one (`Grown`) one header past |
| Malloc.Allocator.BfMallocCorrected | Project_1/my_malloc/my_malloc.c:241-274 | with `+ META_SIZE`: every block is returned one header past its header, which the free routines read back; reuse and growth as `Reused` and `Grown` state |
| Malloc.Allocator.FfFree | Project_1/my_malloc/my_malloc.c:231-239 | null or a header already free changes nothing; an allocated header is deallocated: `Release` view, counter growth, the block no longer handed out, every other header off the list unchanged; the allocator stays sound unless the header was one a right merge absorbed |
| Malloc.Allocator.BfFree | Project_1/my_malloc/my_malloc.c:276-278 | behaves as ff_free, counter growth and the frame on other headers included |
| Malloc.Allocator.GetDataSegmentSize | Project_1/my_malloc/my_malloc.c:280-282 | the bytes sbrk granted, less those lost to a stale errno |
| Malloc.Allocator.GetDataSegmentFreeSpaceSize | Project_1/my_malloc/my_malloc.c:283-285 | never less than the bytes, headers included, on the free list |
| ThreadMalloc.AppendOnList | project2/my_malloc.c:21-34 | on a non-empty list the block is linked after the last one and marked free; the blocks then run from head to it |
| ThreadMalloc.RemoveOnList | project2/my_malloc.c:59-80 | the block is unlinked, its neighbours joined, its links cleared and it is marked allocated; the rest stays linked |
| ThreadMalloc.UnlinkOnList | project2/my_malloc.c:64-76 | the neighbour writes join the block's predecessor and successor |
| ThreadMalloc.InsertFrontOnList | project2/my_malloc.c:40-44 | with a null `curr` the block is linked in front of the first block |
| ThreadMalloc.InsertAfterTailOnList | project2/my_malloc.c:45-49 | with `curr` the last block, the block is linked after it |
| ThreadMalloc.InsertSelfLoop | project2/my_malloc.c:50-56 | with `curr` any other block, the block after `curr` is linked to itself both ways and the block to insert is untouched |
| ThreadMalloc.InsertKeeps | project2/my_malloc.c:36-57 | insertIntoFreeList writes only links |
| ThreadMalloc.UnlinkKeeps | project2/my_malloc.c:64-76 | the neighbour updates write only links |
| ThreadMalloc.RemoveKeeps | project2/my_malloc.c:59-80 | removeFromFreeList writes only links and the block's own flag, which it sets |
| ThreadMalloc.SplitShape | project2/my_malloc.c:96-109 | a block of at least `META_SIZE + ds` bytes becomes `ds` bytes and allocated, followed by a free remainder, the two tiling the old block; a smaller one keeps its size |
| ThreadMalloc.CoalesceLeftShape | project2/my_malloc.c:111-117 | merges only into a `prev` ending exactly at the block, which then ends where the block ended; otherwise no change |
| ThreadMalloc.CoalesceRightShape | project2/my_malloc.c:119-125 | absorbs only a `next` starting exactly at the block's end; otherwise no change |
| ThreadMalloc.CoalesceRightStep | project2/my_malloc.c:120-123 | the merging branch is the size write followed by removeFromFreeList of the right neighbour |
| ThreadMalloc.CoalesceRightMerged | project2/my_malloc.c:120-123 | in the merging branch the block grows by the neighbour's bytes and header |
| ThreadMalloc.FreeOnNullList | project2/my_malloc.c:127-134 | with the null head and tail every caller passes, freeing only clears the block's flag |
| ThreadMalloc.Segment.InitializeMemoryBlock | project2/my_malloc.c:14-19 | the header gets the size and flag and null links |
| ThreadMalloc.Segment.AppendToFreeList | project2/my_malloc.c:21-34 | the writes leave `AppendEffect` |
| ThreadMalloc.Segment.InsertIntoFreeList | project2/my_malloc.c:36-57 | the writes leave `InsertEffect` |
| ThreadMalloc.Segment.RemoveFromFreeList | project2/my_malloc.c:59-80 | the writes leave `RemoveEffect` |
| ThreadMalloc.Segment.AllocateMemory | project2/my_malloc.c:83-94 | succeeds exactly when the growth function succeeded and errno is clear; then an allocated header is written and the pointer one header past returned |
| ThreadMalloc.Segment.SplitMemoryBlock | project2/my_malloc.c:96-109 | the writes leave `SplitEffect` and the block is returned |
| ThreadMalloc.Segment.CutHeaders | project2/my_malloc.c:100-104 | the header writes leave `Cut`: a free header for the rest `dataSize` bytes past the block's data, the block shrunk and allocated; the rest's address is returned |
| ThreadMalloc.Segment.CoalesceWithLeft | project2/my_malloc.c:111-117 | the writes leave `CoalesceLeftEffect` |
| ThreadMalloc.Segment.CoalesceWithRight | project2/my_malloc.c:119-125 | the writes leave `CoalesceRightEffect` |
| ThreadMalloc.Segment.FreeMemoryBlock | project2/my_malloc.c:127-149 | the writes, including the walk to the first block at or above, leave `FreeEffect` |
| ThreadMalloc.Segment.FindFirstFit | project2/my_malloc.c:173-181 | returns the first block of at least `size` bytes, allocated or not, or null |
| ThreadMalloc.Segment.FindBestFit | project2/my_malloc.c:183-200 | returns the first exact match, else the earliest smallest larger block, allocated or not, or null |
| ThreadMalloc.Segment.FfMalloc | project2/my_malloc.c:151-161 | size 0 gives null and no change; a fit is split and returned one header past; else allocateMemory's outcome |
| ThreadMalloc.Segment.BfMalloc | project2/my_malloc.c:202-210 | size 0 gives null and no change; the best fit is split and returned one header past; else allocateMemory's outcome |
| ThreadMalloc.Segment.FfFree | project2/my_malloc.c:163-172 | null or a free header changes nothing; otherwise the writes leave `FreeEffect` |
| ThreadMalloc.Segment.BfFree | project2/my_malloc.c:223-225 | behaves as ff_free |
| Draft.Wrap | Project_1/my_malloc/src/my_malloc.h:18-21 | a `size_t` value is below 2^64, equal to a value already in range, and 2^64 more than a negative one |
| Draft.WrapSub | Project_1/my_malloc/src/my_malloc.c:162 | a `size_t` subtraction wraps the same as subtracting first and wrapping once |
| Draft.RemainderOverruns | Project_1/my_malloc/src/my_malloc.c:166-168 | the remainder header ends `META_SIZE` bytes past the block it was cut from |
| Draft.Allocator.constructor | Project_1/my_malloc/src/my_malloc.c:3-4 | empty list, zero counters, break at the heap start |
| Draft.Allocator.InitBlockMeta | Project_1/my_malloc/src/my_malloc.c:10-15 | the header gets the size and flag and null links |
| Draft.Allocator.IsEmpty | Project_1/my_malloc/src/my_malloc.c:17-19 | true exactly when head and tail are null; then the list has no entry |
| Draft.Allocator.FindFirstFit | Project_1/my_malloc/src/my_malloc.c:130-138 | returns the first block of at least `size` bytes, allocated or not, or null |
| Draft.Allocator.FindBestFit | Project_1/my_malloc/src/my_malloc.c:140-157 | returns the first exact match, else the earliest smallest larger block, or null |
| Draft.Allocator.Allocate | Project_1/my_malloc/src/my_malloc.c:88-100 | succeeds exactly when sbrk grants `n + META_SIZE` bytes and errno is clear; then writes an allocated header, counts the bytes and returns one header past |
| Draft.Allocator.SplitBlock | Project_1/my_malloc/src/my_malloc.c:159-178 | an exact fit is taken whole; otherwise a free remainder of `dataSize - size` bytes is written `size + META_SIZE` in and the block cut to `size` and allocated; the counter drops by `size + META_SIZE` modulo 2^64 |
| Draft.Allocator.CoalesceWithLeft | Project_1/my_malloc/src/my_malloc.c:179-184 | merges into `prev` only when it ends exactly at the block, which it then ends with; otherwise no change |
| Draft.Allocator.CoalesceWithRight | Project_1/my_malloc/src/my_malloc.c:185-191 | absorbs `next` only when it starts exactly at the block's end; otherwise no change |
| Draft.Allocator.FfMalloc | Project_1/my_malloc/src/my_malloc.c:193-200 | the first fit is returned one byte past its header; an exact fit leaves memory as it was, a larger one gets the remainder header (placed `size + META_SIZE` in, sized `dataSize - size`, free) and its own header resized and allocated; else the break grows by the block and a header, a fresh allocated header is written at the old break and the segment count grows, or nothing changes and null is returned; in that branch the free count does not change |
| Draft.Allocator.GetDataSegmentSize | Project_1/my_malloc/src/my_malloc.c:218-220 | the bytes sbrk granted, less those lost to a stale errno |
| Draft.Allocator.GetDataSegmentFreeSpaceSize | Project_1/my_malloc/src/my_malloc.c:221-223 | the counter only ever drops from zero, so it reads 2^64 less what splitBlock took |

## Left out

- Locking and threads: `ts_malloc_lock`, `ts_free_lock`, `sbrk_nolock`, `ts_malloc_nolock`, `ts_free_nolock` and the `__thread` lists (project2/my_malloc.c:5-6, 213-261) are not modelled; the model is sequential.
- Diagnostics: `displayBlockMeta`, `printFreeList` and the `stderr` messages are output only; the empty-list message of `removeFromFreeList` is a return with no change.
- `sbrk` and errno: in `Malloc` and `Draft`, `sbrk` is a bump of the break up to a fixed `limit`, and errno is a flag that only a failed `sbrk` sets. In `ThreadMalloc`, the growth function's result and errno are parameters (`grown`, `noMem`) of `AllocateMemory`, `FfMalloc` and `BfMalloc`.
- Byte layout: headers are map entries keyed by address. A header's `META_SIZE` bytes, and data written into a block, are not memory the model can overwrite. For `Malloc`, `Sound` proves that blocks never overlap. `ThreadMalloc` and `Draft` carry no such invariant.
- `size_t`: `Malloc` and `ThreadMalloc` use unbounded sizes and counters. In `Malloc`, the free-space counter provably never goes below zero. Wrap-around of sizes near 2^64 is not modelled. `bf_malloc`'s `SIZE_MAX` start value becomes "no candidate yet", so a free block of exactly `SIZE_MAX` bytes would be a candidate in the model but not in the code.
- Cyclic lists: the searches and the `freeMemoryBlock` walk take the chain from their start pointer as a ghost sequence. A list whose `next` links loop may make the C loop forever and is outside every precondition.
- Malloc.Allocator.FfFree: covers only pointers one header past an address where the allocator wrote a header. Any other pointer makes `ff_free` read bytes that were never a header, and the model has no such bytes.
- Malloc.Allocator.FfFree: after a free of a header that a right merge absorbed, `Valid()` is not promised; only the list facts (linked, all free, `Release` view, counter growth) are. `Steps.StaleRelease` shows that the view then falls out of address order.
- Malloc.Allocator.BfFree: the same two limits as Malloc.Allocator.FfFree, since it calls the same routine.
- Malloc.Allocator.GetDataSegmentFreeSpaceSize: states only that the counter is at least the free list's total. Right merges count the absorbed block twice, so the identity "segment size − free space = live bytes" does not hold and is not claimed.
- ThreadMalloc.Segment.FreeMemoryBlock: like every `Segment` method, it requires that the routine dereference no null or unknown pointer (its effect is `Done`). The faulting runs are defined by the effect functions but not performed in place.
- ThreadMalloc.Segment.FfMalloc: the list routines receive `head` and `tail` by value, and every caller in the file passes the never-updated null globals. Those calls therefore never reuse a block (`FreeOnNullList`); the model states each routine for any `head` and `tail`.
- `project2`'s `get_data_segment_*` are declared in the header but not defined in the source, and are not part of this model.
- Draft.Allocator.SplitBlock: the draft's `insertInFrontOf` calls an undefined `AddToFreeList`, and its `removeFromFreeList` assigns where it compares. So the list calls in `splitBlock` are not modelled, and head, tail and links stay as they were.
- Draft.Allocator.CoalesceWithLeft: the `removeFromFreeList` call is not modelled, for the same reason.
- Draft.Allocator.CoalesceWithRight: the `removeFromFreeList` call is not modelled, for the same reason.
- The draft's `appendToFreeList`, `removeFromFreeList`, `insertInFrontOf`, `deallocate`, `ff_free` stub and `bf_malloc` are not modelled: they do not build or do not do what their names say (src/my_malloc.c:20-76, 102-128, 201-214).
- Project_1/my_malloc/my_malloc.c's standalone `findFirstFit` and `findBestFit` are not called by `ff_malloc` or `bf_malloc`, which inline their own loops. They are modelled separately.

## Findings

| source | as written | input that shows it | evidently intended | confidence | as-written member | corrected member |
|---|---|---|---|---|---|---|
| Project_1/my_malloc/my_malloc.c:271 | `return splitBlock(...) + 1;` on the `void *` that splitBlock returns: one byte past the header | any `bf_malloc` that reuses a free block (line 257 does the same for an exact fit); `ff_free` of the result reads a header `META_SIZE - 1` bytes before the block | `(char *) splitBlock(...) + META_SIZE`, as `ff_malloc` (line 224) and the commented-out lines 258, 272 do | not executed | Malloc.Allocator.BfMalloc | Malloc.Allocator.BfMallocCorrected |
| Project_1/my_malloc/my_malloc.c:68-73 | with a null `curr`, `toInsert` is overwritten by the head, whose `prev` is set and then cleared: nothing is linked | free list [1000]; `deallocate` of the block at 500: it is marked free and counted but never rejoins the list | the block becomes the new head in front of the old one | not executed | Malloc.Allocator.InsertInFrontOf | Malloc.Allocator.InsertAtHead |
| project2/my_malloc.c:50-56 | an inner `toInsert = curr->next` shadows the parameter; that block is linked to itself and the block to insert is never linked | list A, B, C with `curr` = A: B's `next` and `prev` both point at B | link `toInsert` between `curr` and `curr->next`, as the main allocator does (my_malloc.c:80-86) | not executed | ThreadMalloc.InsertSelfLoop | Malloc.Allocator.LinkAfter |
| Project_1/my_malloc/src/my_malloc.c:166-167 | the remainder is placed `size + META_SIZE` in but sized `dataSize - size` | block of 100 bytes split for 50 with `META_SIZE` 32: the remainder ends 32 bytes past the block | size it `dataSize - size - META_SIZE`, as the main allocator does (my_malloc.c:184-185) | not executed | Draft.RemainderOverruns | Malloc.Allocator.CutBlock |
| Project_1/my_malloc/src/my_malloc.c:197 | `return splitBlock(curr, size) + 1;` on a `void *`: one byte past the header | any `ff_malloc` that reuses a free block | one header past, as `allocate` returns (line 99) | not executed | Draft.Allocator.FfMalloc | Malloc.Allocator.FfMalloc |
| Project_1/my_malloc/my_malloc.c:202-208 | coalesceWithRight removes the absorbed block with removeFromFreeList, which marks it allocated (line 59); its header stays inside the merged free block | adjacent blocks a, b, c handed out; `ff_free(a)`, `ff_free(c)`, `ff_free(b)` leave the list [a] with c's header allocated; `ff_free(c)` again passes the `allocated` test (line 236), and deallocate appends c after a, which it overlaps, and counts its bytes a third time | mark the absorbed header free after removing it, so a repeated free of it is ignored | not executed | Steps.StaleRelease | Malloc.Allocator.CoalesceWithRightCorrected |
