# A verified model of the collector's block allocator and the map-file layout

The Boehm collector under `IL2CPP/external/boehmgc` hands out memory in heap
blocks. It keeps the heap as a tiling of free and used chunks, threads the free
chunks on 61 doubly linked lists through their headers, keeps a byte counter per
list and one for the whole heap, avoids blocks that false pointers have
black-listed, and coalesces on freeing. This project models that allocator, the
black list it consults, and two smaller pieces: the layout that the MSVC
map-file parser recovers, and the binary symbol file.

## How the model is built

* `Chunks` has the heap as a value: a map from first block to chunk, the 61 lists,
  the set of unmapped blocks and the counters. `Inv` is the invariant: chunks do
  not overlap, and each free chunk is on exactly one list, exactly once, namely
  the list that its size selects. `InvExcept` allows one misfiled chunk.
* `Freeing`, `Allocation`, `Search`, `Allocator`, `Unmapping` and `Merging` give
  each operation as a function on that value and prove what the operation is for.
  `AllocFree`, `Totals` and `Runs` prove what spans operations and whole runs;
  `Witnesses` has reachable heaps at which their conditions matter.
* `HeapBlocks.Blocks` is the mutable heap: a header index with headers and
  forwarding counts, the arrays `freelist` and `freeBytes`, and global counters.
  Its methods follow the C functions, loop by loop, link by link. `HeaderIndex`,
  `Filing` and `IndexChanges` say how these fields represent a heap value
  (mutually inverse links, list heads, counters, counts inside used chunks, nothing
  inside free ones). Each method keeps that representation, and its contract says
  that the heap it represents becomes the function's result.
* `BlackList` has the four hash tables as arrays that are swapped, cleared and
  copied in place, and the scan that skips words.
* `ObjectInverse`, `MapLayout` and `SymbolFile` stand alone.

Addresses are block numbers, 0 being null. The modelled target is the one that
the PS Vita build selects: 32-bit words and 64 KiB blocks
(`include/private/gc_priv.h:721-722`). Whatever depends on the width is written
out: the wrap-around in `OBJ_SZ_TO_BLOCKS`, the sign tests, the wrapped product in
the reciprocal. Both configurations of unmapping are covered: without it no block
is ever unmapped, which `AllMapped` states and every operation then keeps.

Where the collector calls out, the result is a parameter: the choice of the
splitting policy (`Policy`), the black-list limit and leak finding (`Env`), whether
a false pointer has a header, and which chunks are old enough to unmap (any set).
Requests are arbitrary sizes. A size within a block of the end of the address space
wraps when rounded up to blocks and asks for none; `Allocator.GrantServes` and
`Allocator.AllocKeeps` say exactly what then fails, `Witnesses` where it does.

## Where the comments and the code differ

The model follows the code.

* `allchblk.c:351` says the free lists are sorted by address; line 370 pushes at
  the head. `Chunks.PushSorts` has the exact condition, `Witnesses.ListOutOfOrder`
  a reachable heap.
* `allchblk.c:39-40` says that sizes up to 32 have a list each; list 32 also holds
  33 to 39. `FreeListIndex.UniformLists` has the exact condition.
* `allchblk.c:251` asks for a product above 2^32; powers of two reach it exactly.
  `ObjectInverse.ProductExact` has the exact condition.
* `allchblk.c:30` says adjacent free blocks are coalesced; a neighbour that is
  unmapped (869, 879) or would make the size overflow (870, 880) is not.
  `Freeing.CoalescesExactly` has the exact condition for freeing and
  `Merging.NothingLeftToMerge` what the later pass leaves;
  `Witnesses.UnmappedStaysApart` and `Witnesses.TooLargeToMerge` are reachable heaps.
* `blacklst.c:261` says the count reads the incomplete table; line 271 reads the
  old one. `BlackList.CountsTellTables` says when that makes no difference,
  `BlackList.RecentNotCounted` that it can.

## Model

Lines are those of the file named; `HeapBlocks` methods are stated against the functions
that the other rows prove things about.

| member | source | states |
|---|---|---|
| Runs.RunSound | IL2CPP/external/boehmgc/allchblk.c:502-897 | by induction over any run of growing, allocating, freeing, unmapping and merging, whatever sizes are asked for, none of whose allocations runs past a chunk: chunks tile the heap, each free chunk is on exactly the list of its size, flags agree with the mapping, the global counter is the free bytes, and the heap has grown by exactly what was added |
| Runs.ReachableSound | IL2CPP/external/boehmgc/allchblk.c:104-118 | in every heap reachable from the empty one the global counter, the bytes in free chunks and the total over the 61 lists agree, and free plus used blocks (dropped ones included) are the blocks ever added |
| Runs.RunCoalesces | IL2CPP/external/boehmgc/allchblk.c:838-897 | without unmapping, below half the address space, and with allocations of at least one block or of kinds that ignore the black list, no run leads to two adjacent free chunks |
| Runs.RunsAgree | IL2CPP/external/boehmgc/allchblk.c:865-896 | two such runs that end with the same blocks and the same used chunks end with the same free chunks, whatever the order of their events |
| Runs.StepSound | IL2CPP/external/boehmgc/allchblk.c:392-897 | a single operation keeps the whole invariant if and only if it is not an allocation that runs past a chunk, and then only growing changes the size of the heap |
| Runs.PlainNeverOverruns | IL2CPP/external/boehmgc/allchblk.c:688-691 | an allocation of at least one block, or of a kind that ignores the black list, never runs past a chunk |
| AllocFree.AllocThenFree | IL2CPP/external/boehmgc/allchblk.c:588-897 | the block just granted from chunk h, in a call that dropped nothing, can be freed if and only if it was for at least one block; freeing then always restores the counter, and restores the free chunks, even after a two-sided split, if and only if the block does not merge with a mapped free neighbour of h that fits |
| AllocFree.RestoredWhenCoalesced | IL2CPP/external/boehmgc/allchblk.c:588-897 | so where no two free chunks are adjacent, freeing a request of at least one block always restores the free chunks |
| Witnesses.NotRestored | IL2CPP/external/boehmgc/allchblk.c:714-719 | at a reachable heap with an unmapped chunk before a mapped one, they are not |
| AllocFree.CarvedMergesBack | IL2CPP/external/boehmgc/allchblk.c:865-890 | the granted part merges with both remainders into exactly the chunk it was carved from if and only if it does not merge with a neighbour of that chunk |
| AllocFree.AllocCoalesces | IL2CPP/external/boehmgc/allchblk.c:588-642 | an allocation that does not run past a chunk unmaps nothing, and makes two free chunks adjacent if and only if it is of no blocks and starts inside a free chunk |
| Witnesses.WrappedCuts | IL2CPP/external/boehmgc/allchblk.c:707-721 | a wrapped request that does so, at a reachable heap |
| Allocator.AllocComplete | IL2CPP/external/boehmgc/allchblk.c:588-642 | under every policy the result is null if and only if each free chunk with an admissible start, or to punt on, is larger than the request and either lies above the split limit or is spared from being remapped only to be split |
| Allocator.WholeHeapComplete | IL2CPP/external/boehmgc/allchblk.c:607-612 | where splitting is preferred to collecting, or the last list is open to ordinary splitting, the result is null if and only if no free chunk has an admissible start or may be punted on |
| Allocator.FinalizersComplete | IL2CPP/external/boehmgc/allchblk.c:614-618 | where finalizers have freed more than a sixteenth of the heap and splitting is not preferred, a block is returned if and only if some chunk of exactly the size asked for has room, and it is the start of such a chunk |
| Allocator.ReserveComplete | IL2CPP/external/boehmgc/allchblk.c:619-627 | otherwise the result is null if and only if each free chunk with room is larger than the request and lies above the greatest list whose suffix of free bytes covers the reserve, or, with unmapping and that list not the first, is spared |
| Witnesses.SparedNotTaken | IL2CPP/external/boehmgc/allchblk.c:623-627 | with the limit at the last list but reluctant splitting, a one-block request fails at a reachable heap whose only chunk has a clear start |
| Allocator.FailureReasons | IL2CPP/external/boehmgc/allchblk.c:588-642 | the half of it about failing calls: each chunk with room is out of reach |
| Allocator.GrantTakes | IL2CPP/external/boehmgc/allchblk.c:603-641 | a call that grants a block grants it where it belongs in a chunk with room within reach: an exact fit whenever there is one, else one of the earliest list that has a chunk with room that is not spared |
| Allocator.AllocFromComplete | IL2CPP/external/boehmgc/allchblk.c:634-641 | a second pass that fails has visited every list up to the limit, and each chunk with room there was spared |
| Allocator.AllocKeeps | IL2CPP/external/boehmgc/allchblk.c:588-642 | for every request: a call that runs past a chunk breaks the invariant; every other call keeps the invariant, the covered blocks, the used chunks and the agreement of flags and mapping, and balances free, dropped and granted bytes exactly; a granted block is wholly mapped, lies in a free chunk with room, at its lowest clear start (or at the chunk itself when black lists are ignored or punted on); a null result loses only chunks the request could not have used |
| Allocator.GrantServes | IL2CPP/external/boehmgc/allchblk.c:588-642 | for every size of a word: a block returned is a used chunk with room for the bytes asked for if and only if the size is neither zero nor within a block of the end of the address space |
| Allocator.PlacedClear | IL2CPP/external/boehmgc/allchblk.c:688-733 | a granted request that avoids the black list and does not punt has no exposed block marked for stacks and no first block marked for the heap |
| Allocator.AllocDropsNothing | IL2CPP/external/boehmgc/allchblk.c:742-784 | only a request of one block makes the allocator drop anything |
| Allocator.AllocCounts | IL2CPP/external/boehmgc/allchblk.c:603-641 | a call for one block counts each such chunk once: on list 1, and, if the exact pass fails, on the lists from 2 to the limit |
| Witnesses.WrappedStaysFree | IL2CPP/external/boehmgc/malloc.c:190-197 | a size that the caller lets through, for which the block returned stays free, at a reachable heap |
| Witnesses.WrappedReaches | IL2CPP/external/boehmgc/malloc.c:190-197 | that size is what a caller's request of 0xFFFF8000 bytes is rounded to |
| Words.CallersLetWrap | IL2CPP/external/boehmgc/malloc.c:190-197 | exactly one range of sizes passes the caller's test and then rounds up to no blocks |
| Allocator.AllocOverrunMeans | IL2CPP/external/boehmgc/allchblk.c:688-721 | only a request of no blocks that avoids black-listed ones runs past a chunk, namely a free one that is wholly black-listed and followed by a clear block |
| Allocation.CommitOverwrites | IL2CPP/external/boehmgc/allchblk.c:707-796 | the header after that chunk becomes that of a used chunk of no blocks |
| Witnesses.WrappedOverwrites | IL2CPP/external/boehmgc/allchblk.c:688-721 | it does so to a free chunk, at a reachable heap |
| Allocator.AllocBalances | IL2CPP/external/boehmgc/allchblk.c:588-642 | unless the call runs past a chunk, the global counter stays equal to the bytes in free chunks |
| Allocator.ReserveUntouched | IL2CPP/external/boehmgc/allchblk.c:619-640 | every list above both the request's own list and the limit in force is left exactly as it was |
| Allocator.EnoughIsGreatest | IL2CPP/external/boehmgc/allchblk.c:67-81 | the scan returns the greatest index whose suffix of free bytes covers the reserve, 0 if there is none |
| Allocator.TooLarge | IL2CPP/external/boehmgc/allchblk.c:599-602 | the sign test rejects exactly the requests of half the address space or more |
| Search.NthComplete | IL2CPP/external/boehmgc/allchblk.c:653-829 | a null result from one list means that each of its chunks had no room, or was not exact when splitting is off, or was unmapped with its first clear start inside, under reluctant splitting |
| Search.NthTakes | IL2CPP/external/boehmgc/allchblk.c:653-829 | a walk of one list that grants a block found it in a chunk of that list that had room, was not to be spared, and was an exact fit if splitting was off |
| Search.FindComplete | IL2CPP/external/boehmgc/allchblk.c:664-790 | the same for every position that the walk passed, drops and restarts included |
| Search.ClearStartIsTaken | IL2CPP/external/boehmgc/allchblk.c:672-687 | once a chunk that fits starts clear, the walk ends in an allocation: skipping it for an obviously better neighbour never loses it |
| Search.SplitsForCause | IL2CPP/external/boehmgc/allchblk.c:670-713 | a walk breaks up a chunk only when splitting is on and the next chunk on the list is not smaller, large enough and clear; under AVOID_SPLIT_REMAPPED it never places a request inside an unmapped chunk |
| Search.PassedForBetter | IL2CPP/external/boehmgc/allchblk.c:670-687 | with splitting on, a walk that grants a block has passed an earlier chunk with room, not spared, only for a smaller chunk that comes next on the list, is still large enough, and starts with as many clear blocks as are asked for |
| Search.RoomExactly | IL2CPP/external/boehmgc/allchblk.c:688-733 | a chunk has room if and only if it is large enough and, for kinds that avoid the black list, some start leaves the exposed blocks clear or both the request and the remainder exceed the spacing in bytes |
| Search.PlacedExactly | IL2CPP/external/boehmgc/allchblk.c:688-733 | where the request goes in its chunk, in blocks and bytes: the first block, or the lowest clear start, or, with none, the first block of a chunk that it may punt on |
| Search.SparedExactly | IL2CPP/external/boehmgc/allchblk.c:704-713 | a chunk is spared if and only if the walk avoids remapping to split, the chunk is unmapped, and the lowest clear start is not its first block |
| Search.AvoidsExactly | IL2CPP/external/boehmgc/allchblk.c:688-694 | which kinds and sizes avoid the black list, and how many blocks they expose to it |
| Search.NthKeeps | IL2CPP/external/boehmgc/allchblk.c:653-829 | a walk that does not run past a chunk keeps the invariant and the covered blocks and balances free, dropped and granted bytes; one that does breaks the invariant |
| Search.NthGranted | IL2CPP/external/boehmgc/allchblk.c:688-745 | where the granted block lies, how its chunk was cut, and that only hopeless chunks were lost; a request of no blocks is given a block that stays free |
| Search.JudgeExhausted | IL2CPP/external/boehmgc/allchblk.c:742-752 | a chunk becomes a candidate for dropping only when it is mapped, the request is one block, and every block of the chunk is black-listed |
| Search.ExhaustedExactly | IL2CPP/external/boehmgc/allchblk.c:742-746 | a chunk counts towards a drop if and only if the request is one block and avoids the black list, the chunk is wholly listed and mapped, no leaks are looked for, the request does not punt, and the chunk is not passed over for its size or neighbour |
| Search.EveryFourthDropped | IL2CPP/external/boehmgc/allchblk.c:744-775 | the drop counter counts these chunks, and the list loses exactly every fourth of them |
| Search.DropStep | IL2CPP/external/boehmgc/allchblk.c:752-775 | the chunk that the counter stops at is the one dropped, in single pointer-free blocks; any other is left as it is |
| Search.FindKeeps | IL2CPP/external/boehmgc/allchblk.c:742-784 | whatever a walk drops was wholly black-listed, and its bytes move from the free to the dropped counter |
| Search.NthMapping | IL2CPP/external/boehmgc/allchblk.c:787-796 | after a walk every chunk is wholly mapped or unmapped as its flag says, the granted one mapped |
| Search.NthLaterLists | IL2CPP/external/boehmgc/allchblk.c:543-572 | a walk of list n changes no list after n |
| Allocation.FirstClear | IL2CPP/external/boehmgc/allchblk.c:688-701 | the lowest start of a range whose window is clear: it is clear, everything before it is black-listed, and 0 means all of it is |
| Allocation.CommitKeeps | IL2CPP/external/boehmgc/allchblk.c:707-796 | splitting, taking the first part by the explicit list index and setting up restores the full invariant if and only if the placement starts inside the chunk |
| Allocation.CommitCarves | IL2CPP/external/boehmgc/allchblk.c:707-796 | for a request of at least one block the chosen chunk becomes at most three chunks, free, used, free, that tile it, and no other chunk changes |
| Allocation.CommitLeavesFree | IL2CPP/external/boehmgc/allchblk.c:502-527 | for a request of no blocks it becomes at most two, both free |
| Allocation.CommitWeighs | IL2CPP/external/boehmgc/allchblk.c:826 | a placement takes exactly its own blocks out of the free blocks and the counter |
| Allocation.CommitCovers | IL2CPP/external/boehmgc/allchblk.c:707-796 | a placement covers the same blocks as before |
| Allocation.CommitMapping | IL2CPP/external/boehmgc/allchblk.c:714-796 | a placement maps the chosen chunk as a whole and nothing else |
| Allocation.CommitLaterLists | IL2CPP/external/boehmgc/allchblk.c:707-796 | both remainders are filed on the walked list or an earlier one |
| Allocation.CommitLists | IL2CPP/external/boehmgc/allchblk.c:543-572 | the chosen chunk leaves its list, the part before the request and then the rest go to the heads of theirs, and no other entry changes or moves |
| Allocation.DropKeeps | IL2CPP/external/boehmgc/allchblk.c:752-784 | dropping a chunk in single blocks keeps the invariant and takes exactly one entry off its list, the measure of the recursive call |
| Allocation.DropWeighs | IL2CPP/external/boehmgc/allchblk.c:761-763 | dropping moves exactly the chunk's bytes from the free counter to the dropped one |
| Chunks.SplitMisfilesOne | IL2CPP/external/boehmgc/allchblk.c:543-572 | a split leaves the upper part as the only chunk that may be on the wrong list, namely on the list of the whole |
| Chunks.TakeKeeps | IL2CPP/external/boehmgc/allchblk.c:293-313 | taking a chunk off the list it is on keeps the invariant, and ends the exception if it was the misfiled one |
| Chunks.PushKeeps | IL2CPP/external/boehmgc/allchblk.c:352-380 | filing a chunk by its size keeps the invariant, with or without another chunk misfiled |
| Chunks.PushSorts | IL2CPP/external/boehmgc/allchblk.c:350-370 | filing at the head keeps a list sorted by address if and only if the list is empty or the chunk lies below its head |
| Witnesses.ListOutOfOrder | IL2CPP/external/boehmgc/allchblk.c:350-370 | a reachable heap with a list that is not sorted by address |
| Chunks.JoinKeeps | IL2CPP/external/boehmgc/allchblk.c:873-874 | joining two adjacent chunks keeps the invariant and undoes a cut at their border |
| Chunks.CutKeeps | IL2CPP/external/boehmgc/allchblk.c:511-521 | cutting off the rest of a chunk keeps the invariant and covers the same blocks |
| Chunks.RenewKeeps | IL2CPP/external/boehmgc/allchblk.c:511-521 | a fresh header in place of the one of a chunk being worked on keeps the invariant |
| Chunks.FreePlusUsed | IL2CPP/external/boehmgc/allchblk.c:104-118 | free and used blocks sum to all blocks, for every set of chunks |
| Freeing.FreeResult | IL2CPP/external/boehmgc/allchblk.c:838-897 | freeing replaces one interval around the chunk by one free mapped chunk, leaves every other chunk alone, keeps the invariant and adds exactly the chunk's blocks to the free ones |
| Freeing.FreedToNext | IL2CPP/external/boehmgc/allchblk.c:868-875 | in every heap the freed chunk extends over the successor if and only if that is free, mapped, and the sizes do not overflow |
| Freeing.FreedFromPrevious | IL2CPP/external/boehmgc/allchblk.c:876-890 | in every heap it starts at the predecessor if and only if that is free, mapped, and the sizes, the successor included, do not overflow |
| Freeing.CoalescesExactly | IL2CPP/external/boehmgc/allchblk.c:865-890 | freeing leaves no two adjacent free chunks if and only if there were none and each free neighbour was merged |
| Freeing.FreeFiles | IL2CPP/external/boehmgc/allchblk.c:868-896 | the merged chunks leave their lists, the freed one goes to the head of its list, and no other entry changes or moves |
| Witnesses.UnmappedStaysApart | IL2CPP/external/boehmgc/allchblk.c:876-880 | two adjacent free chunks at a reachable heap, one of them unmapped |
| Witnesses.TooLargeToMerge | IL2CPP/external/boehmgc/allchblk.c:876-880 | two adjacent free chunks at a reachable heap with everything mapped, half the address space together |
| Freeing.FreeCoalesces | IL2CPP/external/boehmgc/allchblk.c:865-890 | both merges succeed, so no two adjacent free chunks are left, where everything is mapped and the heap is below half the address space |
| Freeing.FreeChunksDetermined | IL2CPP/external/boehmgc/allchblk.c:865-896 | in a fully coalesced heap the used chunks and the covered blocks determine every free chunk |
| Freeing.FreeBeforeUnique | IL2CPP/external/boehmgc/allchblk.c:322-348 | at most one free chunk ends just before a block, and it is the one found |
| Freeing.FreeBalances | IL2CPP/external/boehmgc/allchblk.c:895 | the global counter stays equal to the bytes in free chunks |
| Freeing.FreeKeepsMapping | IL2CPP/external/boehmgc/allchblk.c:865-890 | only mapped chunks are merged, so flags and mapping still agree |
| Freeing.NewSectionKeeps | IL2CPP/external/boehmgc/alloc.c:1064-1098 | a vacant section enters as one chunk, disjoint from the rest, and is counted once |
| Freeing.TrimmedBlocks | IL2CPP/external/boehmgc/alloc.c:1072-1084 | of a new section the heap uses exactly the blocks that are neither 0 or 1 nor the last of the address space |
| Merging.NothingLeftToMerge | IL2CPP/external/boehmgc/allchblk.c:431-489 | after one ascending pass two adjacent free chunks remain only where their combined size overflows |
| Merging.MergeStaysClean | IL2CPP/external/boehmgc/allchblk.c:477-481 | a merged chunk is filed on the current list or a later one, so lists already passed stay free of mergeable chunks |
| Merging.MergeUnmappedKeeps | IL2CPP/external/boehmgc/allchblk.c:431-489 | the pass keeps the invariant, the used chunks, the covered blocks, the counters and the agreement of flags and mapping |
| Merging.MergePairResult | IL2CPP/external/boehmgc/allchblk.c:446-482 | one merge replaces two adjacent free chunks by their union and changes nothing else |
| Merging.MergePairMapping | IL2CPP/external/boehmgc/allchblk.c:454-476 | in all four cases of mapped and unmapped parts the merged chunk is wholly mapped or wholly unmapped, as its flag says |
| Merging.MergeRemaps | IL2CPP/external/boehmgc/allchblk.c:454-476 | one merge changes the mapping of blocks only inside the smaller part, the first on a tie, and only if one part is mapped and the other is not; the merged chunk is as the other part was |
| Merging.MergeFiles | IL2CPP/external/boehmgc/allchblk.c:477-481 | both parts leave their lists, the merged chunk goes to the head of its list, and no other entry changes or moves |
| Merging.FewerChunks | IL2CPP/external/boehmgc/allchblk.c:481-483 | each merge lowers the number of chunks: starting over at the head of the list terminates |
| Unmapping.UnmapOldReaches | IL2CPP/external/boehmgc/allchblk.c:409-425 | a free chunk is unmapped afterwards exactly when it was so before or is stale |
| Unmapping.UnmapOldKeeps | IL2CPP/external/boehmgc/allchblk.c:409-425 | unmapping keeps the invariant, lists and counts, touches only stale mapped free chunks, and keeps flags and mapping in agreement |
| Totals.ListTotals | IL2CPP/external/boehmgc/allchblk.c:104-118 | all list counters together are the bytes in free chunks |
| FreeListIndex.SizesOnList | IL2CPP/external/boehmgc/allchblk.c:84-91 | the sizes filed on each list are exactly one interval |
| FreeListIndex.FlMonotone | IL2CPP/external/boehmgc/allchblk.c:84-91 | the map from sizes to lists is monotone |
| FreeListIndex.UniformLists | IL2CPP/external/boehmgc/allchblk.c:39-46 | a list holds a single size if and only if its index is below 32 |
| FreeListIndex.LargerChunksAreLater | IL2CPP/external/boehmgc/allchblk.c:629-633 | larger chunks are on the same or a later list, and on the same one below 32 only if equal: starting the second pass one list later misses nothing |
| Words.ObjSzToBlocksIsCeiling | IL2CPP/external/boehmgc/include/private/gc_priv.h:1009-1011 | the number of blocks is the least that holds the size, away from the wrap-around, and 0 exactly for an empty or wrapped request |
| Words.CoalescedSizeFits | IL2CPP/external/boehmgc/allchblk.c:868-880 | the overflow test accepts exactly the pairs that stay below half the address space |
| HeaderIndex.UnlinkedLinks | IL2CPP/external/boehmgc/allchblk.c:293-313 | rewriting at most two links removes exactly one element of a doubly linked list |
| HeaderIndex.PrependedLinks | IL2CPP/external/boehmgc/allchblk.c:366-376 | pushing at the head yields the list with that element first, links inverse in both directions |
| HeaderIndex.CountsAreDistances | IL2CPP/external/boehmgc/headers.c:286-289 | every count is the distance to the first block of its chunk: the cap never matters |
| Filing.TakeRepresents | IL2CPP/external/boehmgc/allchblk.c:293-313 | after removal links, heads and counters represent the lists without the chunk |
| Filing.PushRepresents | IL2CPP/external/boehmgc/allchblk.c:352-380 | after filing they represent the lists with the chunk at the head of its list |
| IndexChanges.SupplantRepresents | IL2CPP/external/boehmgc/allchblk.c:543-568 | after the first half of a split the upper part has taken the chunk's place in its list |
| IndexChanges.CutRepresents | IL2CPP/external/boehmgc/allchblk.c:511-521 | a fresh header for the rest represents the cut |
| IndexChanges.RenewRepresents | IL2CPP/external/boehmgc/allchblk.c:511-521 | a fresh header in place of the one of a chunk being worked on represents it |
| IndexChanges.JoinRepresents | IL2CPP/external/boehmgc/allchblk.c:873-874 | adding sizes and removing the second header represents the join |
| IndexChanges.CountsRepresents | IL2CPP/external/boehmgc/headers.c:277-291 | installed counts lead from every inner block towards the start of its own chunk and never past it |
| IndexChanges.ReleaseRepresents | IL2CPP/external/boehmgc/headers.c:303-309 | removing them leaves a header at the first block and nothing inside |
| IndexChanges.DropRepresents | IL2CPP/external/boehmgc/allchblk.c:764-775 | single-block headers represent the dropped chunk |
| IndexChanges.SectionRepresents | IL2CPP/external/boehmgc/alloc.c:1085-1096 | the header of a new section represents the new chunk |
| HeapBlocks.Blocks.constructor | IL2CPP/external/boehmgc/allchblk.c:50-64 | an empty heap: no headers, empty lists, zero counters |
| HeapBlocks.Blocks.Unlink | IL2CPP/external/boehmgc/allchblk.c:293-313 | the link, head and counter writes of a removal, on any headers |
| HeapBlocks.Blocks.LinkAtHead | IL2CPP/external/boehmgc/allchblk.c:352-380 | those of filing at the head |
| HeapBlocks.Blocks.ReplaceInList | IL2CPP/external/boehmgc/allchblk.c:543-568 | those of a split before the lower part is filed |
| HeapBlocks.Blocks.RemoveFromFlAt | IL2CPP/external/boehmgc/allchblk.c:293-313 | takes the chunk off the given list, in links and in the counter |
| HeapBlocks.Blocks.RemoveFromFl | IL2CPP/external/boehmgc/allchblk.c:317-320 | the same on the list of its size |
| HeapBlocks.Blocks.FreeBlockEndingAt | IL2CPP/external/boehmgc/allchblk.c:323-348 | exactly the free chunk that ends just before the block, or 0 |
| HeapBlocks.Blocks.AddToFl | IL2CPP/external/boehmgc/allchblk.c:352-380 | files the chunk at the head of the list of its size |
| HeapBlocks.Blocks.PrevBlock | IL2CPP/external/boehmgc/headers.c:377-406 | the last block with a header at or before the given one, or 0 |
| HeapBlocks.Blocks.InstallHeader | IL2CPP/external/boehmgc/headers.c:261-274 | a header with unknown contents at one block, nothing else changed |
| HeapBlocks.Blocks.RemoveHeader | IL2CPP/external/boehmgc/headers.c:294-300 | no entry at one block, nothing else changed |
| HeapBlocks.Blocks.InstallCounts | IL2CPP/external/boehmgc/headers.c:277-291 | the capped distance at every later block of the chunk |
| HeapBlocks.Blocks.RemoveCounts | IL2CPP/external/boehmgc/headers.c:303-309 | no entry at any later block of the chunk |
| HeapBlocks.Blocks.SetupHeader | IL2CPP/external/boehmgc/allchblk.c:225-291 | size, kind and flags of the header, links kept |
| HeapBlocks.Blocks.FreeHblk | IL2CPP/external/boehmgc/allchblk.c:838-897 | the three outcomes and, when freed, the heap of `Freeing.FreeHblk`; the aborts change nothing |
| HeapBlocks.Blocks.CoalesceNext | IL2CPP/external/boehmgc/allchblk.c:868-875 | absorbs the successor exactly when it is free, mapped and small enough |
| HeapBlocks.Blocks.CoalescePrevious | IL2CPP/external/boehmgc/allchblk.c:876-890 | lets the predecessor absorb the chunk under the same conditions |
| HeapBlocks.Blocks.AddToHeap | IL2CPP/external/boehmgc/alloc.c:1064-1098 | the usable part of a section joins the heap as freed memory; nothing changes if there is none |
| HeapBlocks.Blocks.AddSection | IL2CPP/external/boehmgc/alloc.c:1085-1098 | a usable, vacant section is given a header and freed |
| HeapBlocks.Blocks.SplitBlock | IL2CPP/external/boehmgc/allchblk.c:543-572 | the upper part takes the chunk's place on the given list and the lower part is filed by size |
| HeapBlocks.Blocks.GetFirstPart | IL2CPP/external/boehmgc/allchblk.c:502-527 | the first part leaves the given list and the rest, if any, is filed by size |
| HeapBlocks.Blocks.RemapChunk | IL2CPP/external/boehmgc/allchblk.c:714-719 | maps exactly the chunk's blocks and clears its flag |
| HeapBlocks.Blocks.Place | IL2CPP/external/boehmgc/allchblk.c:688-701 | jumping along the answers of the black list ends at the lowest clear start, or past the last one |
| HeapBlocks.Blocks.Suits | IL2CPP/external/boehmgc/allchblk.c:665-687 | is the chunk large enough, splittable, and its neighbour on the list not obviously better |
| HeapBlocks.Blocks.PlaceRequest | IL2CPP/external/boehmgc/allchblk.c:688-752 | take at a start, punt, drop candidate or skip, as the specification decides |
| HeapBlocks.Blocks.PlaceAndGrant | IL2CPP/external/boehmgc/allchblk.c:704-829 | a placement, split or not, gives exactly the heap of `Allocation.Commit`, and a valid state unless it lies just past its chunk |
| HeapBlocks.Blocks.PassThroughList | IL2CPP/external/boehmgc/allchblk.c:543-572 | the split and the removal in that case, on any links that lead to headers, leave a header there |
| HeapBlocks.Blocks.OverwriteNext | IL2CPP/external/boehmgc/allchblk.c:704-829 | all writes of a placement just past its chunk: afterwards the header there is that of a used chunk of no blocks |
| HeapBlocks.Blocks.SetupDropped | IL2CPP/external/boehmgc/allchblk.c:764-771 | every block of the dropped chunk has the header of a one-block pointer-free chunk |
| HeapBlocks.Blocks.DropChunk | IL2CPP/external/boehmgc/allchblk.c:752-775 | the dropped heap: counters, list and headers |
| HeapBlocks.Blocks.AllochblkNth | IL2CPP/external/boehmgc/allchblk.c:653-829 | the walk with its stepping back, its recursive call and its drop counter gives exactly `Search.Nth`, a valid state unless it runs past a chunk, and terminates |
| HeapBlocks.Blocks.EnoughLargeBytesLeft | IL2CPP/external/boehmgc/allchblk.c:70-81 | the index that `EnoughIsGreatest` characterises |
| HeapBlocks.Blocks.ComputeLargeFreeBytes | IL2CPP/external/boehmgc/allchblk.c:104-118 | walking all lists through their links finds exactly the bytes in free chunks |
| HeapBlocks.Blocks.ChooseSplitLimit | IL2CPP/external/boehmgc/allchblk.c:607-628 | the split limit and eagerness of the second pass |
| HeapBlocks.Blocks.Allochblk | IL2CPP/external/boehmgc/allchblk.c:588-642 | the two passes give exactly `Allocator.Allochblk`, for every request, and a valid state unless the call runs past a chunk |
| HeapBlocks.Blocks.UnmapOld | IL2CPP/external/boehmgc/allchblk.c:392-426 | the walk over all lists gives exactly `Unmapping.UnmapOld` |
| HeapBlocks.Blocks.AlignPair | IL2CPP/external/boehmgc/allchblk.c:454-475 | both parts brought to the mapping state of the larger one, of the second on a tie, as `Merging.MergeRemaps` says |
| HeapBlocks.Blocks.MergeWithNext | IL2CPP/external/boehmgc/allchblk.c:454-482 | one merge, in headers, links and counters |
| HeapBlocks.Blocks.MergeUnmapped | IL2CPP/external/boehmgc/allchblk.c:431-489 | the walk with its restarts gives exactly `Merging.MergeUnmapped`, and terminates |
| HeapBlocks.Blocks.NextCanMerge | IL2CPP/external/boehmgc/allchblk.c:446-450 | finds a mergeable successor exactly when there is one |
| HeapBlocks.JumpStaysInside | IL2CPP/external/boehmgc/headers.c:377-399 | a count leads at most to the start of its own chunk, so no header is jumped over |
| HeapBlocks.EndingChunk | IL2CPP/external/boehmgc/allchblk.c:329-339 | where the chain of counts before a block ends is the chunk that ends there |
| BlackList.BlackLists.constructor | IL2CPP/external/boehmgc/blacklst.c:92-120 | clear tables in separate buffers |
| BlackList.BlackLists.IsBlackListed | IL2CPP/external/boehmgc/blacklst.c:228-257 | 0 exactly when the block-by-block test finds nothing; otherwise the answer r lies in (h, h + nblocks] and every start in [h, r) is black-listed too |
| BlackList.EasyCase | IL2CPP/external/boehmgc/blacklst.c:242-246 | two zero words clear every block up to the end of the word |
| BlackList.BlackLists.PromoteBlackLists | IL2CPP/external/boehmgc/blacklst.c:136-167 | one promotion on the two generations, with the same buffers still not aliased, the total over the table just promoted, and the new spacing |
| BlackList.BlackLists.UnpromoteBlackLists | IL2CPP/external/boehmgc/blacklst.c:169-175 | the old generation copied back |
| BlackList.BlackLists.AddToBlackListNormal | IL2CPP/external/boehmgc/blacklst.c:183-199 | records a false pointer, through the macro that picks the table |
| BlackList.BlackLists.AddToBlackListStack | IL2CPP/external/boehmgc/blacklst.c:207-218 | records a false pointer from a stack |
| BlackList.BlackLists.NumberStackBlackListed | IL2CPP/external/boehmgc/blacklst.c:262-274 | the number of blocks marked in the old table |
| BlackList.BlackLists.TotalStackBlackListed | IL2CPP/external/boehmgc/blacklst.c:277-289 | the number of blocks marked in the old table over all sections, in bytes modulo the word |
| BlackList.CountIsCardinality | IL2CPP/external/boehmgc/blacklst.c:262-274 | the count over a range is the number of marked blocks in it |
| BlackList.SectionsCountBlocks | IL2CPP/external/boehmgc/blacklst.c:277-289 | the total over disjoint sections is the number of marked blocks that lie in any of them |
| BlackList.CountsTellTables | IL2CPP/external/boehmgc/blacklst.c:259-271 | counting over the one table gives the count over the other for every range if and only if both mark the same blocks |
| BlackList.RecentNotCounted | IL2CPP/external/boehmgc/blacklst.c:259-271 | a false pointer recorded since the last promotion is in the incomplete table and not in the count |
| BlackList.MarkLifetime | IL2CPP/external/boehmgc/blacklst.c:136-218 | over any run that does not set its bucket again: a mark is lost exactly by two promotions without an un-promotion between them; the first promotion keeps the recent generation, a first un-promotion the old one |
| BlackList.PromotionNeverAdds | IL2CPP/external/boehmgc/blacklst.c:136-175 | no sequence of promotions and un-promotions makes a window black-listed that was not |
| BlackList.AddMarksOneBucket | IL2CPP/external/boehmgc/blacklst.c:183-218 | adding marks exactly one bucket, in the recent stack table for stacks or where interior pointers are recognised, else in the recent normal table and only for valid offsets; and only without a header or when already listed |
| BlackList.UnpromoteKeepsOldGeneration | IL2CPP/external/boehmgc/blacklst.c:169-175 | afterwards exactly the old generation is black-listed |
| BlackList.MarkedAfterMark | IL2CPP/external/boehmgc/include/private/gc_priv.h:837-842 | setting one bit changes exactly the blocks that hash to it |
| BlackList.BitOfWithBit | IL2CPP/external/boehmgc/include/private/gc_priv.h:837-842 | setting a bit of a word changes that bit only |
| BlackList.Spacing | IL2CPP/external/boehmgc/blacklst.c:153-166 | the spacing is always between 3 and 2048 blocks |
| BlackList.SpacingMeans | IL2CPP/external/boehmgc/blacklst.c:153-166 | with anything listed, the spacing is the heap size divided by the listed bytes, in whole blocks, or the nearer of 3 and 2048; with nothing listed it stays unless out of that range |
| ObjectInverse.Inverse64 | IL2CPP/external/boehmgc/allchblk.c:257-259 | the 64-bit formula is the ceiling of 2^32 / sz |
| ObjectInverse.Inverse32 | IL2CPP/external/boehmgc/allchblk.c:260-265 | the 32-bit loop with its wrapping product terminates at the same value |
| ObjectInverse.CeilingIsLeast | IL2CPP/external/boehmgc/allchblk.c:249-252 | that value is the least whose product with sz reaches 2^32 |
| ObjectInverse.ProductExact | IL2CPP/external/boehmgc/allchblk.c:251 | the product is 2^32 itself if and only if sz divides 2^32 |
| ObjectInverse.DivisionIsExact | IL2CPP/external/boehmgc/allchblk.c:249-267 | multiplying by it and shifting divides every displacement in a block exactly |
| MapLayout.ParseSections | IL2CPP/MapFileParser/MSVC/MSVCMapFileParser.cpp:77-103 | the loop computes `MapLayout.Rebase` |
| MapLayout.RebaseSteps | IL2CPP/MapFileParser/MSVC/MSVCMapFileParser.cpp:81-99 | for any input, section by section: the first starts one page up, a section keeps its predecessor's offset if its segment is the same or the predecessor's has no name, and else starts at the boundary after it |
| MapLayout.NextOffsetIsCeiling | IL2CPP/MapFileParser/MSVC/MSVCMapFileParser.cpp:92-94 | the next offset is the least page boundary not before the end if and only if that end is a boundary or above minus one page |
| MapLayout.OffsetsAligned | IL2CPP/MapFileParser/MSVC/MSVCMapFileParser.cpp:86-98 | every segment base is page-aligned and not negative |
| MapLayout.SectionsAscend | IL2CPP/MapFileParser/MSVC/MSVCMapFileParser.cpp:86-99 | rebased sections are pairwise disjoint and ascending |
| MapLayout.GetSectionIndexForSymbol | IL2CPP/MapFileParser/MSVC/MSVCMapFileParser.cpp:14-23 | the first section that holds the address, its end included, or the error |
| MapLayout.InnerAddressesFound | IL2CPP/MapFileParser/MSVC/MSVCMapFileParser.cpp:16-20 | past its first byte every address of a rebased section is found in that section |
| MapLayout.FirstAddressFound | IL2CPP/MapFileParser/MSVC/MSVCMapFileParser.cpp:16-20 | its first byte is, if and only if the section before it ends earlier |
| MapLayout.DataTakenForCode | IL2CPP/MapFileParser/MSVC/MSVCMapFileParser.cpp:16-20 | two adjoining sections where the first byte of the data is taken for code |
| MapLayout.CalculateLengths | IL2CPP/MapFileParser/MSVC/MSVCMapFileParser.cpp:25-48 | fails exactly when a symbol after the image base lies in no section, having measured the symbols before the first that cannot be, and typed that one if it is located; otherwise exactly the symbols past the image base get the type of the first section around them and end with it, or where the next symbol of the same segment starts; start, name and object file stay |
| MapLayout.MeasureSymbol | IL2CPP/MapFileParser/MSVC/MSVCMapFileParser.cpp:39-46 | length and segment type of one symbol, or the error, with the type already set if only the follower has no section |
| MapLayout.MeasuredIsLaid | IL2CPP/MapFileParser/MSVC/MSVCMapFileParser.cpp:39-46 | a measured symbol has the type of the first section around it, and ends with that section or where the next symbol of its segment starts |
| MapLayout.NegativeLengths | IL2CPP/MapFileParser/MSVC/MSVCMapFileParser.cpp:43-46 | a length is negative if and only if the next symbol of the same segment starts earlier |
| MapLayout.RunTiles | IL2CPP/MapFileParser/MSVC/MSVCMapFileParser.cpp:29-47 | in a segment's run of symbols whose starts never decrease, each address up to the end of the last section belongs to exactly one symbol |
| MapLayout.SegmentRunCovers | IL2CPP/MapFileParser/MSVC/MSVCMapFileParser.cpp:29-47 | the lengths of a segment's run of symbols sum to the space up to the end of its last section |
| SymbolFile.FilterIsDeclarative | IL2CPP/MapFileParser/SymbolInfoWriter.cpp:6-25 | the search for the last mark accepts exactly the code symbols named by some prefix, `_m`, and 40 upper-case hexadecimal digits |
| SymbolFile.Write | IL2CPP/MapFileParser/SymbolInfoWriter.cpp:27-43 | a four-byte count and one twelve-byte record for each kept symbol |
| SymbolFile.FileReadsBack | IL2CPP/MapFileParser/SymbolInfoWriter.cpp:27-43 | decoding what was written yields, in order, the start and the low 32 bits of the length of each kept symbol |
| SymbolFile.SignedBytes | IL2CPP/MapFileParser/SymbolInfoWriter.cpp:39 | little-endian bytes read back as the integer that was written |
| SymbolFile.ByteOrder | IL2CPP/MapFileParser/SymbolInfoWriter.cpp:34-40 | each byte written is a base-256 digit of the number, the least significant first |
| SymbolFile.HeaderCounts | IL2CPP/MapFileParser/SymbolInfoWriter.cpp:29-34 | the header equals the number of records if and only if that is below 2^31 |
| SymbolFile.KeptFrom | IL2CPP/MapFileParser/SymbolInfoWriter.cpp:35-42 | the kept symbols are exactly those that pass the filter |
| SymbolFile.KeptInOrder | IL2CPP/MapFileParser/SymbolInfoWriter.cpp:35-42 | they are kept in order, each as often as it occurs |

## Left out

- Allocation.CommitOverwrites: which blocks the lists then hold is not modelled; once a header in a list is overwritten, the links no longer represent the lists of a heap, and `HeapBlocks.Blocks.OverwriteNext` promises only the overwritten header.
- Failure of `GC_install_header`, `GC_install_counts` and `setup_header`: the source itself leaks or drops blocks then (`allchblk.c:515`, `allchblk.c:805`), so they are taken to succeed.
- Identity and reuse of header objects: the two-level header table is one map field from block numbers to headers or counts, so aliasing between header pointers is not captured.
- In `HeapBlocks.Blocks.SplitBlock` the new header's free flag is set before the lower part is filed, and in `HeapBlocks.Blocks.FreeHblk` the duplicate check precedes the header update; neither order can be observed.
- Ages (`hb_last_reclaimed`): the 16-bit comparison wraps, so unmapping takes an arbitrary set of stale chunks instead.
- Gaps between a page and a block: pages are blocks, so `GC_unmap_gap` has nothing to do.
- HeapBlocks.Blocks.EnoughLargeBytesLeft: the running sum of bytes is unbounded; in the source it is a word, which all free bytes together do not exceed.
- Heap sections are the caller's list in `BlackList.BlackLists.TotalStackBlackListed`; the heap itself does not record them.
- BlackList.BlackLists.constructor: running out of memory for the tables, which ends the program, is not modelled.
- MapLayout.CalculateLengths: addresses are unbounded integers, not 64 bits wide.
- MapLayout.ParseSections: starts from parsed lines; reading and scanning text is not part of this model.
- Mark bits, descriptors, object maps, dirty bits, clearing of memory, warnings, logging and locks.
- Thread-local free lists (`fnlz_mlc.c`), the scripting interface, the other map-file parsers and the statistics programs: forwarding, text handling and printing.
