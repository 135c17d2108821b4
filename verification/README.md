# Verified models of the rtochius kernel and its Kconfig evaluator

Dafny models of the parts of the repository whose correctness is a matter of whole runs or of every input:

- **The zoned buddy allocator** (`Dyadic`, `FreeBlocks`, `Lists`, `BuddyZone`, `PageAlloc`, `PageDrain`): free lists of
  aligned blocks that split and merge, per-CPU caches of single pages in front of them, the search through all of these,
  and the splitter that fills a zone at boot. The set of free pages alone determines the free lists' blocks, and no page
  is ever counted twice or lost.
- **The printk ring buffer** (`LogRecord`, `LogLayout`, `LogBuffer`): records of varying length in a byte array, with
  wrap markers, eviction of the oldest and a console reader behind. It refines a queue of everything ever stored.
- **The MCS queue lock** (`McsLock`): atomic steps of any number of threads in any order.
- **Radix tree, IDR, XArray and IDA** (`RadixState`, `RadixMoves`, `RadixKeys`, `RadixRoot`, `Radix`, `FreeTree`,
  `Idr`, `Xarray`, `Bits`, `Ida`, `XaRange`): trees of 64-slot nodes with parent pointers, counts and summary tag bits
  that grow, shrink and prune. They refine a map with tag sets, a set of indices with pointers, a map with a set of
  unmarked indices, and a set of integers. `XaRange` is the cutting of a range into multi-index entries.
- **The SLUB allocator** (`SlubState`, `SlubMoves`, `Slub`): free lists threaded through the objects, for any number of
  CPUs and slabs. Every object is in exactly one place.
- **Cross-CPU calls** (`SmpCall`, `SmpAnswer`, `SmpSettle`) and **edge interrupts** (`EdgeIrq`): interleaved steps of any number of CPUs.
- **The Kconfig evaluator** (`KconfigExpr`, `KconfigParse`, `KconfigTokens`, `KconfigLoop`, `KconfigEval`, `KconfigDeps`,
  `KconfigEnds`, `KconfigLaws`, `KconfigCache`): simplifying constructors, printer and parser, recording of dependencies and detection of loops, when
  evaluation ends, what a value means, and memoised values with selective invalidation.

`Options` and `Words` hold what several of these share: an option type and the bounds of machine integers.

Code that updates memory is a class whose methods change its fields; `Valid()` ties them to a ghost description (the
set of free blocks, the sequence of stored records, a map, a set of IDs), and the contracts are about that. Concurrent
code is a step function over a global state, and the theorems are about every run. Memory that is addressed by pointers
is a total function from names to contents: a tree node is named by its level and index prefix, a page by its number.

Where the code and the obvious reading of it part, the model follows the code, and the difference is a result:

- A masked interrupt line is always pending or disabled if and only if the chip has an `irq_unmask` callback, or has
  `irq_enable` and nothing that masks (`Restores`): `EdgeIrq.MaskedIsExplained` and `EdgeIrq.UnexplainedMask`.
- A dependency scan that passes does not make evaluation end: a tristate symbol whose value or visibility comes out as m
  reads MODULES, which the scan does not know. With MODULES defaulting to a tristate symbol that defaults to m, no
  number of calls is enough (`KconfigEnds.PassingScanMayLoop`). The evaluation of a symbol ends if and only if it never
  asks whether modules are enabled, or that of MODULES never does (`KconfigEnds.EvaluationEndsIff`). That MODULES needs
  no tristate symbol is sufficient (`KconfigDeps.Finalize`).
- A failing page allocation drains all other CPUs' caches but looks again only if the last of them was not empty. It
  finds a block if and only if there is one on the free lists or in its own cache, or the last other cache is not empty
  and there is one after the drain: `PageDrain.AllocPages`. `PageDrain.RunThatMisses` goes from boot to a page that is
  free and not found.
- The rule that a per-CPU cache's batch is never higher than its high is broken between the stores that set them up, and
  for good if and only if the zone has less than 8192 pages: `PageAlloc.ZonePagesetInit`. What is always kept is that a
  list that holds a page and has reached high holds at least a batch.
- The ID that a call of `idr_alloc_u32` hands out is in the range asked for if and only if `max`, of 32 bits, is not below
  the base of the IDR: `Idr.Idr.AllocU32`. Otherwise there is no such ID, and a new IDR gives one above `max`:
  `Idr.MaxBelowBase`.
- `xa_store_range` ends if and only if `last` is below ULONG_MAX: `XaRange.StoreRange`, `XaRange.StoreRangeToMax`.
- `ida_free` reports an ID that is not allocated if and only if another ID of its chunk of 1024 is; otherwise it
  follows a NULL pointer: `Ida.Ida.Free`.
- An expression with an `m` that no parser guarded means the same after printing and guarded parsing if and only if
  modules are enabled or its value is the same with `n` in place of that `m`: `KconfigParse.ReparseIsStable`,
  `KconfigParse.ReparseIsStableIff`, `KconfigParse.UnguardedChanges`.

## Model

| member | source | states |
|---|---|---|
| `Dyadic.BuddyFacts` | kernel/mm/internal.h:29-33 | flipping bit `order` of an aligned pfn gives the other half of the same parent, aligned, and flipping it again comes back |
| `Dyadic.MergeAddress` | kernel/mm/page_alloc.c:146-207 | `buddy_pfn & pfn` is the lower of the two halves and the address of their parent |
| `Dyadic.AlignedIsMaskTest` | kernel/mm/page_alloc.c:146-207 | the mask test finds exactly the multiples of 2^order |
| `Dyadic.FfsIsAlignment` | kernel/mm/page_alloc.c:487-501 | `__ffs` of a nonzero pfn is the largest order it is aligned to |
| `FreeBlocks.CoveredByOne` | kernel/mm/page_alloc.c:146-207 | in a coalesced set an aligned block of free pages lies inside a single free block |
| `FreeBlocks.Canonical` | kernel/mm/page_alloc.c:146-207 | two coalesced sets of aligned, disjoint blocks with the same pages are the same set: the free pages determine the free blocks |
| `FreeBlocks.MergeBlocks` | kernel/mm/page_alloc.c:146-207 | replacing two free buddies by their parent covers the same pages and leaves the rest coalesced |
| `BuddyZone.Zone.PageIsBuddyIffFree` | kernel/mm/page_alloc.c:127-144 | the page flags and the zones of the two pages answer exactly whether the buddy heads a block of that order on this zone's lists |
| `BuddyZone.Zone.MergeWithBuddy` | kernel/mm/page_alloc.c:146-207 | one merge keeps the lists well formed and moves exactly the buddy's pages into the growing block |
| `BuddyZone.Zone.MergesSoonIs` | kernel/mm/page_alloc.c:178-199 | for a block whose parent begins in the zone, the test for the tail of the list finds exactly that the parent's buddy is a free block |
| `BuddyZone.Zone.FreeOnePage` | kernel/mm/page_alloc.c:146-207 | exactly the freed pages become free, the lists stay aligned, disjoint and fully coalesced, and the merged block goes to the tail of its list exactly if its own parent may merge soon |
| `BuddyZone.Zone.Expand` | kernel/mm/page_alloc.c:566-580 | a block of order `high` becomes one of order `low` at the same pfn plus one upper half at the head of each list between, with no page lost |
| `BuddyZone.Zone.RmqueueSmallest` | kernel/mm/page_alloc.c:662-685 | fails exactly if no free block is large enough, and then changes nothing; else the head of the smallest sufficient list is split and exactly the returned pages stop being free |
| `BuddyZone.Zone.AllocThenFree` | kernel/mm/page_alloc.c:146-207 | allocating any order and freeing it again restores exactly the same set of free blocks |
| `BuddyZone.Zone.NrZoneFreePages` | kernel/mm/page_alloc.c:1353-1362 | the sum of nr_free << order is the number of free pages |
| `PageAlloc.ZoneBatchsize` | kernel/mm/page_alloc.c:1010-1039 | for a zone of any size, the largest 2^n - 1 with 2^n no more than one and a half times a 4096th of the zone, taken from 1 to 64; at most 63, and 0 exactly below 8192 pages |
| `PageAlloc.PagesetSetBatch` | kernel/mm/page_alloc.c:977-1008 | after each of the three stores a list that holds a page and has reached high holds at least a batch; batch is not higher than high after the first exactly if high was not 0, after the second and third exactly if the batch asked for is not 0 |
| `PageAlloc.ZonePagesetInit` | kernel/mm/page_alloc.c:967-1053 | so for a new cache the rule fails after the first store, and at the end exactly in a zone of less than 8192 pages, whose caches have high 0 and batch 1 |
| `PageAlloc.PageAllocator.FreePcppagesBulk` | kernel/mm/page_alloc.c:347-398 | exactly the last `count` pages of the list go to the buddy lists; callers never ask for more than the list holds |
| `PageAlloc.PageAllocator.GiveToBuddy` | kernel/mm/page_alloc.c:400-407 | exactly the block's pages become free |
| `PageAlloc.PageAllocator.FreeUnrefPageCommit` | kernel/mm/page_alloc.c:740-752 | the page goes to the front of the CPU's list, and a list that reaches high gives exactly its last batch back, so no cache outgrows its limit |
| `PageAlloc.PageAllocator.DrainPagesZone` | kernel/mm/page_alloc.c:754-772 | one CPU's list is emptied into the buddy lists and nothing else changes; the result says whether there was anything |
| `PageAlloc.PageAllocator.RmqueueBulk` | kernel/mm/page_alloc.c:702-730 | `count` different pages leave the buddy lists, fewer only if these run dry |
| `PageAlloc.PageAllocator.RmqueuePcplist` | kernel/mm/page_alloc.c:791-812 | the first page of the CPU's list that passes the check, with those before it dropped; if there is none, batches leave the buddy lists, a short one only if these are empty then, until one has a page that passes: that page is returned and those behind it are the list; none only if list and buddy lists are empty; no other page changes hands and no other CPU's list changes |
| `PageAlloc.DrawnGood` | kernel/mm/page_alloc.c:791-812 | so without failing pages, from an empty list and f free pages, min(batch, f) leave the buddy lists and all but the returned first one are the list |
| `PageAlloc.PageAllocator.CheckNewPages` | kernel/mm/page_alloc.c:624-635 | fails exactly if some page of the block fails its check |
| `PageAlloc.PageAllocator.RmqueueBlock` | kernel/mm/page_alloc.c:834-862 | a block all of whose pages pass; blocks with a failing page are dropped, nothing else moves; none only if no large enough block is left |
| `PageAlloc.PageAllocator.Rmqueue` | kernel/mm/page_alloc.c:834-862 | the caller gets an aligned block of pages that nobody holds, for order 0 as from the CPU's list; without one, no free block is large enough and nobody's pages have changed |
| `PageDrain.DrainOthers` | kernel/mm/page_alloc.c:883-888 | all other CPUs' caches are emptied into the buddy lists; the result is whether the last of them held a page |
| `PageDrain.AllocPages` | kernel/mm/page_alloc.c:868-923 | the caller gets a block of pages nobody used; with pages that pass the checks, exactly if there is one on the buddy lists or in its own cache, or the last other cache is not empty and there is one after the drain; a failed search has drained all other caches, and if the last held a page or all were empty, no block of that order is left |
| `PageDrain.SearchMayMiss` | kernel/mm/page_alloc.c:883-892 | in every state with a free page in another CPU's cache, none within reach and the last other cache empty, the allocation fails |
| `PageDrain.RunThatMisses` | kernel/mm/page_alloc.c:868-923 | for every zone of at least 8192 pages a run from boot to such a state: the pages are freed, CPU 0 takes all, CPU 1 gives one back, CPU 0 finds none |
| `PageAlloc.PageAllocator.FreePages` | kernel/mm/page_alloc.c:935-947 | exactly the caller's block is given up: to the CPU's cache or the buddy lists, or dropped if a page of it fails its check |
| `PageDrain.AllocThenFree` | kernel/mm/page_alloc.c:868-947 | allocating a block that is within reach and freeing it again restores the free blocks, all caches and the owner of every page; in any other case still the pages in use |
| `PageAlloc.PageAllocator.FreePagesBootCore` | kernel/mm/page_alloc.c:461-479 | the block comes under management and is free |
| `PageAlloc.TileOrder` | kernel/mm/page_alloc.c:487-501 | the order is the largest that alignment, the end of the range and MAX_ORDER allow |
| `PageAlloc.PageAllocator.FreePagesMemory` | kernel/mm/page_alloc.c:487-501 | the range is tiled exactly by aligned blocks, each as large as possible where it starts; all its pages end up free or in the CPU's cache, no others move but from that cache to the free lists, and managed_pages grows by the length of the range |
| `PageAlloc.PageAllocator.NrZonePercpuCachePages` | kernel/mm/page_alloc.c:1379-1388 | the sum of the caches' counts |
| `PageAlloc.PageAllocator.Account` | kernel/mm/page_alloc.c:1353-1388 | in every state, managed_pages is the sum of the free-list counters, the cache counters, the pages with callers and the dropped pages |
| `LogRecord.UsedSize` | kernel/core/printf.c:218-227 | the least multiple of the alignment that holds header, text and dictionary |
| `LogRecord.StoredReadsBack` | kernel/core/printf.c:140-151 | reading a stored record gives back every field that was stored, and a length that is not a wrap marker |
| `LogRecord.StoredFrame` | kernel/core/printf.c:256-312 | a record survives every write outside its own bytes |
| `LogLayout.WalkStep` | kernel/core/printf.c:140-169 | from the index of a record, also across a wrap marker, log_from_idx finds that record and log_next the index of the following one |
| `LogLayout.WalkYields` | kernel/core/printf.c:154-169 | a walk from the index of record k yields the records from k on, in order and intact |
| `LogLayout.EvictFirst` | kernel/core/printf.c:196-215 | dropping the oldest record leaves the others laid out as they were |
| `LogLayout.AppendAhead` | kernel/core/printf.c:256-312 | a record written behind the last one, where logbuf_has_space allows it, overwrites no live record and no marker |
| `LogLayout.AppendWrapped` | kernel/core/printf.c:256-312 | nor does a marker behind the last record with the new record at the start of the buffer |
| `LogBuffer.FillMessage` | kernel/core/printf.c:256-312 | the copies of log_store, in its order, leave exactly the bytes of the record and touch no others |
| `LogBuffer.SpaceIsRoom` | kernel/core/printf.c:171-194 | logbuf_has_space tells exactly whether size + header bytes that belong to no live record and no marker lie right behind the last record, or at the start of the buffer |
| `LogBuffer.TruncatedIs` | kernel/core/printf.c:229-254 | a truncated message keeps as much of its text as a quarter of the buffer holds, then the mark, and no dictionary |
| `LogBuffer.NothingRefused` | kernel/core/printf.c:229-254 | a buffer of 200 bytes or more takes every message, whole or truncated, wherever its indices stand |
| `LogBuffer.Log.EvictOne` | kernel/core/printf.c:196-215 | one turn gives up the oldest record and no other |
| `LogBuffer.Log.MakeFreeSpace` | kernel/core/printf.c:180-215 | drops the oldest records, each only if with it there was no room, and fails exactly if the record fits neither behind nor in front of the index of the emptied buffer |
| `LogBuffer.Log.Insert` | kernel/core/printf.c:256-312 | with room, the record is appended to the sequence of everything stored and all live records stay intact |
| `LogBuffer.Log.LogStore` | kernel/core/printf.c:237-312 | the message is stored whole, else truncated, else not at all; which, and the result, depends on its size and the write position alone, and no record is dropped with which there was room |
| `LogBuffer.Log.WalkIsLive` | kernel/core/printf.c:140-215 | after any run, following log_next from log_first_idx yields exactly the records log_first_seq to log_next_seq - 1 of everything stored |
| `LogBuffer.Log.ConsoleMsg` | kernel/core/printf.c:526-568 | console_idx is the position of record console_seq, whatever was stored or evicted since |
| `LogBuffer.Log.SkipSuppressed` | kernel/core/printf.c:526-568 | records above the log level are passed over one by one and change nothing of what is printed |
| `LogBuffer.Log.PrintNext` | kernel/core/printf.c:526-568 | one turn prints the first remaining line of the specified output |
| `LogBuffer.Log.ConsoleWrite` | kernel/core/printf.c:526-568 | one run visits each record from max(console_seq, log_first_seq) to log_next_seq - 1 once, in order, and prints those the level admits, with the number of lost records before the first |
| `McsLock.Unused` | kernel/core/locking/mcs_spinlock.h:64-95 | the lock can start out free with anything in the nodes |
| `McsLock.StepKeepsInv` | kernel/core/locking/mcs_spinlock.h:64-119 | every atomic step of every thread keeps the queue invariant, the queue growing only by xchg and shrinking only by hand-off or the last cmpxchg |
| `McsLock.RunInvariant` | kernel/core/locking/mcs_spinlock.h:64-119 | in every run the memory matches the queue that the run's own history of arrivals and releases describes |
| `McsLock.MutualExclusion` | kernel/core/locking/mcs_spinlock.h:64-119 | two threads that hold the lock are the same thread |
| `McsLock.GrantsInArrivalOrder` | kernel/core/locking/mcs_spinlock.h:64-119 | the lock is acquired, and released, in exactly the order of the xchg on the tail |
| `McsLock.TailNullIffFree` | kernel/core/locking/mcs_spinlock.h:64-119 | the tail is NULL exactly if nobody holds or waits |
| `McsLock.FailedCasHasSuccessor` | kernel/core/locking/mcs_spinlock.h:101-119 | after a failed cmpxchg there is a thread that has swapped itself in right behind and has stored, or is about to store, its address |
| `McsLock.SomebodyCanMove` | kernel/core/locking/mcs_spinlock.h:79-119 | while anyone holds or waits, some thread that holds or waits has a step that is not a spin |
| `McsLock.DrainIsBounded` | kernel/core/locking/mcs_spinlock.h:64-119 | without new requests at most eight steps per thread are possible that are not spins |
| `McsLock.CanDrain` | kernel/core/locking/mcs_spinlock.h:64-119 | from every reachable state there is a schedule of at most eight steps per thread, without new requests, after which all threads are idle and the tail is NULL |
| `RadixKeys.InTree` | kernel/lib/radix-tree.c:221-229 | an index is beyond a node's maximum exactly if it has digits above the node |
| `RadixKeys.BelowIs` | kernel/lib/radix-tree.c:162-171 | a slot leads to a member of a set exactly if one of the 64 slots below it does |
| `RadixMoves.ItemKeeps` | kernel/lib/radix-tree.c:780-853 | storing or removing one item changes one slot and one count and keeps every other node matched |
| `RadixMoves.ChildKeeps` | kernel/lib/radix-tree.c:558-605 | so does linking an empty child node |
| `RadixMoves.DropKeeps` | kernel/lib/radix-tree.c:503-540 | and unlinking one |
| `RadixMoves.BitKeeps` | kernel/lib/radix-tree.c:110-126 | changing one tag bit changes one bit of the description and nothing else |
| `RadixMoves.GrownKeeps` | kernel/lib/radix-tree.c:368-422 | a node above the root, with the tree in its first slot, keeps items, shape and tags |
| `RadixMoves.ShrunkKeeps` | kernel/lib/radix-tree.c:428-501 | as does removing a root with only its first slot in use |
| `RadixRoot.Root.Walk` | kernel/lib/radix-tree.c:706-738 | reaches the leaf slot of the index with its entry, or stops where nothing is stored below |
| `RadixRoot.Root.GrowRoot` | kernel/lib/radix-tree.c:368-422 | the tree is one level higher and means the same |
| `RadixRoot.Root.DownToLeaf` | kernel/lib/radix-tree.c:558-605 | the path to the index exists, with the new nodes empty; an index in the tree needs no new node |
| `RadixRoot.Root.AnyTagSet` | kernel/lib/radix-tree.c:162-171 | whether some slot of the node has the tag |
| `RadixRoot.Root.ClearUp` | kernel/lib/radix-tree.c:949-967 | climbing only while no other slot has the tag, the bits end up exact on every level |
| `RadixRoot.Root.ClearTag` | kernel/lib/radix-tree.c:949-967 | the index leaves the tag's set, and every bit above says so exactly |
| `RadixRoot.Root.RaiseUp` | kernel/lib/radix-tree.c:893-907 | climbing only to the first bit that is set already, the bits end up exact on every level |
| `RadixRoot.Root.PruneUp` | kernel/lib/radix-tree.c:503-540 | exactly the nodes on the path that lead to nothing any more go |
| `RadixRoot.Root.ShrinkOnce` | kernel/lib/radix-tree.c:428-501 | the tree is one level lower and means the same |
| `Radix.RadixTree.Lookup` | kernel/lib/radix-tree.c:706-778 | the value of the map at the index |
| `Radix.RadixTree.TagGet` | kernel/lib/radix-tree.c:1034-1060 | whether the index is in the tag's set |
| `Radix.RadixTree.Extend` | kernel/lib/radix-tree.c:368-422 | the lowest root level that covers the index, with items and tags as they were |
| `Radix.RadixTree.PrepareRoot` | kernel/lib/radix-tree.c:558-605 | a root high enough for the index and no higher than the items and the index need; for a present index nothing changes |
| `Radix.RadixTree.CreatePath` | kernel/lib/radix-tree.c:558-605 | the leaf of the index exists, and for a present index nothing changes |
| `Radix.RadixTree.Insert` | kernel/lib/radix-tree.c:641-690 | succeeds exactly if the index is unused, and then adds exactly this pair; a refused insertion changes no bit of the tree |
| `Radix.RadixTree.NodeTagClear` | kernel/lib/radix-tree.c:949-967 | exactly this index leaves the tag's set |
| `Radix.RadixTree.TagClear` | kernel/lib/radix-tree.c:983-1005 | exactly this index leaves the tag's set; the result is the item |
| `Radix.RadixTree.TagSet` | kernel/lib/radix-tree.c:922-947 | exactly this index joins the tag's set; the result is the item |
| `Radix.RadixTree.Delete` | kernel/lib/radix-tree.c:1360-1394 | exactly this index leaves the map and all tag sets; the result is what it had |
| `Radix.RadixTree.DeleteAt` | kernel/lib/radix-tree.c:1312-1328 | the same, from the leaf of a present index |
| `Radix.RadixTree.DeleteNode` | kernel/lib/radix-tree.c:503-540 | from a leaf that may be empty to the minimal tree of the map |
| `Radix.RadixTree.ShrinkRoot` | kernel/lib/radix-tree.c:428-501 | the root ends up no higher than the items need, a lone item 0 in the root itself |
| `Radix.NoEmptyNode` | kernel/lib/radix-tree.c:503-540 | in every tree each node's count is its number of slots in use, and not zero |
| `Radix.BitIsExact` | kernel/lib/radix-tree.c:922-1060 | in every tree a tag bit, on any level, is set exactly if some index below its slot is tagged |
| `Radix.InnerBitIsOr` | kernel/lib/radix-tree.c:893-967 | so the bit of an inner slot is the OR of the 64 bits below it |
| `Radix.TreeIsCanonical` | kernel/lib/radix-tree.c:368-605 | the map and the tag sets determine height, nodes, slots, counts, bits and root tags, whatever operations led there |
| `FreeTree.FreeBitIsExact` | kernel/lib/radix-tree.c:1419-1489 | a FREE bit, on any level, is set exactly if some index below its slot is free |
| `FreeTree.LowIsProduct` | kernel/lib/radix-tree.c:231-236 | the first index below a slot is its key times 64^level, the arithmetic of next_index |
| `FreeTree.Skipped` | kernel/lib/radix-tree.c:1419-1489 | below a run of slots without the FREE bit everything is taken |
| `FreeTree.FullTree` | kernel/lib/radix-tree.c:1419-1489 | a tree without the FREE bit at its root is full |
| `FreeTree.AddRoot` | kernel/lib/radix-tree.c:368-422 | growing a full tree marks all but its first slot free; bits stay exact |
| `FreeTree.CreatePath` | kernel/lib/radix-tree.c:1419-1489 | new nodes on the way to an index have all bits FREE, and all bits stay exact |
| `FreeTree.FindNextBit` | kernel/lib/radix-tree.c:189-211 | the least marked slot from an offset on |
| `FreeTree.ShrinkRoot` | kernel/lib/radix-tree.c:428-501 | the root bit after shrinking is that of the first slot; bits stay exact |
| `FreeTree.FellRoot` | kernel/lib/radix-tree.c:503-540 | an empty root goes only when nothing is allocated, and the root stays FREE |
| `Idr.Idr.ClimbUp` | kernel/lib/radix-tree.c:1419-1489 | from behind the last slot of a node to the node and slot where the next index is, or out of the tree |
| `Idr.Idr.SkipTaken` | kernel/lib/radix-tree.c:1419-1489 | everything between the old and the new candidate is taken |
| `Idr.Idr.Search` | kernel/lib/radix-tree.c:1419-1489 | in the present tree: the least free index from a start to a maximum with its leaf slot, or proof that none is, and then no node has been added |
| `Idr.Idr.GetFree` | kernel/lib/radix-tree.c:1419-1489 | the least free index from a start to a maximum, with a leaf slot for it; fails exactly if all are taken, and then nothing has changed |
| `Idr.Idr.Take` | kernel/lib/radix-tree.c:807-853 | exactly this index becomes allocated, with its pointer, also a NULL one |
| `Idr.Idr.AllocU32` | kernel/lib/idr.c:32-55 | the least unused index from that of max(nextid, base) to max - base in 64 bits, its ID in 32 bits; -ENOSPC exactly if there is none, and then nothing has changed; with a 32-bit max the ID is from max(nextid, base) to max exactly if base <= max |
| `Idr.MaxBelowBase` | kernel/lib/idr.c:32-55 | with a base above max an empty IDR hands out max(nextid, base), which is above max |
| `Idr.Idr.AllocCyclic` | kernel/lib/idr.c:114-132 | the least unused ID from idr_next on, or from start on exactly if all from idr_next to max are taken or idr_next is below start; fails exactly if all from start to max are taken; idr_next becomes the ID after it |
| `Idr.Idr.Find` | kernel/lib/idr.c:167-170 | the pointer stored for the ID, if it is allocated |
| `Idr.Idr.Remove` | kernel/lib/idr.c:148-151 | exactly this ID becomes unused; the result is its pointer |
| `Idr.Idr.AllocFindRemove` | kernel/lib/idr.c:32-170 | an ID that was handed out finds its pointer, removal returns it, and then the same IDs are allocated with the same pointers as before |
| `Idr.Idr.Release` | kernel/lib/radix-tree.c:1312-1328 | an allocated index, also one with a NULL pointer, becomes free and the tree minimal again |
| `Idr.Idr.Shrink` | kernel/lib/radix-tree.c:428-501 | the root ends up no higher than the allocated indices need, but stays a node |
| `Xarray.XArray.Load` | kernel/lib/xarray.c:173-239 | the entry of the index, with the state walked to it |
| `Xarray.XArray.FindMarked` | kernel/lib/xarray.c:1102-1174 | the least index with the FREE mark, present or not, from the state's index on or behind it, walked to; past the maximum only if every index up to it lacks the mark |
| `Xarray.XArray.FindInTree` | kernel/lib/xarray.c:1102-1174 | the same for the loop, from any slot of any node |
| `Xarray.XArray.Expand` | kernel/lib/xarray.c:529-594 | the tree covers the index, is no higher than entries and index need, and means the same |
| `Xarray.XArray.Create` | kernel/lib/xarray.c:609-661 | a slot for the index exists, the head itself for a lone index 0 |
| `Xarray.XArray.Store` | kernel/lib/xarray.c:740-809 | the map gains exactly this entry, no mark changes, and the state is at the entry |
| `Xarray.XArray.ClearMark` | kernel/lib/xarray.c:865-885 | exactly this index loses the FREE mark, with every bit above exact |
| `Xarray.XArray.SetMark` | kernel/lib/xarray.c:837-854 | exactly this index gains it |
| `Xarray.XArray.InitMarks` | kernel/lib/xarray.c:898-911 | FREE is set and the other marks stay clear |
| `Xarray.XArray.Erase` | kernel/lib/xarray.c:740-809 | exactly this index leaves the map and is marked FREE, and the tree is minimal again |
| `Xarray.XArray.DeleteNode` | kernel/lib/xarray.c:451-482 | from a leaf that may be empty to the minimal tree of the map |
| `Xarray.XArray.Shrink` | kernel/lib/xarray.c:409-442 | no higher than the entries need, with a lone entry 0 and its mark moved into the head |
| `Bits.SetBitIs` | kernel/lib/idr.c:368-463 | `tmp or 1 << bit` adds exactly this bit |
| `Bits.ClearBitIs` | kernel/lib/idr.c:472-510 | `v and not 1 << bit` removes exactly this bit |
| `Ida.Ida.NextZeroInValue` | kernel/lib/idr.c:368-463 | the least clear bit of a value from an offset on |
| `Ida.Ida.TakeInValue` | kernel/lib/idr.c:368-463 | one more ID in a chunk that is kept, or newly kept, as an inline value |
| `Ida.Ida.TakeInNewBitmap` | kernel/lib/idr.c:368-463 | a first ID beyond the inline bits of an absent chunk |
| `Ida.Ida.Convert` | kernel/lib/idr.c:368-463 | an inline value becomes a bitmap with the same IDs |
| `Ida.Ida.TakeInBitmap` | kernel/lib/idr.c:368-463 | one more ID in a bitmap, which loses the FREE mark exactly if it is full now |
| `Ida.Ida.TryChunk` | kernel/lib/idr.c:368-463 | the least unused ID of the chunk from an offset on, or proof that all of them up to the end of the chunk or of the range are taken; a chunk is kept as an inline value exactly as long as it has only had IDs that fit one |
| `Ida.Ida.AllocRange` | kernel/lib/idr.c:368-463 | the least unused ID from min to min(max, INT_MAX), which is then used; -ENOSPC exactly if there is none; its chunk is an inline value or a bitmap as above |
| `Ida.Ida.Free` | kernel/lib/idr.c:472-510 | an allocated ID, and only it, becomes unused; another is reported exactly if its chunk has an allocated ID, else NULL is followed |
| `Ida.Ida.FreeInValue` | kernel/lib/idr.c:472-510 | the ID leaves the inline value, and a chunk without IDs its entry |
| `Ida.Ida.FreeInBitmap` | kernel/lib/idr.c:472-510 | the ID leaves the bitmap, the chunk is marked FREE, and an empty bitmap goes |
| `Ida.MarkIsClearIffFull` | kernel/lib/idr.c:368-510 | the FREE mark of an entry is clear exactly if all 1024 IDs of its chunk are allocated, and then it is a full bitmap |
| `Ida.MarkLeadsToFreeId` | kernel/lib/xarray.c:837-885 | the mark of a slot on any level is set exactly if some ID below it is unused |
| `XaRange.SetRange` | kernel/lib/xarray.c:1489-1518 | an aligned block at `first`, inside the range and one node, such that neither a slot of the next level nor another sibling would fit; the sibling count never underflows |
| `XaRange.WidestIsUnique` | kernel/lib/xarray.c:1489-1518 | there is only one such block |
| `XaRange.ShiftWraps` | kernel/lib/xarray.c:1489-1518 | the last comparison gives the right answer although its left side may wrap in 64 bits |
| `XaRange.StoreRange` | kernel/lib/xarray.c:1538-1571 | for `last` below ULONG_MAX the loop ends and its blocks tile the range exactly |
| `XaRange.TilesCover` | kernel/lib/xarray.c:1538-1571 | every index of a tiled range is in exactly one block |
| `XaRange.StoreRangeToMax` | kernel/lib/xarray.c:1538-1571 | for `last` = ULONG_MAX the loop never ends: after tiling the range it goes on with an entry at index 0 |
| `SlubMoves.MergeKeeps` | kernel/mm/slab.c:377-399 | moving an object from the CPU's list to the slab's keeps the ownership invariant |
| `SlubMoves.UnfreezeKeeps` | kernel/mm/slab.c:345-372 | so does letting go of a slab: to the partial list if it has free objects, or back to the page allocator if all are free and the list is long enough |
| `SlubMoves.FreeSlowKeeps` | kernel/mm/slab.c:541-580 | and a free to a slab that is not the CPU's own |
| `Slub.KmemCache.NewSlab` | kernel/mm/slab.c:177-213 | the free list threads all objects of the page once, in order |
| `Slub.KmemCache.DeactivateSlab` | kernel/mm/slab.c:345-399 | the CPU's list goes in front of the slab's, last object first; a slab in use with a free object goes to the head of the partial list, an unused one to the tail or back if the list is long enough; no object changes hands and no other slab changes |
| `Slub.KmemCache.LoadFreelist` | kernel/mm/slab.c:448-493 | hands out the first object of the slab's list and leaves the CPU the others in order; without one nothing changes |
| `Slub.KmemCache.GetPartial` | kernel/mm/slab.c:293-336 | finds a slab exactly if the partial list has one, and it has a free object |
| `Slub.KmemCache.AddNewSlab` | kernel/mm/slab.c:448-493 | the new slab is current and all its objects are free |
| `Slub.KmemCache.SlabAllocSlow` | kernel/mm/slab.c:448-493 | the first free object of the current slab, else of the first slab on the partial list, which leaves it, else of a new slab, and only then a page is taken; the rest of that list is the CPU's; fails exactly if there is none of these |
| `Slub.KmemCache.SlabAlloc` | kernel/mm/slab.c:505-526 | the first object of the CPU's own list, and nothing else changes; without one as before |
| `Slub.KmemCache.SlabFreeSlow` | kernel/mm/slab.c:541-580 | the object becomes the first of its slab's list; an unfrozen slab that is unused then goes back, one that was full goes to the tail of the partial list, any other stays where it is |
| `Slub.KmemCache.SlabFree` | kernel/mm/slab.c:593-610 | exactly the freed object changes hands; one of the CPU's own slab becomes the first of its list, any other goes the slow way; no other list changes |
| `Slub.KmemCache.AllocThenFree` | kernel/mm/slab.c:505-610 | an object taken from the CPU's list and given back leaves all lists as they were |
| `Slub.KmemCache.CallerWrites` | kernel/mm/slab.c:128-136 | whatever a caller writes into its object, also over the free pointer, is there and disturbs no free list |
| `Slub.ExactlyOnePlace` | kernel/mm/slab.c:448-610 | in every state an object of a live slab is with a caller, on its slab's list, or on one CPU's list, and in one of these only |
| `Slub.FrozenIffCurrent` | kernel/mm/slab.c:293-399 | a slab is frozen exactly if it is some CPU's current slab, and of one CPU only |
| `Slub.PartialIffFree` | kernel/mm/slab.c:261-372 | an unfrozen slab is on the partial list exactly if it has a free object; inuse, nr_partial and nr_slabs count what they claim |
| `SmpCall.Booted` | kernel/core/smp.c:37-57 | with empty queues and unlocked csds, all CPUs can start from any memory |
| `SmpCall.StepKeepsInv` | kernel/core/smp.c:66-258 | every step of every caller and handler keeps the invariant of locks, queues, batches and histories |
| `SmpCall.RunIsGood` | kernel/core/smp.c:66-258 | it holds after every run, for any number of CPUs |
| `SmpCall.NoLostWakeup` | kernel/core/smp.c:101-142 | a nonempty queue has an interrupt pending, one about to be sent, or a handler that has not emptied it yet |
| `SmpCall.RunsInOrder` | kernel/core/smp.c:169-210 | what has run on a CPU is a prefix of what was queued for it, with the values the callers stored, in llist_add order, and all of it once queue and handler are done |
| `SmpCall.QueuedOnce` | kernel/core/smp.c:101-142 | no call is queued twice, on one queue or two |
| `SmpCall.ReturnsAfterRun` | kernel/core/smp.c:220-258 | a waiting caller that returns success returns after its own call has run on its target |
| `SmpCall.WaiterIsServed` | kernel/core/smp.c:220-258 | while it waits, its target's handler is at work, interrupted or about to be |
| `SmpCall.HandlerMoves` | kernel/core/smp.c:169-210 | each step of a handler at work lowers the number of steps it has left by one |
| `SmpCall.HandlerFinishes` | kernel/core/smp.c:169-210 | so a handler that has taken its queue is done within that many turns, whatever all others do meanwhile |
| `SmpCall.TraversalUndisturbed` | kernel/core/smp.c:169-210 | no step elsewhere, re-queueing included, changes what the handler has yet to visit |
| `SmpCall.UnlocksOnlyLocked` | kernel/core/smp.c:71-92 | csd_unlock meets only locked csds |
| `SmpAnswer.AnswerIsRight` | kernel/core/smp.c:101-142 | after every run: a call returns -ENXIO exactly if its target is another CPU that is not online, and then it was never queued or run; else 0, and it is on its target's queue or has run here |
| `SmpAnswer.CallIsAnswered` | kernel/core/smp.c:220-258 | every call from entry to return, whatever happens meanwhile: the caller works on just this call, and when it has returned the call was queued, or run, with its function and argument on its target, unless that is offline; a waiting call has run there |
| `SmpSettle.CallsAreBounded` | kernel/core/smp.c:66-258 | from every reachable state, without new calls, the number of steps that do something is bounded |
| `SmpSettle.StuckIsSettled` | kernel/core/smp.c:66-258 | and where there is none left, all calls have returned, all queues are empty and everything that was queued has run: no call waits for ever |
| `EdgeIrq.Fresh` | kernel/core/irq/irqdesc.c:64-85 | a new descriptor is disabled, masked, idle and without an action, whatever callbacks its chip has |
| `EdgeIrq.StepKeepsInv` | kernel/core/irq/chip.c:712-761 | every step of every CPU keeps the invariant of lock, handler flag and line state |
| `EdgeIrq.HandlersNeverOverlap` | kernel/core/irq/handle.c:105-118 | the handlers of one descriptor never run on two CPUs |
| `EdgeIrq.EdgeNotLost` | kernel/core/irq/chip.c:712-761 | after an edge its CPU is still entering, or a handler run has started since, or PENDING is set |
| `EdgeIrq.EveryEdgeServed` | kernel/core/irq/chip.c:712-761 | on a line that stays enabled, once all is quiet a handler run has started since the edge and nothing is left pending, also not from a time when it was disabled, or, with a chip that restores, masked |
| `EdgeIrq.TurnHolds` | kernel/core/irq/chip.c:307-413 | once irq_enable or irq_disable has returned, and until somebody does the opposite, the line is enabled or disabled, and no handlers are started on a line that is disabled |
| `EdgeIrq.StartsAreRight` | kernel/core/irq/chip.c:712-761 | handlers are started only on an enabled line with an action, and never while others run |
| `EdgeIrq.EdgeSection` | kernel/core/irq/chip.c:712-761 | handle_edge_irq up to the handlers, as one change: an edge that cannot be handled is recorded and the line masked, if the chip can; any other clears PENDING, unmasks a line that was pending, if the chip can, and runs the handlers |
| `EdgeIrq.ReturnSection` | kernel/core/irq/chip.c:739-757 | after the handlers: once more exactly if an edge came and the line is enabled with an action |
| `EdgeIrq.EnableSection` | kernel/core/irq/chip.c:307-320 | irq_enable, as one change |
| `EdgeIrq.DisableSection` | kernel/core/irq/chip.c:322-336 | __irq_disable, as one change: without a callback and if not asked to mask, only the disabled bit |
| `EdgeIrq.SectionIsAtomic` | kernel/core/irq/chip.c:712-761 | and they are done like this whatever the other CPUs do meanwhile |
| `EdgeIrq.MaskedIsExplained` | kernel/core/irq/chip.c:307-413 | with a chip that restores, a masked line is pending or disabled or being enabled, in every run |
| `EdgeIrq.UnexplainedMask` | kernel/core/irq/chip.c:381-413 | with any other chip some run leaves a line masked that is enabled and not pending |
| `KconfigExpr.HoldsIsOrder` | scripts/kconfig/kconfiglib.py:5992-6046 | the six relations are those of one order, each determined by its opposite |
| `KconfigExpr.ShortCircuitIsExact` | scripts/kconfig/kconfiglib.py:5992-6046 | evaluation that stops early gives the value of the full definition |
| `KconfigExpr.MakeAndIsMin` | scripts/kconfig/kconfiglib.py:2867-2879 | the simplified conjunction has the lesser of the values, under every assignment |
| `KconfigExpr.MakeOrIsMax` | scripts/kconfig/kconfiglib.py:2881-2893 | the simplified disjunction has the greater |
| `KconfigExpr.SimplifyRemovesConstants` | scripts/kconfig/kconfiglib.py:2867-2893 | operands without constant subterms give a result without |
| `KconfigParse.Parser.ParseExpr` | scripts/kconfig/kconfiglib.py:3380-3419 | reads exactly what the grammar of OR chains reads, from the same token to the same token, and fails exactly if it does |
| `KconfigParse.Parser.ParseAndExpr` | scripts/kconfig/kconfiglib.py:3421-3428 | likewise for AND chains |
| `KconfigParse.Parser.ParseFactor` | scripts/kconfig/kconfiglib.py:3430-3464 | likewise for symbols, relations, negation and parentheses, with `m` guarded where asked |
| `KconfigParse.ReadExpr` | scripts/kconfig/kconfiglib.py:6064-6105 | a printed expression in front of more tokens is read back with its meaning |
| `KconfigTokens.ExprSpelled` | scripts/kconfig/kconfiglib.py:3380-3464 | whatever is read, is read from balanced parentheses and otherwise just the tokens that the expression consists of, in their order |
| `KconfigTokens.Precedence` | scripts/kconfig/kconfiglib.py:3380-3464 | without parentheses it is an OR of ANDs of factors, each nested to the right |
| `KconfigParse.ExprIsGuarded` | scripts/kconfig/kconfiglib.py:3430-3464 | a parser that guards `m` leaves none unguarded |
| `KconfigParse.PrintParseRoundTrip` | scripts/kconfig/kconfiglib.py:6064-6105 | printing what the parser built and parsing it the same way reads all tokens and gives the same value under every assignment |
| `KconfigParse.ReparseMeans` | scripts/kconfig/kconfiglib.py:6064-6105 | any expression, printed and parsed, is read to its end and means what it meant or, if `m` is guarded, what it meant with `m` lowered to MODULES |
| `KconfigParse.ReparseIsStable` | scripts/kconfig/kconfiglib.py:3430-3464 | so its value is the same if `m` is guarded already or modules are enabled |
| `KconfigParse.ReparseIsStableIff` | scripts/kconfig/kconfiglib.py:3430-3464 | and with modules disabled exactly if it is the same with `n` in place of every `m` outside relations, which for a guarded `m` makes no difference |
| `KconfigParse.ReparseReassociates` | scripts/kconfig/kconfiglib.py:6064-6105 | but not always the same expression: left-nested chains come back right-nested |
| `KconfigParse.UnguardedChanges` | scripts/kconfig/kconfiglib.py:3430-3464 | an `m` nobody guarded changes its value when MODULES is n |
| `KconfigLoop.Checker.CheckSym` | scripts/kconfig/kconfiglib.py:6568-6640 | a search ends with everything below finished, or with a chain that closes into a real cycle on the way back |
| `KconfigLoop.Unwind` | scripts/kconfig/kconfiglib.py:6677-6723 | each step back lengthens the chain by a real dependency or finds that it is a cycle |
| `KconfigLoop.Checker.CheckAll` | scripts/kconfig/kconfiglib.py:1117-1120 | raises exactly if a cycle can be reached from the defined symbols, and what it reports is such a cycle |
| `KconfigLoop.NoBlackCycle` | scripts/kconfig/kconfiglib.py:6568-6640 | no cycle passes through a finished symbol |
| `KconfigLoop.ScanFounds` | scripts/kconfig/kconfiglib.py:1117-1120 | after a scan without a loop, a measure falls along every read that the recorded dependencies allow, if MODULES needs no tristate symbol |
| `KconfigLoop.FoundedOnlyIfApart` | scripts/kconfig/kconfiglib.py:4278-4288 | and for these reads only then |
| `KconfigDeps.Builder.DependOn` | scripts/kconfig/kconfiglib.py:6320-6336 | the symbol becomes a dependent of exactly the symbols that the expression mentions and that are not constants |
| `KconfigDeps.Builder.BuildDep` | scripts/kconfig/kconfiglib.py:3470-3512 | the dependents of a symbol are exactly those whose prompts, defaults, selects, implies or dependencies mention it |
| `KconfigDeps.BuiltIsComplete` | scripts/kconfig/kconfiglib.py:3470-3512 | dependents recorded like this are complete: a measure for the recorded reads makes evaluation well founded |
| `KconfigDeps.ScanRanks` | scripts/kconfig/kconfiglib.py:6568-6640 | after a scan without a loop everything that a definition mentions has a lower rank |
| `KconfigDeps.Finalize` | scripts/kconfig/kconfiglib.py:1112-1120 | records and scans: raises exactly if there is a cycle among the defined symbols; else all mentions are ranked, and evaluation is well founded if MODULES needs no tristate symbol |
| `KconfigEnds.EvaluationEndsIff` | scripts/kconfig/kconfiglib.py:4278-4288 | after a scan without a loop the evaluation of a symbol ends exactly if it does not ask whether modules are enabled, or that of MODULES does not |
| `KconfigEnds.FoundedEnds` | scripts/kconfig/kconfiglib.py:4432-4509 | where evaluation is well founded it ends, within as many nested calls as the measure says, with the value of the definition |
| `KconfigEnds.FoundedVal` | scripts/kconfig/kconfiglib.py:4432-4509 | so the value and the visibility from scratch are those of the definition |
| `KconfigEnds.TwoSymbolsPass` | scripts/kconfig/kconfiglib.py:6568-6640 | MODULES defaulting to a tristate symbol with default `m` or `y`: the scan passes |
| `KconfigEnds.PassingScanMayLoop` | scripts/kconfig/kconfiglib.py:4278-4288 | with `m` no number of nested calls is enough for either symbol |
| `KconfigEnds.PassingScanMayEnd` | scripts/kconfig/kconfiglib.py:4278-4288 | with `y` two are, although MODULES needs a tristate symbol |
| `KconfigLaws.VisibilityIs` | scripts/kconfig/kconfiglib.py:6290-6318 | the visibility is the largest of the prompt conditions, with m raised to y unless the symbol is tristate and modules are enabled |
| `KconfigLaws.ValueIs` | scripts/kconfig/kconfiglib.py:4432-4509 | the value of every symbol whose evaluation ends, in one equation over the meanings of its expressions when all symbols have their values |
| `KconfigLaws.SelectForces` | scripts/kconfig/kconfiglib.py:4483-4490 | it is never below that of the reverse dependencies |
| `KconfigLaws.WhenM` | scripts/kconfig/kconfiglib.py:4492-4496 | it is m only for a tristate symbol with modules enabled that is not implied by y |
| `KconfigLaws.UserValueCounts` | scripts/kconfig/kconfiglib.py:4460-4462 | a visible symbol that is not selected has the user's value, limited by the visibility |
| `KconfigLaws.DefaultCounts` | scripts/kconfig/kconfiglib.py:4464-4474 | else, if not implied, the first default whose condition is met decides, limited by the condition, and n if there is none |
| `KconfigLaws.ImplyRaises` | scripts/kconfig/kconfiglib.py:4476-4481 | an imply raises that, if the direct dependencies are met |
| `KconfigLaws.PromptlessIgnoresUser` | scripts/kconfig/kconfiglib.py:6290-6318 | a symbol without a prompt takes no value from the user |
| `KconfigEval.TriRecorded` | scripts/kconfig/kconfiglib.py:4432-4509 | every symbol whose value can reach another's is recorded as having it as a dependent, whatever the evaluation skipped |
| `KconfigEval.TriStable` | scripts/kconfig/kconfiglib.py:4432-4509 | a value changes only if an assignment to something it reads does |
| `KconfigCache.BuiltCompletes` | scripts/kconfig/kconfiglib.py:3470-3512 | the dependents that _build_dep records are all that the cache needs |
| `KconfigCache.FoundedCompletes` | scripts/kconfig/kconfiglib.py:3470-3512 | and so are any that make evaluation well founded |
| `KconfigCache.Evaluator.ExprValue` | scripts/kconfig/kconfiglib.py:5992-6046 | through the cache, the value of the expression from scratch if n nested calls are enough for that, and always one that follows from what is cached then |
| `KconfigCache.Evaluator.Visibility` | scripts/kconfig/kconfiglib.py:6290-6318 | through the cache, the visibility from scratch if n nested calls are enough for that, and never another one |
| `KconfigCache.Evaluator.TriValue` | scripts/kconfig/kconfiglib.py:4432-4509 | through the cache, the value from scratch if n nested calls are enough for that, and never another one |
| `KconfigCache.CacheIsRight` | scripts/kconfig/kconfiglib.py:4432-4509 | in every state, whatever was read, set and unset before, each cached value and visibility is that of an evaluation from scratch, which ends, under the present assignment; also where the evaluation of other symbols does not end |
| `KconfigCache.Evaluator.Invalidate` | scripts/kconfig/kconfiglib.py:4863-4867 | exactly this symbol's entries go |
| `KconfigCache.Evaluator.InvalidateAll` | scripts/kconfig/kconfiglib.py:3545-3553 | no defined symbol has a cached value left |
| `KconfigCache.Evaluator.RecInvalidate` | scripts/kconfig/kconfiglib.py:4869-4898 | the symbol is not cached any more, and what is cached follows without it although the descent stops at symbols without a cached visibility; it ends, also on cyclic dependencies, since the number of cached symbols falls |
| `KconfigCache.Restored` | scripts/kconfig/kconfiglib.py:4900-4920 | what is cached after an invalidation follows from the rest of the cache under the new assignment |
| `KconfigCache.Evaluator.SetValue` | scripts/kconfig/kconfiglib.py:4562-4649 | accepts exactly the values the type admits or that are set already, and leaves a cache that agrees with evaluation from scratch |
| `KconfigCache.Evaluator.UnsetValue` | scripts/kconfig/kconfiglib.py:4651-4659 | the assignment goes, and the cache agrees with evaluation from scratch |

## Left out

- Memory ordering, barriers and RCU: every atomic primitive is one sequentially consistent step.
- Allocation failure of tree nodes, bitmaps and csds with its retry paths; where a page or slab cannot be had is modelled.
- Object identity of tree nodes and bitmaps: a node is named by its level and prefix, a bitmap by its chunk, so that reuse of an address is not modelled.
- The wrap-around of shift_maxindex at the topmost level: indices are unbounded and a tree may be of any height.
- Multi-index stores, xas_find_conflict, xa_find_after, xas_create_range, xas_pause and the entry counts of values in nodes; of xa_store_range, the entries that are in the way of its blocks.
- Gang lookups, iteration, idr_for_each, idr_replace and ida_destroy, which only read or repeat the operations that are here.
- smp_call_function_many and its per-CPU csds: the single-target path is modelled.
- CPU hotplug, and calls to offline CPUs beyond their error.
- kmem_cache teardown, merging of caches, size tables and poisoning.
- Idr.Idr.Take: the call of delete_node is an assertion that the node is in use, so that the call does nothing.
- Which CPUs are online while a search drains them: all CPUs are, and their number is fixed.
- Slub.KmemCache.AddNewSlab: the flush of a current slab before the new one is installed is an assertion that there is none, because an operation with interrupts off is one step.
- Bad-page reports, compound pages, gfp flags and the iteration over memblock regions; which pages fail the state check is a parameter.
- Time stamps, prefixes, continuation lines, log levels beyond the suppression test and early consoles.
- LogBuffer.Log.LogStore: text and dictionary are short enough for the 16-bit length of a record, as they are for all callers.
- irq startup, shutdown, nested disabling (depth), wakeup, polling and affinity; threaded handlers.
- Fairness of the scheduler: the theorems say which steps exist and bound how many there can be.
- Kconfig choices, int, hex and string symbols, ranges, files, the preprocessor, the tokenizer and warnings.
- The limit on recursion is counted in nested calls of tri_value, not in all frames of the interpreter.
