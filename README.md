# oslab2 memory allocators in Dafny

This project models the two allocators of the oslab2 kernel and proves properties of them.

**The buddy page allocator** (`kern/mm/buddy_pmm.c`) keeps:
- 32 free lists, one per order, each with its `nr_free` counter;
- a `max_order`;
- the free page total `buddy_total_free_pages`;
- in each frame descriptor, a head flag (`PageProperty`) and an order (`property`).

How it works:
- `init_memmap` cuts a frame range greedily into maximal aligned power-of-two blocks.
- `alloc_pages(n)` rounds `n` up to `2^ceil_log2(n)`. It takes the first block of the first non-empty list at or above that order, and pushes the upper halves while splitting it down.
- `free_pages` merges the block with its buddy `idx ^ 2^order` order by order and pushes the result.

**The slab layer** (`kern/mm/slub.c`, `slub.h`) does three things:
- It carves blocks from the page allocator into slabs of fixed-size objects. Each slab has a header at its first byte and a freelist threaded through the free objects.
- It keeps, for each cache, the lists `partial`, `full` and `empty`.
- It serves `kmalloc`/`kfree` from ten size classes of 8 to 4096 bytes. Larger requests go straight to the page allocator.

Modules:

| module | file | contents |
|---|---|---|
| `Wrappers` | `wrappers.dfy` | `Option`, which stands for a NULL result |
| `Arith` | `arith.dfy` | powers of two, the two logarithms, alignment, the buddy index as `x ± 2^k` by bit `k` |
| `BuddyPmm` | `buddy_pmm.dfy` | the loops computing logarithms and fitting orders, and the pure definitions the allocator is specified by: the greedy partition, list erasure, the page sum, the split blocks, the order scan, the merge chain |
| `BuddyState` | `buddy_state.dfy` | class `BuddyAllocator`, whose fields are the globals of `buddy_pmm.c`, with its invariant and every operation as a method |
| `SlubLayout` | `slub_layout.dfy` | `round_up`, `compute_layout`, the `slab_build` loop, address masking, the size classes and the order `kmalloc_init` picks for each |
| `SlubHeap` | `slub_heap.dfy` | the well-formedness of cache and slab headers and of the blocks they occupy, and the header updates of `kmem_cache_alloc`/`kmem_cache_free` |
| `SlubSteps` | `slub_steps.dfy` | relations describing one call of `kmem_cache_alloc`, `kmem_cache_free` or the large path of `kmalloc`, from the state before to the state after |
| `Slub` | `slub.dfy` | lemmas about those steps, and the class `SlubAllocator`: the slab layer on top of a `BuddyAllocator` |

How the model represents the C structures:
- A frame is an index. Frame `i` starts at byte `i * PGSIZE`, so `va_pa_offset` is taken as 0.
- A cache and a slab are each identified by the frame that holds its header. The headers are values in the maps `caches` and `slabs` of `SlubAllocator`.
- `owned` maps each block the slab layer holds to its order.
- An intrusive list is a sequence of head indices, front first.

## Model

| member | source | states |
|---|---|---|
| Arith.CeilLog2 | buddy_pmm.c:19-23 | 2^k >= n, 2^(k-1) < n when k > 0, and k = 0 for n <= 1 |
| Arith.CeilLog2Unique | buddy_pmm.c:19-23 | any k with 2^k >= n and 2^(k-1) < n is ceil_log2(n) |
| Arith.CeilLog2Pow2 | buddy_pmm.c:19-23 | a request of exactly 2^k pages gets order k |
| Arith.FloorLog2 | buddy_pmm.c:55-59 | 2^k <= t < 2^(k+1) for t >= 1 |
| Arith.FloorLog2Unique | buddy_pmm.c:55-59 | that bracket determines k |
| Arith.AlignedMod | buddy_pmm.c:25-30 | the test of check_block_alignment, low k bits zero, holds iff idx is a multiple of 2^k |
| Arith.BuddyFacts | buddy_pmm.c:179-200 | for an aligned block, the buddy idx ^ 2^k is aligned, taking the buddy twice gives idx back, and the lower of the pair is aligned to 2^(k+1) and is the same from either side |
| Arith.BuddyInRange | buddy_pmm.c:179-180 | in a range whose ends are multiples of 2^(k+1), an aligned block's buddy is in the range |
| BuddyPmm.CeilLog2Pages | buddy_pmm.c:19-23 | the doubling loop returns the least k with 2^k >= n |
| BuddyPmm.CalcMaxOrderByTotal | buddy_pmm.c:55-59 | for total < 2^31, the loop returns the largest k with 2^k <= total (0 for total <= 1), and k <= 30 |
| BuddyPmm.FitOrder | buddy_pmm.c:93-100 | the result is -1 or an order <= max_order whose block fits and is aligned, no higher order fits, and it is not -1 when a frame remains |
| BuddyPmm.MaxOrderFit | buddy_pmm.c:93-100 | the downward scan returns FitOrder |
| BuddyPmm.FitOrderMaximal | buddy_pmm.c:93-100 | an order that fits, with no higher order fitting, is what the scan returns |
| BuddyPmm.FitOrderNone | buddy_pmm.c:93-100 | when no order fits the scan returns -1 |
| BuddyPmm.PartitionTiles | buddy_pmm.c:124-134 | the blocks init_memmap pushes lie end to end and cover [base, base + n) exactly |
| BuddyPmm.PartitionBlocksFit | buddy_pmm.c:124-134 | each pushed block lies in the range, is aligned to its size, has order <= max_order and is the largest such block at its head |
| BuddyPmm.Erase | buddy_pmm.c:81-83 | list_del of a node keeps the nodes before it and shifts the nodes after it |
| BuddyPmm.EraseFront | buddy_pmm.c:86-90 | popping the front node leaves the tail |
| BuddyPmm.EraseFirst | buddy_pmm.c:185-196 | erasing the first node equal to the buddy removes its first occurrence |
| BuddyPmm.RemoveFirstLength | buddy_pmm.c:189-191 | removing a listed head shortens the list by one, matching nr_free-- |
| BuddyPmm.SumUpdate | buddy_pmm.c:214-216 | replacing list k changes the page sum by the change in its length times 2^k |
| BuddyPmm.SplitBlocks | buddy_pmm.c:155-160 | one block per split step, j - need in all |
| BuddyPmm.PushedSplit | buddy_pmm.c:155-160 | splitting blk from order j to need puts exactly blk + 2^k on list k for need <= k < j, and nothing on any other list |
| BuddyPmm.FirstNonEmpty | buddy_pmm.c:146-148 | the scan result is the first order in [need, max_order] with a non-empty list, or max_order + 1 when every list there is empty |
| BuddyPmm.MergeHeadShift | buddy_pmm.c:200 | when the block is the lower of its pair, the merge chain goes on from the same head |
| BuddyPmm.MergeHeadContains | buddy_pmm.c:178-202 | every head on the merge chain is aligned to its order, lies at or below the freed block and its block contains the freed block |
| BuddyState.BuddyAllocator.constructor | buddy_pmm.c:105-108 | a table of unflagged frames after buddy_init: the invariant holds, the lists are empty, the free total and max_order are 0 |
| BuddyState.BuddyAllocator.ListsClear | buddy_pmm.c:61-70 | all 32 lists empty, every nr_free 0, the free total 0, frames and max_order untouched |
| BuddyState.BuddyAllocator.Init | buddy_pmm.c:105-108 | the invariant holds, with empty lists, a free total of 0 and max_order 0 |
| BuddyState.BuddyAllocator.NrFreePages | buddy_pmm.c:214-216 | the free total equals the sum of nr_free[k] * 2^k |
| BuddyState.BuddyAllocator.Push | buddy_pmm.c:73-78 | h becomes a flagged head of order k at the front of list k, nr_free[k] grows by one and the page sum by 2^k, and the list shape is kept |
| BuddyState.BuddyAllocator.Pop | buddy_pmm.c:86-90 | the node at pos, a flagged aligned head of order k, leaves the list with its flag cleared; nr_free[k] drops by one and the page sum by 2^k; no free block overlaps the popped block |
| BuddyState.BuddyAllocator.ClearFlags | buddy_pmm.c:119-122 | the flags of exactly the frames [base, base + n) are cleared |
| BuddyState.BuddyAllocator.InitMemmap | buddy_pmm.c:111-137 | n = 0 changes nothing; otherwise max_order becomes max(max_order, floor_log2(npage - nbase)), the cap at 31 never applying below 2^31 frames; the lists and descriptors become the pushes of the greedy partition, the free total grows by n, and only frames of [base, base + n) gain free blocks |
| BuddyState.BuddyAllocator.PushRange | buddy_pmm.c:124-134 | the partition loop pushes exactly Partition(base, n, max_order) and adds n pages to the sum |
| BuddyState.BuddyAllocator.ScanOrders | buddy_pmm.c:146-148 | the order scan returns FirstNonEmpty |
| BuddyState.BuddyAllocator.AllocPages | buddy_pmm.c:139-166 | NULL, with nothing changed, iff n = 0, n exceeds the free total or no list from ceil_log2(n) to max_order has a block. Otherwise: the front block of the first such list, aligned to 2^need and on no list, after pushing the upper halves; the free total drops by 2^need |
| BuddyState.BuddyAllocator.TakeBlock | buddy_pmm.c:150-165 | pop the front of list j, split it to order need, and take 2^need pages off the free total |
| BuddyState.BuddyAllocator.SplitDown | buddy_pmm.c:155-160 | the split loop pushes SplitBlocks(blk, j, need) and leaves [blk, blk + 2^need) clear of free blocks |
| BuddyState.BuddyAllocator.SplitOnce | buddy_pmm.c:156-158 | one split pushes the upper half blk + 2^(u-1) on list u - 1 |
| BuddyState.BuddyAllocator.AlignedTableClosed | buddy_pmm.c:179-180 | a frame table whose ends are multiples of 2^max_order has every buddy lookup below max_order inside it |
| BuddyState.BuddyAllocator.ChainHeads | buddy_pmm.c:178-202 | in such a table each merged head is in the table and aligned to its order |
| BuddyState.BuddyAllocator.ClosedChain | buddy_pmm.c:179-180 | in such a table every buddy looked up along the merge chain lies in the table |
| BuddyState.BuddyAllocator.Find | buddy_pmm.c:185-196 | the scan of list k returns the first position holding x, or -1 iff x is not listed |
| BuddyState.BuddyAllocator.TryMerge | buddy_pmm.c:183-198 | merged iff the buddy is flagged with order k and listed on list k; then it leaves the list with its flag cleared and the page sum drops by 2^k; otherwise nothing changes |
| BuddyState.BuddyAllocator.MergeOnce | buddy_pmm.c:179-201 | one round continues with the lower head at order k + 1 when the buddy merged, and stops otherwise, as the Merge relation says |
| BuddyState.BuddyAllocator.MergeChain | buddy_pmm.c:178-202 | the merge loop ends in the head, order, descriptors and lists that Merge describes, the head lying on the merge chain |
| BuddyState.BuddyAllocator.FreePages | buddy_pmm.c:169-211 | n = 0 changes nothing. Otherwise one block of the final order is pushed, headed at the merge chain's lower head, on the lists with the merged buddies removed; the free total grows by 2^ceil_log2(n); the invariant holds |
| BuddyState.BuddyAllocator.AllocThenFree | buddy_pmm.c:235-241 | allocating n pages and freeing them restores the free total |
| BuddyState.BuddyAllocator.RemergeHalves | buddy_pmm.c:245-253 | after alloc_pages(8), freeing the right half and then the left half restores the free total, and the 8 pages lie inside one free block |
| BuddyState.BuddyAllocator.FreeHalves | buddy_pmm.c:248-252 | the two frees of the halves of an allocated aligned 8-page block add 8 pages and leave it inside one free block |
| BuddyState.PushKeepsShape | buddy_pmm.c:73-78 | push keeps every listed head flagged with its list's order and aligned, heads unrepeated, every flag listed, and free blocks disjoint |
| BuddyState.PopKeepsShape | buddy_pmm.c:86-90 | pop keeps that shape |
| BuddyState.PopAvoids | buddy_pmm.c:150-152 | a popped block lies in the table and overlaps no remaining free block |
| BuddyState.PushAllIs | buddy_pmm.c:76 | after a sequence of head insertions, list k is the heads pushed at order k, most recent first, in front of its old contents |
| BuddyState.ClearedUnchanged | buddy_pmm.c:119-122 | clearing flags over a range that no free block overlaps changes nothing |
| BuddyState.Merge | buddy_pmm.c:178-202 | the merge loop ends at the starting order or above it, and never above max_order |
| BuddyState.MergeSum | buddy_pmm.c:178-210 | merging conserves pages: the merged block plus the lists it leaves hold the old lists plus the freed block |
| BuddyState.MergeAvoids | buddy_pmm.c:178-202 | a range apart from the free blocks and from the freed block stays apart from the free blocks left and from the merged block |
| BuddyState.SplitGrows | buddy_pmm.c:155-160 | splitting flags heads only inside [blk, blk + 2^j) |
| BuddyState.AllocAvoids | buddy_pmm.c:150-160 | a range apart from the free blocks is apart from the block taken, and from the free blocks left after the split |
| BuddyState.RightHalfAlone | buddy_pmm.c:250 | freeing b8 + 4 at order 2 merges nothing, because its buddy b8 is not free |
| BuddyState.LeftHalfMerges | buddy_pmm.c:251 | freeing b8 then merges with b8 + 4, up to an order of at least 3, and the merged block holds all 8 pages |
| SlubLayout.RoundUp | slub.c:8 | the result is a multiple of a in [x, x + a) |
| SlubLayout.RoundUpLeast | slub.c:8 | no multiple of a that is at least x is smaller than the result |
| SlubLayout.ObjStart | slub.c:20 | the first object's offset is a multiple of the alignment, and at or past the slab header |
| SlubLayout.Payload | slub.c:21 | the size_t subtraction equals slab_bytes - off when off is at most slab_bytes |
| SlubLayout.ComputeLayoutAsWritten | slub.c:16-24 | align and obj_size are raised to at least 8; order and lists stay; the count is below 2^16 |
| SlubLayout.AlignBeyondSlab | slub.c:19-23 | an 8 KiB alignment on a 1-page slab gives 65024 objects, all past the end of the slab |
| SlubLayout.ComputeLayout | slub.c:16-24 | as compute_layout, except that a header offset past the end of the slab gives 0 objects |
| SlubLayout.LayoutFits | slub.c:19-23 | with a nonzero count the objects fit between the header and the end of the slab, and, without uint16_t truncation, one more would not |
| SlubLayout.CountFits | slub.c:22 | the truncated quotient's objects fit the payload, and without truncation the quotient is the largest count that fits |
| SlubLayout.ObjectInSlab | slub.c:36-39 | object i of a slab lies between its header and its end |
| SlubLayout.ObjectsApart | slub.c:39 | object i ends at or before object j for i < j |
| SlubLayout.MaskDown | slub.c:103 | x & ~(a - 1) is the multiple of a at or below x, within a of it |
| SlubLayout.SlabFrameOfObject | slub.c:101-104 | masking any object's address down to slab_bytes finds its slab's first frame |
| SlubLayout.Threaded | slub.c:36-45 | the chain holds n objects, the i-th at obj_start + i * obj_size |
| SlubLayout.SlabBuild | slub.c:28-47 | the built header has cache, order and pages set, inuse 0 and total objs_per_slab, and its freelist threads objects 0 .. total - 1 in order |
| SlubLayout.ThreadedObjects | slub.c:36-45 | that freelist is strictly ascending and holds exactly the slab's objects |
| SlubLayout.KmallocIndexFrom | slub.c:143-146 | the scan from i returns -1 or an index i..9 whose size holds sz, with every size scanned before it too small |
| SlubLayout.KmallocIndexSpec | slub.c:143-146 | kmalloc_index(sz) is -1 iff sz > 4096; otherwise it is the smallest class holding sz |
| SlubLayout.ClassIndex | slub.c:143-146 | the loop returns kmalloc_index |
| SlubLayout.KmallocSizesAscending | slub.c:138 | the class sizes strictly ascend |
| SlubLayout.ClassOrder | slub.c:155-162 | the loop returns the smallest order whose payload is at least the class size |
| SlubLayout.ClassLayout | slub.c:155-166 | for that order, at most 1, compute_layout gives a nonzero count, objects of the class size and an 8-byte alignment, so the assertion in kmem_cache_create holds |
| SlubHeap.Taken | slub.c:91-93 | the freelist loses its head and inuse grows by one |
| SlubHeap.TakenCache | slub.c:93-94 | inuse_objs grows by one; the slab moves from the front of partial to the front of full exactly when it becomes full |
| SlubHeap.Returned | slub.c:107-108 | the object becomes the freelist head and inuse drops by one |
| SlubHeap.ReturnedCache | slub.c:108-121 | inuse_objs drops by one; a slab that was full leaves full and goes to the front of partial; otherwise the lists stay |
| SlubHeap.Promoted | slub.c:83-85 | the first empty slab moves to the front of partial |
| SlubHeap.Dropped | slub.c:124 | the slab leaves partial and the other lists stay |
| SlubHeap.RemoveFirstFacts | slub.c:111-119 | without repeats, unlinking x takes it out entirely and keeps the rest; an absent x leaves the list as it is |
| SlubHeap.HeapAddCache | slub.c:51-61 | a new header with empty lists, on a fresh held page, keeps the heap well formed |
| SlubHeap.HeapAddSlab | slub.c:65-70 | a slab built on a fresh held block of the cache's order, aligned to it, at the front of partial, keeps the heap well formed |
| SlubHeap.HeapTake | slub.c:88-95 | the slab at the front of partial belongs to the cache and has a free object, and taking it keeps the heap well formed, as the assertion at line 90 requires |
| SlubHeap.TakenToFull | slub.c:94 | a slab whose last free object is taken lies on full and no longer on partial, with the lists well formed |
| SlubHeap.TakenInPartial | slub.c:94 | a slab with a free object left stays on partial |
| SlubHeap.HeapPut | slub.c:100-121 | returning an object of the slab that is not on its freelist keeps the heap well formed and leaves the slab on partial; inuse_objs was positive |
| SlubHeap.ReturnedToPartial | slub.c:111-121 | a full slab that gets an object back leaves full and joins partial |
| SlubHeap.ReturnedInPartial | slub.c:111 | a partial slab that gets an object back stays on partial |
| SlubHeap.HeapDrop | slub.c:123-127 | unlinking an idle slab and forgetting its header keeps the heap well formed |
| SlubHeap.HeapPromote | slub.c:83-85 | moving the first empty slab to partial keeps the heap well formed |
| SlubHeap.BuiltFree | slub.c:36-45 | the freelist slab_build threads consists of distinct objects of the slab |
| SlubHeap.OwnedAfterAlloc | buddy_pmm.c:150-165 | the block alloc_pages returns is apart from every free block and every block already held |
| SlubHeap.OwnedAfterFree | buddy_pmm.c:169-211 | after free_pages, the blocks still held stay apart from the free ones |
| SlubHeap.InuseObjsPositive | slub.c:108 | a cache with a slab in use counts an object in use |
| Slub.ClassesKept | slub.c:178 | the class caches keep their object sizes while other caches change |
| Slub.ClassAdded | slub.c:164-166 | kmalloc_init's new cache extends the filled classes by one of the right object size |
| Slub.SettledNoEmpty | slub.c:79-86 | when every slab has an object in use, no cache has a slab on empty |
| Slub.LiveMono | slub.c:75-96 | objects in use stay in use when headers only grow |
| Slub.TakeLive | slub.c:90-95 | the object handed out was not in use and now is, and the headers grow |
| Slub.AllocLive | slub.c:75-96 | kmem_cache_alloc hands out an object that was not in use and keeps every object in use |
| Slub.FreeLive | slub.c:100-129 | kmem_cache_free takes exactly obj out of use, even when the slab's pages go back |
| Slub.AllocKept | slub.c:75-96 | alloc keeps the set of caches with their layouts, and keeps every slab in use |
| Slub.AllocCompose | slub.c:75-96 | picking the slab and taking its first free object is one kmem_cache_alloc step |
| Slub.AllocFront | slub.c:76-91 | with a nonempty partial list, the object comes from the slab at its front |
| Slub.FreeKept | slub.c:100-121 | a free that leaves the slab in use is a kmem_cache_free step. It takes obj out of use and keeps the other objects in use, the slabs settled and the layouts |
| Slub.FreeReleased | slub.c:123-127 | a free that releases the slab is a kmem_cache_free step with the same guarantees, and its pages go back |
| Slub.TakeThenReturn | slub.c:90-121 | taking the freelist head of the front slab and returning it restores the slab and the cache header |
| Slub.GrowThenRelease | slub.c:65-127 | a slab grown for one object and released when that object returns leaves the cache header as it was |
| Slub.AllocThenFree | slub.c:75-129 | with every slab in use, kmem_cache_alloc and then kmem_cache_free of its object restore the headers, the held blocks and the free page count |
| Slub.KmallocKfreeRestores | slub.c:171-191 | with every slab in use, kmalloc(size) and then kfree of its result restore the whole state, on both the large and the small path |
| Slub.LiveSlot | slub.c:36-39 | an object in use is slot i of a slab on a held block of its cache's order |
| Slub.LiveApart | slub.c:36-39 | two different objects in use do not overlap, whichever caches they are in; an object in use has one cache |
| Slub.SlotsApart | slub.c:39 | different objects of one slab do not overlap |
| Slub.SlabsApart | slub.c:36-39 | objects of slabs on blocks that do not overlap do not overlap |
| Slub.FramesApart | slub.c:19 | blocks of frames that do not overlap have bytes that do not overlap |
| Slub.LiveAvoidsBlock | slub.c:174-176 | an object in use overlaps no held block that holds no slab: no cache header and no large kmalloc block |
| Slub.BuiltFirst | slub.c:45 | a new slab has a free object, and the first one masks back to the slab |
| Slub.Unlink | slub.c:111-119 | the loop over full unlinks the first node equal to the slab, which shortens the list by one when the slab is listed |
| Slub.CreateAlign | slub.c:58 | the alignment is align, or sizeof(void *) when align is 0 |
| Slub.CreatedLayout | slub.c:51-61 | a new cache that passes the assertion has a well-formed layout, empty lists and no objects in use, with the requested order |
| Slub.LargePagesFit | slub.c:174 | the page count holds the request, and is the least that does, unless size_t wraps; then the count is 0 |
| Slub.LargeAlloc | slub.c:173-177 | the new block's address becomes allocated, and it was not allocated before; other allocations stay |
| Slub.SmallAlloc | slub.c:178 | the object handed out becomes allocated, and it was not allocated before; other allocations stay |
| Slub.LargeFree | slub.c:184-187 | kfree of a large block takes exactly its address out of the allocations |
| Slub.SmallFree | slub.c:189 | kfree of a small object takes exactly that object out of the allocations |
| Slub.SlubAllocator.constructor | slub.c:139 | no cache, no slab, no held block, no kmalloc class yet |
| Slub.SlubAllocator.GetPages | slub.c:66 | NULL iff alloc_pages fails. Otherwise the new aligned block was not held and is held now with order ceil_log2(n), and the free total drops by its 2^order pages |
| Slub.SlubAllocator.PutPages | slub.c:125 | the block is no longer held and its pages return to the free total |
| Slub.SlubAllocator.CacheCreate | slub.c:51-61 | fails iff alloc_pages(1) fails. Otherwise a new page holds a header with ComputeLayout's layout, equal to compute_layout's under the precondition, and empty lists, and one page leaves the free total |
| Slub.SlubAllocator.CacheGrow | slub.c:65-71 | NULL iff alloc_pages(2^order) fails. Otherwise a fresh held block aligned to the order carries a built slab at the front of partial, and 2^order pages leave the free total |
| Slub.SlubAllocator.TakeFirst | slub.c:90-95 | hands out the freelist head of the front partial slab, as TookFrom says |
| Slub.SlubAllocator.PickSlab | slub.c:76-89 | picks the front of partial, promoting or growing otherwise; NULL iff partial and empty are empty and growing fails |
| Slub.SlubAllocator.CacheAlloc | slub.c:75-96 | a kmem_cache_alloc step. NULL iff there is no partial or empty slab and cache_grow fails. A result was not in use and now is; every object in use stays so |
| Slub.SlubAllocator.PutBack | slub.c:100-121 | returns obj to the slab its address masks to, which ends on partial |
| Slub.SlubAllocator.Release | slub.c:123-127 | an idle slab leaves partial, its header goes, and 2^order pages return to the page allocator |
| Slub.SlubAllocator.CacheFree | slub.c:100-129 | a kmem_cache_free step. obj is no longer in use, every other object in use stays so, and the caches keep their layouts |
| Slub.SlubAllocator.KmallocInit | slub.c:149-168 | cache i serves objects of kmalloc_sizes[i] bytes, and ten pages leave the free total; false means a kmem_cache_create failed |
| Slub.SlubAllocator.KmallocLarge | slub.c:173-177 | (size + PGSIZE - 1) / PGSIZE pages from the page allocator, at the byte address of their first frame. NULL iff that allocation fails. The address was not allocated before and is now |
| Slub.SlubAllocator.KmallocSmall | slub.c:178 | kmem_cache_alloc of the smallest class holding size. It returns NULL iff that cache has no partial or empty slab and alloc_pages(2^order) fails; a result was not allocated and now is |
| Slub.SlubAllocator.Kmalloc | slub.c:171-179 | the large path above 4096 bytes, a class cache otherwise. Each path returns NULL iff its page request cannot be served: for a class, iff the cache has no partial or empty slab and alloc_pages(2^order) fails. Each result is newly allocated; every allocation is kept |
| Slub.SlubAllocator.Kfree | slub.c:181-191 | NULL changes nothing; a large block's pages go back; a small object goes to its class cache. p is no longer allocated and every other allocation stays |
| Slub.SlubAllocator.KmallocThenKfree | slub.c:202-212 | kmalloc and then kfree of the same size leave the headers, the held blocks and the free page count as they were |

## Left out

- Console output (`cprintf`) is not modelled.
- `set_page_ref` is not modelled: the reference count is not part of the allocators' state.
- The `pmm_manager` table is not modelled: the model calls the methods directly.
- The remaining sections of `buddy_check` and `slub_check` are not modelled: the interleaved requests, the loop over requests 1..17, and the pseudo-random stress loops with their `rnd32` generators. The per-call contracts of `AllocPages`, `FreePages`, `Kmalloc` and `Kfree` give the free-total arithmetic those sections assert.
- Object contents are not modelled, so `memset` of the cache page and of the objects in `slub_check` is left out. So are the cache `name` and the `ctor` calls: a constructor is treated as doing nothing.
- `kmem_cache_destroy` is not modelled, because it does nothing.
- Address translation is fixed:
  - `va_pa_offset` is 0 and frame `i` starts at byte `i * PGSIZE`;
  - `page2pa`/`pa2page`, `page_idx`/`idx_page` become index arithmetic.
- Intrusive lists are sequences of head indices, so aliasing of list nodes is not modelled. The order of insertion at the head and removal from the front is kept.
- The object freelist is a sequence of addresses, not next-pointers stored in the objects.
- Fatal assertions in the C source are preconditions the caller must meet. These are the assertions of:
  - `compute_layout`'s `objs_per_slab > 0`;
  - `kmem_cache_free`'s owner and `inuse` checks.
  Freeing an object that is not in use, which those checks do not catch, is ruled out by the same preconditions.
- `check_block_alignment` is a helper of the `buddy_check` self-test and is not called by the allocator itself. Its test is `Arith.AlignedMod`.
- BuddyState.BuddyAllocator.FreePages: requires the block to be aligned to its order (`Aligned`) and to contain no free frame (`OutsideFree`). `buddy_free_pages` checks neither: a misaligned free or a double free runs on and corrupts the lists. The callers in `slub.c` (lines 125 and 187) and in `buddy_check` free blocks they were given by `alloc_pages`, which meet both.
- BuddyState.BuddyAllocator.InitMemmap: requires a range that holds no free block (`OutsideFree`). `buddy_init_memmap` does not check this, and a range registered twice corrupts the lists.
- Slub.SlubAllocator.CacheCreate: requires a power-of-two alignment and a header offset within the slab (`objsPerSlab > 0` of `ComputeLayout`). `kmem_cache_create` accepts any `align`. Under this precondition `ComputeLayout` equals `compute_layout`, so the cache of the Findings row is never built. The only caller, `kmalloc_init`, passes an alignment of 8.
- `assert(mgmt)` in `kmem_cache_create` and `assert(kmalloc_caches[i])` in `kmalloc_init` are modelled as a `None`/`false` result.
- BuddyState.BuddyAllocator.FreePages: requires every buddy on the merge chain to lie in the frame table. The C code reads the descriptor at `idx ^ 2^order` without a bounds check. `AlignedTableClosed` shows that a table aligned to `2^max_order` meets this requirement.
- Slub.SlubAllocator.constructor: requires the page allocator's table to be closed under buddies in the same sense.
- BuddyPmm.CalcMaxOrderByTotal: requires fewer than 2^31 frames, because `1u << 32` is undefined. The block shifts `1u << k` of the other loops stay below 2^32 under the same bound.
- SlubLayout.ComputeLayoutAsWritten: `objs_per_slab` is truncated to `uint16_t` as in C. The other `uint16_t` fields (`inuse`, `total`, `order`) never exceed their range in the model: `order < 32` is a precondition of `CacheCreate`.
- The `empty` list is never filled, just as in `slub.c`. `kmem_cache_alloc`'s branch that reuses an empty slab is still modelled.
- Slub.AllocThenFree, Slub.KmallocKfreeRestores: state restoration only when every slab has an object in use (`Settled`). That predicate holds from construction on. kmem_cache_create, kmem_cache_alloc, kmem_cache_free, kmalloc_init, kmalloc and kfree all keep it, and their contracts say so.
- Slub.SlubAllocator.KmallocThenKfree: requires the same `Settled` predicate.
- Slub.SlubAllocator.KmallocInit: states each class cache's object size and the ten pages taken. The rest of each header is described by `CacheCreate`'s contract.
- BuddyState.BuddyAllocator.AllocThenFree: models one allocation and its free. Section 1 of `buddy_check` allocates 1 and 3 pages before freeing both.

## Findings

| source | as written | input that shows it | evidently intended | confidence | as-written member | corrected member |
|---|---|---|---|---|---|---|
| slub.c:19-23 | `payload = slab_bytes - off` is computed in `size_t` without checking `off <= slab_bytes`; `(uint16_t)(payload / obj_size)` then truncates | `kmem_cache_create(name, 8, 8192, 0, NULL)`: `off` is 8192 and `slab_bytes` is 4096. The payload wraps to 2^64 - 4096, which gives 65024 objects, all beyond the slab, so the `objs_per_slab > 0` assertion passes | a header offset beyond the slab means no object fits (count 0), so the assertion stops the kernel | not executed | SlubLayout.AlignBeyondSlab | SlubLayout.LayoutFits |
