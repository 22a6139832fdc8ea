/** The state of the buddy page allocator (kern/mm/buddy_pmm.c): the frame
    descriptors it marks, the 32 free lists with their nr_free counters,
    max_order and buddy_total_free_pages, and the operations that change them. */
module BuddyState {
  import opened Arith
  import opened Wrappers
  import opened BuddyPmm

  /** What the allocator keeps in a frame descriptor: PageProperty (the frame
      heads a free block) and the property field (the block's order). */
  datatype Frame = Frame(head: bool, order: nat)

  class BuddyAllocator {
    /** The frame table covers the frame indices [nbase, nbase + nframes)
        (nbase and npage of pmm.h, npage - nbase == nframes). */
    const nbase: nat
    const nframes: nat
    /** frames[i] describes frame index nbase + i. */
    var frames: seq<Frame>
    /** buddy_area[k].free_list as the sequence of head frame indices, front first. */
    var lists: seq<seq<nat>>
    /** buddy_area[k].nr_free. */
    var nrFree: seq<nat>
    var maxOrder: nat
    /** buddy_total_free_pages. */
    var totalFree: nat

    predicate InTable(x: nat)
    {
      nbase <= x < nbase + nframes
    }

    predicate BlockInTable(x: nat, k: nat)
    {
      nbase <= x && x + Pow2(k) <= nbase + nframes
    }

    /** idx_page: the descriptor of frame index x. */
    function Desc(x: nat): Frame
      reads this
      requires |frames| == nframes && InTable(x)
    {
      frames[x - nbase]
    }

    /** No free block overlaps the frames [a, a + len). */
    ghost predicate OutsideFree(a: int, len: int)
      reads this
    {
      FreeAvoids(nbase, frames, a, len)
    }

    /** The free-list structure (see Shaped). */
    ghost predicate WellFormed()
      reads this
    {
      nframes < FRAME_LIMIT && Inv(nbase, nframes, frames, lists, nrFree, maxOrder)
    }

    /** The allocator invariant: the structure, and the free total equals the
        sum of nr_free[k] * 2^k. */
    ghost predicate Valid()
      reads this
    {
      WellFormed() && totalFree == Sum(lists)
    }

    /** Boot: the frame table exists and no frame heads a free block; then
        buddy_init runs. */
    constructor (nbase: nat, nframes: nat)
      requires nframes < FRAME_LIMIT
      ensures Valid()
      ensures this.nbase == nbase && this.nframes == nframes
      ensures frames == seq(nframes, _ => Frame(false, 0))
      ensures lists == seq(ORDERS, _ => []) && totalFree == 0 && maxOrder == 0
    {
      this.nbase := nbase;
      this.nframes := nframes;
      frames := seq(nframes, _ => Frame(false, 0));
      new;
      Init();
    }

    /** buddy_lists_clear: every list empty, every counter zero, free total zero. */
    method ListsClear()
      modifies this
      ensures lists == seq(ORDERS, _ => []) && nrFree == seq(ORDERS, _ => 0)
      ensures totalFree == 0
      ensures frames == old(frames) && maxOrder == old(maxOrder)
    {
      lists, nrFree := [], [];
      for i := 0 to ORDERS
        invariant lists == seq(i, _ => []) && nrFree == seq(i, _ => 0)
        invariant frames == old(frames) && maxOrder == old(maxOrder)
      {
        lists := lists + [[]];
        nrFree := nrFree + [0];
      }
      totalFree := 0;
    }

    /** buddy_init: clear the lists and reset max_order.  It leaves the frame
        descriptors alone, so no frame may still be marked as a free head. */
    method Init()
      requires nframes < FRAME_LIMIT && |frames| == nframes
      requires forall i :: 0 <= i < |frames| ==> !frames[i].head
      modifies this
      ensures Valid()
      ensures lists == seq(ORDERS, _ => []) && totalFree == 0 && maxOrder == 0
      ensures frames == old(frames)
    {
      ListsClear();
      maxOrder := 0;
      assert forall k :: 0 <= k < ORDERS ==> lists[k] == [];
      SumEmpty(lists);
    }

    /** buddy_nr_free_pages. */
    method NrFreePages() returns (r: nat)
      requires Valid()
      ensures r == Sum(lists)
    {
      r := totalFree;
    }

    /** buddy_push: h becomes a flagged head of order k at the front of list k.
        The block must be aligned, inside the table and not overlap a free block. */
    method Push(k: nat, h: nat)
      requires WellFormed()
      requires k < ORDERS && BlockInTable(h, k) && Aligned(h, k)
      requires !Desc(h).head && OutsideFree(h, Pow2(k))
      modifies this
      ensures WellFormed()
      ensures frames == old(frames)[h - nbase := Frame(true, k)]
      ensures lists == old(lists)[k := [h] + old(lists[k])]
      ensures nrFree == old(nrFree)[k := old(nrFree[k]) + 1]
      ensures maxOrder == old(maxOrder) && totalFree == old(totalFree)
      ensures Sum(lists) == old(Sum(lists)) + Pow2(k)
    {
      ghost var F, L, C := frames, lists, nrFree;
      frames := frames[h - nbase := Frame(true, k)];
      lists := lists[k := [h] + lists[k]];
      nrFree := nrFree[k := nrFree[k] + 1];
      PushedInv(nbase, nframes, F, L, C, frames, lists, nrFree, maxOrder, k, h);
    }

    /** buddy_pop applied to the node at position pos of list k: the node leaves
        the list, its flag is cleared (its order field is kept) and nr_free[k]
        drops by one. */
    method Pop(k: nat, pos: nat) returns (h: nat)
      requires WellFormed()
      requires k < ORDERS && pos < |lists[k]|
      modifies this
      ensures h == old(lists[k][pos]) && old(HeadOk(nbase, frames, h, k))
      ensures WellFormed()
      ensures frames == old(frames)[h - nbase := Frame(false, k)]
      ensures lists == old(lists)[k := Erase(old(lists[k]), pos)]
      ensures nrFree == old(nrFree)[k := old(nrFree[k]) - 1]
      ensures maxOrder == old(maxOrder) && totalFree == old(totalFree)
      ensures Sum(lists) + Pow2(k) == old(Sum(lists))
      ensures BlockInTable(h, k) && OutsideFree(h, Pow2(k))
    {
      h := lists[k][pos];
      assert HeadOk(nbase, frames, h, k);
      ghost var F, L, C := frames, lists, nrFree;
      frames := frames[h - nbase := Frame(false, k)];
      lists := lists[k := Erase(lists[k], pos)];
      nrFree := nrFree[k := nrFree[k] - 1];
      PoppedInv(nbase, nframes, F, L, C, frames, lists, nrFree, maxOrder, k, pos, h);
    }

    /** The flag-clearing loop of init_memmap: p->flags = 0 for every frame of
        [base, base + n); the order field is left as it was. */
    method ClearFlags(base: nat, n: nat)
      requires |frames| == nframes && nbase <= base && base + n <= nbase + nframes
      modifies this
      ensures frames == Cleared(nbase, old(frames), base, n)
      ensures lists == old(lists) && nrFree == old(nrFree)
      ensures maxOrder == old(maxOrder) && totalFree == old(totalFree)
    {
      for p := base to base + n
        invariant frames == Cleared(nbase, old(frames), base, p - base)
        invariant lists == old(lists) && nrFree == old(nrFree)
        invariant maxOrder == old(maxOrder) && totalFree == old(totalFree)
      {
        frames := frames[p - nbase := Frame(false, frames[p - nbase].order)];
      }
    }

    /** buddy_init_memmap: hands the frames [base, base + n), which no free
        block may overlap, to the allocator.  max_order is raised to the
        largest order that fits the whole frame table, and the range is pushed
        as the greedy partition into maximal aligned blocks. */
    method InitMemmap(base: nat, n: nat)
      requires Valid()
      requires nbase <= base && base + n <= nbase + nframes
      requires OutsideFree(base, n)
      modifies this
      ensures Valid()
      ensures n == 0 ==> frames == old(frames) && lists == old(lists) && nrFree == old(nrFree) &&
                         maxOrder == old(maxOrder) && totalFree == old(totalFree)
      ensures n > 0 ==> maxOrder == Max(old(maxOrder), FloorLog2(nframes))
      ensures var P := Partition(base, n, maxOrder);
        lists == PushAll(old(lists), P) && frames == MarkHeads(nbase, old(frames), P)
      ensures totalFree == old(totalFree) + n
      ensures GrowsOnlyIn(nbase, old(frames), frames, base, base + n)
    {
      if n == 0 {
        return;
      }
      var mo: int := CalcMaxOrderByTotal(nframes);
      if mo > MAX_ORDER_CAP {
        mo := MAX_ORDER_CAP;
      }
      if mo > maxOrder {
        maxOrder := mo;
      }
      ClearedUnchanged(nbase, frames, base, n);
      ClearFlags(base, n);
      PushRange(base, n);
      totalFree := totalFree + n;
      assert Inv(nbase, nframes, frames, lists, nrFree, maxOrder);
    }

    /** The order scan of alloc_pages: from order lo upwards, the first order
        up to max_order whose free list is not empty (above max_order if none). */
    method ScanOrders(lo: nat) returns (j: nat)
      requires WellFormed()
      ensures j == FirstNonEmpty(lists, lo, maxOrder)
    {
      j := lo;
      while j <= maxOrder && lists[j] == []
        invariant lo <= j && FirstNonEmpty(lists, j, maxOrder) == FirstNonEmpty(lists, lo, maxOrder)
        decreases maxOrder + 1 - j
      {
        j := j + 1;
      }
    }

    /** buddy_alloc_pages: NULL for n == 0, for n above the free total, and
        when no list of order ceil_log2(n)..max_order has a block, with nothing
        changed.  Otherwise the first block of the first non-empty list j is
        popped and split down to order need = ceil_log2(n): the upper halves
        blk + 2^(j-1), ..., blk + 2^need are pushed, and blk is returned with
        2^need pages taken from the free total. */
    method AllocPages(n: nat) returns (r: Option<nat>)
      requires Valid()
      modifies this
      ensures Valid()
      ensures r.None? <==>
        n == 0 || n > old(totalFree) || FirstNonEmpty(old(lists), CeilLog2(n), old(maxOrder)) > old(maxOrder)
      ensures r.None? ==> frames == old(frames) && lists == old(lists) && nrFree == old(nrFree) &&
                          maxOrder == old(maxOrder) && totalFree == old(totalFree)
      ensures r.Some? ==>
        var need := CeilLog2(n);
        var j := FirstNonEmpty(old(lists), need, old(maxOrder));
        var blk := r.value;
        && need <= j <= maxOrder == old(maxOrder)
        && blk == old(lists[j][0]) && old(HeadOk(nbase, frames, blk, j))
        && lists == PushAll(old(lists)[j := old(lists[j])[1..]], SplitBlocks(blk, j, need))
        && frames == MarkHeads(nbase, old(frames)[blk - nbase := Frame(false, j)], SplitBlocks(blk, j, need))
        && totalFree + Pow2(need) == old(totalFree)
        && Aligned(blk, need) && BlockInTable(blk, need) && OutsideFree(blk, Pow2(need))
        && forall k :: 0 <= k < |lists| ==> blk !in lists[k]
    {
      if n == 0 {
        return None;
      }
      if n > totalFree {
        return None;
      }
      var need := CeilLog2Pages(n);
      var j := ScanOrders(need);
      if j > maxOrder {
        return None;
      }
      var blk := TakeBlock(j, need);
      r := Some(blk);
    }

    /** The allocating part of alloc_pages, once list j (need <= j <= max_order)
        is known to be the first non-empty one: pop its first block, split it
        down to order need, clear its head flag and take 2^need pages from the
        free total. */
    method TakeBlock(j: nat, need: nat) returns (blk: nat)
      requires Valid() && need <= j <= maxOrder && lists[j] != []
      modifies this
      ensures Valid() && maxOrder == old(maxOrder)
      ensures blk == old(lists[j][0]) && old(HeadOk(nbase, frames, blk, j))
      ensures lists == PushAll(old(lists)[j := old(lists[j])[1..]], SplitBlocks(blk, j, need))
      ensures frames == MarkHeads(nbase, old(frames)[blk - nbase := Frame(false, j)], SplitBlocks(blk, j, need))
      ensures totalFree + Pow2(need) == old(totalFree)
      ensures Aligned(blk, need) && BlockInTable(blk, need) && OutsideFree(blk, Pow2(need))
      ensures forall k :: 0 <= k < |lists| ==> blk !in lists[k]
    {
      EraseFront(lists[j]);
      blk := Pop(j, 0);
      SplitDown(blk, j, need);
      UnflagNoop(nbase, frames, blk);
      frames, totalFree := frames[blk - nbase := Frame(false, frames[blk - nbase].order)], totalFree - Pow2(need);
      NotListed(nbase, frames, lists, blk);
      AlignedLess(blk, j, need);
      Pow2Monotone(need, j);
    }

    /** The split loop of alloc_pages: the block [blk, blk + 2^j), which no
        free block overlaps, is halved down to order need, and each upper half
        blk + 2^i (i = j-1 down to need) is pushed on list i. */
    method SplitDown(blk: nat, j: nat, need: nat)
      requires WellFormed() && need <= j < ORDERS
      requires BlockInTable(blk, j) && Aligned(blk, j) && OutsideFree(blk, Pow2(j))
      modifies this
      ensures WellFormed() && maxOrder == old(maxOrder) && totalFree == old(totalFree)
      ensures lists == PushAll(old(lists), SplitBlocks(blk, j, need))
      ensures frames == MarkHeads(nbase, old(frames), SplitBlocks(blk, j, need))
      ensures Sum(lists) + Pow2(need) == old(Sum(lists)) + Pow2(j)
      ensures OutsideFree(blk, Pow2(need)) && frames[blk - nbase] == old(frames[blk - nbase])
    {
      ghost var F1, L1 := frames, lists;
      var i := j;
      while i > need
        invariant need <= i <= j
        invariant WellFormed() && maxOrder == old(maxOrder) && totalFree == old(totalFree)
        invariant lists == PushAll(L1, SplitBlocks(blk, j, i)) && frames == MarkHeads(nbase, F1, SplitBlocks(blk, j, i))
        invariant OutsideFree(blk, Pow2(i))
        invariant frames[blk - nbase] == F1[blk - nbase]
        decreases i
      {
        ghost var Fp, Lp := frames, lists;
        SplitOnce(blk, j, i);
        SplitStep(nbase, F1, L1, blk, j, i, Fp, Lp, frames, lists);
        i := i - 1;
      }
      SumSplit(L1, blk, j, need);
    }

    /** One round of the split loop of alloc_pages: the block [blk, blk + 2^u)
        is halved and its upper half blk + 2^(u-1) pushed on list u - 1. */
    method SplitOnce(blk: nat, j: nat, u: nat)
      requires WellFormed() && 0 < u <= j < ORDERS
      requires BlockInTable(blk, j) && Aligned(blk, j) && OutsideFree(blk, Pow2(u))
      modifies this
      ensures WellFormed() && maxOrder == old(maxOrder) && totalFree == old(totalFree)
      ensures BlockInTable(blk + Pow2(u - 1), u - 1)
      ensures frames == old(frames)[blk + Pow2(u - 1) - nbase := Frame(true, u - 1)]
      ensures lists == old(lists)[u - 1 := [blk + Pow2(u - 1)] + old(lists[u - 1])]
      ensures nrFree == old(nrFree)[u - 1 := old(nrFree[u - 1]) + 1]
      ensures OutsideFree(blk, Pow2(u - 1))
    {
      SplitPre(nbase, frames, blk, j, u);
      var right := blk + Pow2(u - 1);
      Push(u - 1, right);
      MarkAvoids(nbase, old(frames), right, u - 1, blk, Pow2(u - 1));
    }

    /** The buddy of every head on the merge chain of a block freed at base
        with order o lies in the frame table.  free_pages reads the descriptor
        at the buddy index without a bounds check, so this is what a caller
        must guarantee. */
    ghost predicate ChainInTable(base: nat, o: nat, mo: nat)
    {
      forall k :: o <= k < mo ==> InTable(Buddy(MergeHead(base, o, k), k))
    }

    /** Every block of order below max_order that starts in the table has its
        buddy in the table; this holds when the table's start and size are
        multiples of 2^max_order. */
    ghost predicate BuddyClosed(mo: nat)
    {
      forall x: nat, k: nat :: InTable(x) && k < mo && x % Pow2(k) == 0 ==> InTable(Buddy(x, k))
    }

    /** A frame table that starts and ends on a multiple of 2^max_order is
        buddy-closed. */
    lemma AlignedTableClosed()
      requires nbase % Pow2(maxOrder) == 0 && (nbase + nframes) % Pow2(maxOrder) == 0
      ensures BuddyClosed(maxOrder)
    {
      forall x: nat, k: nat | InTable(x) && k < maxOrder && x % Pow2(k) == 0
        ensures InTable(Buddy(x, k))
      {
        AlignedWeaken(nbase, maxOrder, k + 1);
        AlignedWeaken(nbase + nframes, maxOrder, k + 1);
        BuddyInRange(nbase, nbase + nframes, x, k);
      }
    }

    /** In a buddy-closed table every head on a merge chain starts in the
        table and is aligned to its order. */
    lemma {:induction false} ChainHeads(mo: nat, base: nat, o: nat, k: nat)
      requires BuddyClosed(mo) && InTable(base) && base % Pow2(o) == 0 && o <= k <= mo
      ensures InTable(MergeHead(base, o, k)) && MergeHead(base, o, k) % Pow2(k) == 0
      decreases k - o
    {
      if k > o {
        ChainHeads(mo, base, o, k - 1);
        BuddyFacts(MergeHead(base, o, k - 1), k - 1);
      }
    }

    /** A buddy-closed table meets the bounds free_pages relies on. */
    lemma ClosedChain(mo: nat, base: nat, o: nat)
      requires BuddyClosed(mo) && InTable(base) && base % Pow2(o) == 0
      ensures ChainInTable(base, o, mo)
    {
      forall k | o <= k < mo
        ensures InTable(Buddy(MergeHead(base, o, k), k))
      {
        ChainHeads(mo, base, o, k);
      }
    }

    /** The scan of free_pages over list k: the position of the first node
        equal to x, or -1 when x is not on the list. */
    method Find(k: nat, x: nat) returns (pos: int)
      requires k < |lists|
      ensures -1 <= pos < |lists[k]|
      ensures pos == -1 <==> x !in lists[k]
      ensures pos >= 0 ==> lists[k][pos] == x && forall j :: 0 <= j < pos ==> lists[k][j] != x
    {
      var i := 0;
      while i < |lists[k]|
        invariant 0 <= i <= |lists[k]|
        invariant forall j :: 0 <= j < i ==> lists[k][j] != x
      {
        if lists[k][i] == x {
          return i;
        }
        i := i + 1;
      }
      pos := -1;
    }

    /** One round of the merge loop of free_pages for the block at idx of
        order k: when the buddy frame is flagged with order k and found on
        list k, it is erased from the list, its flag cleared and nr_free[k]
        decremented. */
    method TryMerge(idx: nat, k: nat) returns (merged: bool)
      requires WellFormed() && k < ORDERS && InTable(Buddy(idx, k))
      modifies this
      ensures WellFormed() && maxOrder == old(maxOrder) && totalFree == old(totalFree)
      ensures merged == old(CanMerge(nbase, frames, lists, Buddy(idx, k), k))
      ensures !merged ==> frames == old(frames) && lists == old(lists) && nrFree == old(nrFree)
      ensures merged ==> var b := Buddy(idx, k);
        && frames == old(frames)[b - nbase := Frame(false, k)]
        && lists == old(lists)[k := RemoveFirst(old(lists[k]), b)]
        && Sum(lists) + Pow2(k) == old(Sum(lists))
        && BlockInTable(b, k) && OutsideFree(b, Pow2(k))
    {
      var bud := Buddy(idx, k);
      var f := Desc(bud);
      merged := false;
      if f.head && f.order == k {
        var pos := Find(k, bud);
        if pos >= 0 {
          EraseFirst(lists[k], pos);
          var h := Pop(k, pos);
          merged := true;
        }
      }
    }

    /** One round of the merge loop of free_pages, at an order k below
        max_order: try to take the buddy of the block at idx off list k and,
        when that succeeds, move to the lower of the two as the head of the
        merged block of order k + 1. */
    method MergeOnce(idx: nat, k: nat) returns (merged: bool, h: nat)
      requires WellFormed() && k < maxOrder && InTable(Buddy(idx, k))
      requires BlockInTable(idx, k) && Aligned(idx, k) && OutsideFree(idx, Pow2(k))
      modifies this
      ensures WellFormed() && maxOrder == old(maxOrder) && totalFree == old(totalFree)
      ensures old(Merge(nbase, frames, lists, idx, k, maxOrder)) ==
        if merged then Merge(nbase, frames, lists, h, k + 1, maxOrder) else Merged(idx, k, frames, lists)
      ensures !merged ==> h == idx && frames == old(frames) && lists == old(lists) && nrFree == old(nrFree)
      ensures merged ==> && h == Lower(idx, k)
                         && BlockInTable(h, k + 1) && Aligned(h, k + 1) && OutsideFree(h, Pow2(k + 1))
    {
      ghost var F, L := frames, lists;
      merged := TryMerge(idx, k);
      if !merged {
        return merged, idx;
      }
      var bud := Buddy(idx, k);
      MergeStep(nbase, F, frames, idx, k);
      MergeNext(nbase, F, L, idx, k, maxOrder, frames, lists);
      h := idx;
      if bud < idx {
        h := bud;
      }
    }

    /** buddy_free_pages: nothing for n == 0.  Otherwise the block of order
        o = ceil_log2(n) at base, which must be aligned, in the table and not
        free, is merged with its free buddy order by order while the order is
        below max_order, and the merged block is pushed; 2^o pages return to
        the free total.  The result is the one Merge describes. */
    method FreePages(base: nat, n: nat)
      requires Valid()
      requires n > 0 ==> var o := CeilLog2(n);
        o < ORDERS && BlockInTable(base, o) && Aligned(base, o) && OutsideFree(base, Pow2(o)) &&
        ChainInTable(base, o, maxOrder)
      modifies this
      ensures Valid() && maxOrder == old(maxOrder)
      ensures n == 0 ==> frames == old(frames) && lists == old(lists) && nrFree == old(nrFree) &&
                         totalFree == old(totalFree)
      ensures n > 0 ==>
        var o := CeilLog2(n);
        var M := Merge(nbase, old(frames), old(lists), base, o, old(maxOrder));
        && o <= M.order < ORDERS && M.head == MergeHead(base, o, M.order)
        && BlockInTable(M.head, M.order)
        && frames == M.frames[M.head - nbase := Frame(true, M.order)]
        && lists == M.lists[M.order := [M.head] + M.lists[M.order]]
        && totalFree == old(totalFree) + Pow2(o)
    {
      if n == 0 {
        return;
      }
      var o := CeilLog2Pages(n);
      MergeSum(nbase, frames, lists, base, o, maxOrder);
      var idx, order := MergeChain(base, o);
      BlockClear(nbase, frames, idx, Pow2(order), order);
      Push(order, idx);
      totalFree := totalFree + Pow2(o);
    }

    /** The merge loop of free_pages for the block of order o at base: the
        head and order it ends with, and the state it leaves, are the ones
        Merge describes. */
    method MergeChain(base: nat, o: nat) returns (idx: nat, order: nat)
      requires WellFormed() && o < ORDERS
      requires BlockInTable(base, o) && Aligned(base, o) && OutsideFree(base, Pow2(o)) && ChainInTable(base, o, maxOrder)
      modifies this
      ensures WellFormed() && maxOrder == old(maxOrder) && totalFree == old(totalFree)
      ensures Merged(idx, order, frames, lists) == old(Merge(nbase, frames, lists, base, o, maxOrder))
      ensures o <= order < ORDERS && idx == MergeHead(base, o, order)
      ensures BlockInTable(idx, order) && Aligned(idx, order) && OutsideFree(idx, Pow2(order))
    {
      order := o;
      idx := base;
      ghost var M := Merge(nbase, frames, lists, base, o, maxOrder);
      while order < maxOrder
        invariant o <= order < ORDERS
        invariant WellFormed() && maxOrder == old(maxOrder) && totalFree == old(totalFree)
        invariant Merge(nbase, frames, lists, idx, order, maxOrder) == M
        invariant idx == MergeHead(base, o, order)
        invariant BlockInTable(idx, order) && Aligned(idx, order) && OutsideFree(idx, Pow2(order))
        decreases maxOrder - order
      {
        var merged, h := MergeOnce(idx, order);
        if !merged {
          break;
        }
        idx, order := h, order + 1;
      }
    }

    /** Section 1 of buddy_check: allocating n pages and freeing them again
        leaves the free total where it was. */
    method AllocThenFree(n: nat) returns (r: Option<nat>)
      requires Valid() && BuddyClosed(maxOrder)
      modifies this
      ensures Valid() && maxOrder == old(maxOrder) && totalFree == old(totalFree)
    {
      r := AllocPages(n);
      if r.Some? {
        var o := CeilLog2(n);
        AlignedMod(r.value, o);
        ClosedChain(maxOrder, r.value, o);
        FreePages(r.value, n);
      }
    }

    /** The free block headed at h holds the frames [x, x + len). */
    ghost predicate Covers(h: nat, x: nat, len: nat)
      reads this
    {
      nbase <= h < nbase + |frames| && frames[h - nbase].head &&
      h <= x && x + len <= h + Pow2(frames[h - nbase].order)
    }

    /** The frames [x, x + len) lie inside one free block. */
    ghost predicate InFreeBlock(x: nat, len: nat)
      reads this
    {
      exists h :: Covers(h, x, len)
    }

    /** Section 2 of buddy_check: an 8-page block is allocated, its right
        half freed and then its left half, after which the 8 pages lie inside
        one free block and the free total is back where it was. */
    method RemergeHalves() returns (r: Option<nat>)
      requires Valid() && BuddyClosed(maxOrder) && 2 < maxOrder
      modifies this
      ensures Valid() && totalFree == old(totalFree)
      ensures r.Some? ==> InFreeBlock(r.value, 8)
    {
      SmallLogs();
      r := AllocPages(8);
      if r.Some? {
        FreeHalves(r.value);
      }
    }

    /** The two frees of section 2 for an allocated, aligned 8-page block at
        b8.  The right half finds its buddy b8 still allocated and stays
        alone; the left half then merges with it. */
    method FreeHalves(b8: nat)
      requires Valid() && BuddyClosed(maxOrder) && 2 < maxOrder
      requires BlockInTable(b8, 3) && Aligned(b8, 3) && OutsideFree(b8, 8)
      modifies this
      ensures Valid() && totalFree == old(totalFree) + 8
      ensures InFreeBlock(b8, 8)
    {
      SmallLogs();
      AlignedMod(b8, 3);
      RightHalfAlone(nbase, frames, lists, b8, maxOrder);
      ClosedChain(maxOrder, b8 + 4, 2);
      FreePages(b8 + 4, 4);
      ghost var F2, L2 := frames, lists;
      ClosedChain(maxOrder, b8, 2);
      FreePages(b8, 4);
      LeftHalfMerges(nbase, F2, L2, b8, maxOrder);
      ghost var M := Merge(nbase, F2, L2, b8, 2, maxOrder);
      assert Covers(M.head, b8, 8);
    }

    /** The partition loop of init_memmap: push, from base upwards, the largest
        aligned block of order at most max_order that fits what remains. */
    method PushRange(base: nat, n: nat)
      requires WellFormed()
      requires nbase <= base && base + n <= nbase + nframes
      requires OutsideFree(base, n)
      modifies this
      ensures WellFormed() && maxOrder == old(maxOrder) && totalFree == old(totalFree)
      ensures var P := Partition(base, n, maxOrder);
        lists == PushAll(old(lists), P) && frames == MarkHeads(nbase, old(frames), P)
      ensures Sum(lists) == old(Sum(lists)) + n
      ensures GrowsOnlyIn(nbase, old(frames), frames, base, base + n)
    {
      var remain: nat, cur: nat := n, base;
      ghost var mo, P0 := maxOrder, Partition(base, n, maxOrder);
      ghost var done: seq<Block> := [];
      while remain > 0
        invariant WellFormed() && maxOrder == mo && totalFree == old(totalFree)
        invariant base <= cur && cur + remain == base + n
        invariant P0 == done + Partition(cur, remain, mo)
        invariant lists == PushAll(old(lists), done) && frames == MarkHeads(nbase, old(frames), done)
        invariant Sum(lists) == old(Sum(lists)) + (cur - base)
        invariant OutsideFree(cur, remain) && GrowsOnlyIn(nbase, old(frames), frames, base, cur)
        decreases remain
      {
        var f := MaxOrderFit(cur, remain, maxOrder);
        var k: nat := ClampOrder(f);
        AlignedMod(cur, k);
        BlockClear(nbase, frames, cur, remain, k);
        ghost var d0, c0, r0, F, L := done, cur, remain, frames, lists;
        Push(k, cur);
        done := done + [Block(cur, k)];
        cur := cur + Pow2(k);
        remain := remain - Pow2(k);
        RangeStep(nbase, old(frames), old(lists), P0, mo, base, d0, c0, r0, F, L, k, done, cur, remain, frames, lists);
      }
      assert Partition(base, n, maxOrder) == done;
    }
  }

  // -----------------------------------------------------------------------
  // The invariant of the free lists, stated over values

  /** h heads a free block on list k: it is in the table, flagged with order k
      and aligned to 2^k (check_block_alignment). */
  ghost predicate HeadOk(nbase: nat, frames: seq<Frame>, h: nat, k: nat)
  {
    nbase <= h < nbase + |frames| && frames[h - nbase] == Frame(true, k) && Aligned(h, k)
  }

  ghost predicate HeadsOk(nbase: nat, frames: seq<Frame>, lists: seq<seq<nat>>)
  {
    forall k, j {:trigger HeadOk(nbase, frames, lists[k][j], k)} ::
      0 <= k < |lists| && 0 <= j < |lists[k]| ==> HeadOk(nbase, frames, lists[k][j], k)
  }

  /** Positions j1 < j2 of list l hold different heads. */
  ghost predicate DistinctAt(l: seq<nat>, j1: int, j2: int)
  {
    0 <= j1 < j2 < |l| ==> l[j1] != l[j2]
  }

  ghost predicate NoDup(lists: seq<seq<nat>>)
  {
    forall k, j1, j2 :: 0 <= k < |lists| ==> DistinctAt(lists[k], j1, j2)
  }

  /** If frame i is flagged, it is on the list of its order and its block lies
      in the table. */
  ghost predicate FlagListed(nbase: nat, frames: seq<Frame>, lists: seq<seq<nat>>, i: int)
  {
    0 <= i < |frames| && frames[i].head ==>
      frames[i].order < |lists| && nbase + i in lists[frames[i].order] &&
      i + Pow2(frames[i].order) <= |frames|
  }

  ghost predicate FlagsListed(nbase: nat, frames: seq<Frame>, lists: seq<seq<nat>>)
  {
    forall i :: FlagListed(nbase, frames, lists, i)
  }

  /** If frames i1 < i2 both head free blocks, the first block ends at or
      before i2. */
  ghost predicate Apart(frames: seq<Frame>, i1: int, i2: int)
  {
    0 <= i1 < i2 < |frames| && frames[i1].head && frames[i2].head ==> i1 + Pow2(frames[i1].order) <= i2
  }

  /** Free blocks do not overlap. */
  ghost predicate FreeDisjoint(frames: seq<Frame>)
  {
    forall i1, i2 :: Apart(frames, i1, i2)
  }

  /** No free block overlaps the frames [a, a + len). */
  ghost predicate FreeAvoids(nbase: nat, frames: seq<Frame>, a: int, len: int)
  {
    forall i :: 0 <= i < |frames| && frames[i].head ==> Disjoint(nbase + i, Pow2(frames[i].order), a, len)
  }

  /** The shape of the free area: 32 lists, every listed head flagged with its
      list's order and aligned, no list repeats a head, every flagged frame
      listed, and free blocks pairwise disjoint. */
  ghost predicate Shaped(nbase: nat, frames: seq<Frame>, lists: seq<seq<nat>>)
  {
    |lists| == ORDERS && HeadsOk(nbase, frames, lists) && NoDup(lists) &&
    FlagsListed(nbase, frames, lists) && FreeDisjoint(frames)
  }

  lemma PushKeepsHeads(nbase: nat, frames: seq<Frame>, lists: seq<seq<nat>>, k: nat, h: nat)
    requires HeadsOk(nbase, frames, lists) && k < |lists|
    requires nbase <= h < nbase + |frames| && Aligned(h, k) && !frames[h - nbase].head
    ensures h !in lists[k]
    ensures HeadsOk(nbase, frames[h - nbase := Frame(true, k)], lists[k := [h] + lists[k]])
  {
    var frames', lists' := frames[h - nbase := Frame(true, k)], lists[k := [h] + lists[k]];
    forall kk, j | 0 <= kk < |lists'| && 0 <= j < |lists'[kk]|
      ensures HeadOk(nbase, frames', lists'[kk][j], kk)
    {
      if kk == k && j > 0 {
        assert lists'[kk][j] == lists[k][j - 1];
        assert HeadOk(nbase, frames, lists[k][j - 1], k);
      } else if kk != k {
        assert HeadOk(nbase, frames, lists[kk][j], kk);
      }
    }
    forall j | 0 <= j < |lists[k]|
      ensures lists[k][j] != h
    {
      assert HeadOk(nbase, frames, lists[k][j], k);
    }
  }

  lemma PushKeepsNoDup(lists: seq<seq<nat>>, k: nat, h: nat)
    requires NoDup(lists) && k < |lists| && h !in lists[k]
    ensures NoDup(lists[k := [h] + lists[k]])
  {
    var lists' := lists[k := [h] + lists[k]];
    forall kk, j1, j2 | 0 <= kk < |lists'|
      ensures DistinctAt(lists'[kk], j1, j2)
    {
      if kk == k && 0 <= j1 < j2 < |lists'[kk]| {
        if j1 == 0 {
          assert lists'[kk][j2] == lists[k][j2 - 1];
        } else {
          assert DistinctAt(lists[k], j1 - 1, j2 - 1);
          assert lists'[kk][j1] == lists[k][j1 - 1] && lists'[kk][j2] == lists[k][j2 - 1];
        }
      } else if kk != k {
        assert DistinctAt(lists[kk], j1, j2);
      }
    }
  }

  lemma PushKeepsFlags(nbase: nat, frames: seq<Frame>, lists: seq<seq<nat>>, k: nat, h: nat)
    requires FlagsListed(nbase, frames, lists) && k < |lists|
    requires nbase <= h && h - nbase + Pow2(k) <= |frames|
    ensures FlagsListed(nbase, frames[h - nbase := Frame(true, k)], lists[k := [h] + lists[k]])
  {
    var frames', lists' := frames[h - nbase := Frame(true, k)], lists[k := [h] + lists[k]];
    forall i
      ensures FlagListed(nbase, frames', lists', i)
    {
      if 0 <= i < |frames'| && frames'[i].head && i != h - nbase {
        assert frames'[i] == frames[i];
        assert FlagListed(nbase, frames, lists, i);
        assert nbase + i in lists[frames[i].order];
      }
    }
  }

  lemma PushKeepsDisjoint(nbase: nat, frames: seq<Frame>, k: nat, h: nat)
    requires FreeDisjoint(frames) && FreeAvoids(nbase, frames, h, Pow2(k))
    requires nbase <= h < nbase + |frames| && !frames[h - nbase].head
    ensures FreeDisjoint(frames[h - nbase := Frame(true, k)])
  {
    var frames' := frames[h - nbase := Frame(true, k)];
    var o := h - nbase;
    forall i1, i2
      ensures Apart(frames', i1, i2)
    {
      if 0 <= i1 < i2 < |frames'| && frames'[i1].head && frames'[i2].head {
        if i1 == o {
          assert frames[i2].head && Disjoint(nbase + i2, Pow2(frames[i2].order), h, Pow2(k));
        } else if i2 == o {
          assert frames[i1].head && Disjoint(nbase + i1, Pow2(frames[i1].order), h, Pow2(k));
        } else {
          assert frames'[i1] == frames[i1] && frames'[i2] == frames[i2];
          assert Apart(frames, i1, i2);
        }
      }
    }
  }

  /** buddy_push keeps the shape of the free area. */
  lemma PushKeepsShape(nbase: nat, frames: seq<Frame>, lists: seq<seq<nat>>, k: nat, h: nat)
    requires Shaped(nbase, frames, lists) && k < ORDERS
    requires nbase <= h && h + Pow2(k) <= nbase + |frames| && Aligned(h, k)
    requires !frames[h - nbase].head && FreeAvoids(nbase, frames, h, Pow2(k))
    ensures Shaped(nbase, frames[h - nbase := Frame(true, k)], lists[k := [h] + lists[k]])
  {
    PushKeepsHeads(nbase, frames, lists, k, h);
    PushKeepsNoDup(lists, k, h);
    PushKeepsFlags(nbase, frames, lists, k, h);
    PushKeepsDisjoint(nbase, frames, k, h);
  }

  lemma PopKeepsHeads(nbase: nat, frames: seq<Frame>, lists: seq<seq<nat>>, k: nat, pos: nat)
    requires HeadsOk(nbase, frames, lists) && NoDup(lists) && k < |lists| && pos < |lists[k]|
    ensures var h := lists[k][pos];
      HeadOk(nbase, frames, h, k) &&
      HeadsOk(nbase, frames[h - nbase := Frame(false, k)], lists[k := Erase(lists[k], pos)])
  {
    var h := lists[k][pos];
    assert HeadOk(nbase, frames, h, k);
    var frames', lists' := frames[h - nbase := Frame(false, k)], lists[k := Erase(lists[k], pos)];
    forall kk, j | 0 <= kk < |lists'| && 0 <= j < |lists'[kk]|
      ensures HeadOk(nbase, frames', lists'[kk][j], kk)
    {
      if kk == k {
        var j' := if j < pos then j else j + 1;
        assert lists'[kk][j] == lists[k][j'];
        assert DistinctAt(lists[k], j', pos) && DistinctAt(lists[k], pos, j');
        assert lists[k][j'] != h;
        assert HeadOk(nbase, frames, lists[k][j'], k);
      } else {
        assert HeadOk(nbase, frames, lists[kk][j], kk);
        assert lists[kk][j] != h;
      }
    }
  }

  lemma PopKeepsNoDup(lists: seq<seq<nat>>, k: nat, pos: nat)
    requires NoDup(lists) && k < |lists| && pos < |lists[k]|
    ensures NoDup(lists[k := Erase(lists[k], pos)])
  {
    var lists' := lists[k := Erase(lists[k], pos)];
    forall kk, j1, j2 | 0 <= kk < |lists'|
      ensures DistinctAt(lists'[kk], j1, j2)
    {
      if kk == k && 0 <= j1 < j2 < |lists'[kk]| {
        var a := if j1 < pos then j1 else j1 + 1;
        var b := if j2 < pos then j2 else j2 + 1;
        assert DistinctAt(lists[k], a, b);
        assert lists'[kk][j1] == lists[k][a] && lists'[kk][j2] == lists[k][b];
      } else if kk != k {
        assert DistinctAt(lists[kk], j1, j2);
      }
    }
  }

  lemma PopKeepsFlags(nbase: nat, frames: seq<Frame>, lists: seq<seq<nat>>, k: nat, pos: nat)
    requires FlagsListed(nbase, frames, lists) && HeadsOk(nbase, frames, lists) && NoDup(lists)
    requires k < |lists| && pos < |lists[k]|
    ensures var h := lists[k][pos];
      HeadOk(nbase, frames, h, k) &&
      FlagsListed(nbase, frames[h - nbase := Frame(false, k)], lists[k := Erase(lists[k], pos)])
  {
    var h := lists[k][pos];
    assert HeadOk(nbase, frames, h, k);
    var frames', lists' := frames[h - nbase := Frame(false, k)], lists[k := Erase(lists[k], pos)];
    forall i | 0 <= i < |frames'| && frames'[i].head
      ensures FlagListed(nbase, frames', lists', i)
    {
      assert frames'[i] == frames[i];
      assert FlagListed(nbase, frames, lists, i);
      var x := nbase + i;
      if frames[i].order == k {
        var j :| 0 <= j < |lists[k]| && lists[k][j] == x;
        assert j != pos;
        if j < pos {
          assert lists'[k][j] == x;
        } else {
          assert lists'[k][j - 1] == x;
        }
      }
    }
  }

  lemma PopKeepsDisjoint(nbase: nat, frames: seq<Frame>, o: nat, k: nat)
    requires FreeDisjoint(frames) && o < |frames|
    ensures FreeDisjoint(frames[o := Frame(false, k)])
  {
    var frames' := frames[o := Frame(false, k)];
    forall i1, i2
      ensures Apart(frames', i1, i2)
    {
      if 0 <= i1 < i2 < |frames'| && frames'[i1].head && frames'[i2].head {
        assert frames'[i1] == frames[i1] && frames'[i2] == frames[i2];
        assert Apart(frames, i1, i2);
      }
    }
  }

  /** A popped block lies in the table and no remaining free block overlaps it. */
  lemma PopAvoids(nbase: nat, frames: seq<Frame>, lists: seq<seq<nat>>, k: nat, pos: nat)
    requires Shaped(nbase, frames, lists) && k < ORDERS && pos < |lists[k]|
    ensures var h := lists[k][pos];
      HeadOk(nbase, frames, h, k) && h + Pow2(k) <= nbase + |frames| &&
      FreeAvoids(nbase, frames[h - nbase := Frame(false, k)], h, Pow2(k))
  {
    var h := lists[k][pos];
    assert HeadOk(nbase, frames, h, k);
    var o := h - nbase;
    assert FlagListed(nbase, frames, lists, o);
    var frames' := frames[o := Frame(false, k)];
    forall i | 0 <= i < |frames'| && frames'[i].head
      ensures Disjoint(nbase + i, Pow2(frames'[i].order), h, Pow2(k))
    {
      assert frames'[i] == frames[i];
      assert Apart(frames, i, o) && Apart(frames, o, i);
    }
  }

  /** buddy_pop keeps the shape of the free area. */
  lemma PopKeepsShape(nbase: nat, frames: seq<Frame>, lists: seq<seq<nat>>, k: nat, pos: nat)
    requires Shaped(nbase, frames, lists) && k < ORDERS && pos < |lists[k]|
    ensures var h := lists[k][pos];
      && HeadOk(nbase, frames, h, k)
      && Shaped(nbase, frames[h - nbase := Frame(false, k)], lists[k := Erase(lists[k], pos)])
  {
    var h := lists[k][pos];
    assert HeadOk(nbase, frames, h, k);
    PopKeepsHeads(nbase, frames, lists, k, pos);
    PopKeepsNoDup(lists, k, pos);
    PopKeepsFlags(nbase, frames, lists, k, pos);
    PopKeepsDisjoint(nbase, frames, h - nbase, k);
  }

  function Max(a: nat, b: nat): nat
  {
    if a < b then b else a
  }

  /** The descriptors after the pushes of P: each head flagged with its order. */
  ghost function MarkHeads(nbase: nat, frames: seq<Frame>, P: seq<Block>): (r: seq<Frame>)
    ensures |r| == |frames|
  {
    if P == [] then frames
    else
      var f := MarkHeads(nbase, frames, P[..|P| - 1]);
      var b := P[|P| - 1];
      if nbase <= b.head < nbase + |f| then f[b.head - nbase := Frame(true, b.order)] else f
  }

  /** The lists after the pushes of P, in order. */
  ghost function PushAll(ls: seq<seq<nat>>, P: seq<Block>): (r: seq<seq<nat>>)
    ensures |r| == |ls|
  {
    if P == [] then ls
    else
      var l := PushAll(ls, P[..|P| - 1]);
      var b := P[|P| - 1];
      if b.order < |l| then l[b.order := [b.head] + l[b.order]] else l
  }

  lemma PushAllSnoc(ls: seq<seq<nat>>, P: seq<Block>, b: Block)
    requires b.order < |ls|
    ensures var l := PushAll(ls, P);
      PushAll(ls, P + [b]) == l[b.order := [b.head] + l[b.order]]
  {
    assert (P + [b])[..|P|] == P;
  }

  lemma MarkHeadsSnoc(nbase: nat, frames: seq<Frame>, P: seq<Block>, b: Block)
    requires nbase <= b.head < nbase + |frames|
    ensures var f := MarkHeads(nbase, frames, P);
      MarkHeads(nbase, frames, P + [b]) == f[b.head - nbase := Frame(true, b.order)]
  {
    assert (P + [b])[..|P|] == P;
  }

  lemma {:induction false} PushAllIs(ls: seq<seq<nat>>, P: seq<Block>, k: nat)
    requires k < |ls|
    ensures PushAll(ls, P)[k] == Pushed(P, k) + ls[k]
  {
    if P != [] {
      PushAllIs(ls, P[..|P| - 1], k);
    }
  }

  /** Every block free in G was free in F already, or lies inside [lo, hi). */
  ghost predicate GrowsOnlyIn(nbase: nat, F: seq<Frame>, G: seq<Frame>, lo: int, hi: int)
  {
    |F| == |G| &&
    forall i :: 0 <= i < |G| && G[i].head ==>
      G[i] == F[i] || (lo <= nbase + i && nbase + i + Pow2(G[i].order) <= hi)
  }

  /** A range that avoided the free blocks of F and lies outside [lo, hi)
      avoids the free blocks of G. */
  lemma GrowsAvoid(nbase: nat, F: seq<Frame>, G: seq<Frame>, lo: int, hi: int, a: int, len: int)
    requires GrowsOnlyIn(nbase, F, G, lo, hi)
    requires FreeAvoids(nbase, F, a, len) && Disjoint(a, len, lo, hi - lo)
    ensures FreeAvoids(nbase, G, a, len)
  {
    forall i | 0 <= i < |G| && G[i].head
      ensures Disjoint(nbase + i, Pow2(G[i].order), a, len)
    {
      if G[i] == F[i] {
        assert F[i].head;
      }
    }
  }

  /** In the init_memmap loop, the head at cur is clear and the block
      [cur, cur + 2^k) avoids all free blocks. */
  lemma BlockClear(nbase: nat, frames: seq<Frame>, cur: nat, remain: nat, k: nat)
    requires nbase <= cur && cur + remain <= nbase + |frames|
    requires 0 < remain && Pow2(k) <= remain
    requires FreeAvoids(nbase, frames, cur, remain)
    ensures !frames[cur - nbase].head && FreeAvoids(nbase, frames, cur, Pow2(k))
  {
    AvoidsWithin(nbase, frames, cur, remain, cur, Pow2(k));
  }

  /** After the block at cur is flagged, the rest of the range still avoids
      every free block, and only [base, cur + 2^k) has gained free blocks. */
  lemma InitStep(nbase: nat, F: seq<Frame>, frames: seq<Frame>, base: nat, cur: nat, remain: nat, k: nat)
    requires nbase <= cur && cur + remain <= nbase + |frames| && base <= cur
    requires 0 < remain && Pow2(k) <= remain
    requires FreeAvoids(nbase, frames, cur, remain) && GrowsOnlyIn(nbase, F, frames, base, cur)
    ensures var frames' := frames[cur - nbase := Frame(true, k)];
      FreeAvoids(nbase, frames', cur + Pow2(k), remain - Pow2(k)) &&
      GrowsOnlyIn(nbase, F, frames', base, cur + Pow2(k))
  {
    AvoidsWithin(nbase, frames, cur, remain, cur + Pow2(k), remain - Pow2(k));
    MarkAvoids(nbase, frames, cur, k, cur + Pow2(k), remain - Pow2(k));
  }

  /** The descriptors with the flags of the frames [base, base + n) cleared. */
  ghost function Cleared(nbase: nat, F: seq<Frame>, base: nat, n: nat): (G: seq<Frame>)
    ensures |G| == |F|
    ensures forall i :: 0 <= i < |F| ==> G[i] == if base <= nbase + i < base + n then Frame(false, F[i].order) else F[i]
  {
    seq(|F|, i requires 0 <= i < |F| => if base <= nbase + i < base + n then Frame(false, F[i].order) else F[i])
  }

  /** Clearing the flags of a range no free block overlaps changes nothing. */
  lemma ClearedUnchanged(nbase: nat, F: seq<Frame>, base: nat, n: nat)
    requires FreeAvoids(nbase, F, base, n)
    ensures Cleared(nbase, F, base, n) == F
  {
    var G := Cleared(nbase, F, base, n);
    forall i | 0 <= i < |G|
      ensures G[i] == F[i]
    {
    }
  }

  // -----------------------------------------------------------------------
  // The merge of free_pages, stated over values

  /** The buddy b of a block of order k can be merged: its frame is in the
      table, flagged with order k, and on list k. */
  predicate CanMerge(nbase: nat, frames: seq<Frame>, lists: seq<seq<nat>>, b: nat, k: nat)
  {
    nbase <= b < nbase + |frames| && frames[b - nbase] == Frame(true, k) && k < |lists| && b in lists[k]
  }

  /** Where the merge loop of free_pages stops: the head and order of the
      merged block and the descriptors and lists with the merged buddies taken
      off. */
  datatype Merged = Merged(head: nat, order: nat, frames: seq<Frame>, lists: seq<seq<nat>>)

  /** The merge loop of free_pages from the block at h of order k: while k is
      below max_order mo and the buddy can be merged, the buddy leaves list k
      with its flag cleared and the block moves to the lower of the two at
      order k + 1. */
  function Merge(nbase: nat, frames: seq<Frame>, lists: seq<seq<nat>>, h: nat, k: nat, mo: nat): (r: Merged)
    ensures |r.frames| == |frames| && |r.lists| == |lists|
    ensures r.order == k || k < r.order <= mo
    decreases mo - k
  {
    if k >= mo then Merged(h, k, frames, lists)
    else
      var b := Buddy(h, k);
      if CanMerge(nbase, frames, lists, b, k) then
        Merge(nbase, frames[b - nbase := Frame(false, k)], lists[k := RemoveFirst(lists[k], b)], Lower(h, k), k + 1, mo)
      else Merged(h, k, frames, lists)
  }

  /** Merging conserves the free pages: the merged block and the lists it
      leaves hold the pages of the lists and the freed block. */
  lemma {:induction false} MergeSum(nbase: nat, frames: seq<Frame>, lists: seq<seq<nat>>, h: nat, k: nat, mo: nat)
    ensures var r := Merge(nbase, frames, lists, h, k, mo);
      Sum(r.lists) + Pow2(r.order) == Sum(lists) + Pow2(k)
    decreases mo - k
  {
    if k < mo {
      var b := Buddy(h, k);
      if CanMerge(nbase, frames, lists, b, k) {
        var l := RemoveFirst(lists[k], b);
        MergeSum(nbase, frames[b - nbase := Frame(false, k)], lists[k := l], Lower(h, k), k + 1, mo);
        RemoveFirstLength(lists[k], b);
        SumUpdate(lists, k, l);
        MulSucc(|l|, Pow2(k));
      }
    }
  }

  /** A range that avoided the free blocks and the freed block [h, h + 2^k)
      avoids the free blocks the merge leaves and the merged block: the merged
      block is the freed block together with buddies that were free. */
  lemma {:induction false} MergeAvoids(nbase: nat, F: seq<Frame>, L: seq<seq<nat>>, h: nat, k: nat, mo: nat, a: int, len: int)
    requires h % Pow2(k) == 0 && len > 0
    requires FreeAvoids(nbase, F, a, len) && Disjoint(a, len, h, Pow2(k))
    ensures var r := Merge(nbase, F, L, h, k, mo);
      FreeAvoids(nbase, r.frames, a, len) && Disjoint(a, len, r.head, Pow2(r.order))
    decreases mo - k
  {
    if k < mo {
      var b := Buddy(h, k);
      if CanMerge(nbase, F, L, b, k) {
        var F' := F[b - nbase := Frame(false, k)];
        assert F[b - nbase].head;
        assert Disjoint(a, len, b, Pow2(k));
        BuddyFacts(h, k);
        assert Pow2(k + 1) == 2 * Pow2(k);
        MergeAvoids(nbase, F', L[k := RemoveFirst(L[k], b)], Lower(h, k), k + 1, mo, a, len);
      }
    }
  }

  /** The halves alloc_pages pushes while splitting the block [blk, blk + 2^j)
      lie inside it. */
  lemma {:induction false} SplitGrows(nbase: nat, F: seq<Frame>, blk: nat, j: nat, i: nat)
    requires i <= j && nbase <= blk && blk + Pow2(j) <= nbase + |F|
    ensures GrowsOnlyIn(nbase, F, MarkHeads(nbase, F, SplitBlocks(blk, j, i)), blk, blk + Pow2(j))
    decreases j - i
  {
    if i < j {
      var P := SplitBlocks(blk, j, i + 1);
      var b := Block(blk + Pow2(i), i);
      SplitGrows(nbase, F, blk, j, i + 1);
      assert SplitBlocks(blk, j, i) == P + [b];
      Pow2Monotone(i + 1, j);
      MarkHeadsSnoc(nbase, F, P, b);
      GrowsWiden(nbase, F, MarkHeads(nbase, F, P), blk, blk + Pow2(j), b.head, i, blk, blk + Pow2(j));
    }
  }

  /** alloc_pages takes the free block [blk, blk + 2^j) of list j and splits
      it: a range that avoided the free blocks is apart from that block and
      avoids the free blocks alloc_pages leaves. */
  lemma AllocAvoids(nbase: nat, F: seq<Frame>, L: seq<seq<nat>>, blk: nat, j: nat, need: nat, a: int, len: int)
    requires need <= j && HeadOk(nbase, F, blk, j) && FlagListed(nbase, F, L, blk - nbase)
    requires FreeAvoids(nbase, F, a, len)
    ensures Disjoint(a, len, blk, Pow2(j))
    ensures FreeAvoids(nbase, MarkHeads(nbase, F[blk - nbase := Frame(false, j)], SplitBlocks(blk, j, need)), a, len)
  {
    var F1 := F[blk - nbase := Frame(false, j)];
    assert F[blk - nbase].head;
    assert FreeAvoids(nbase, F1, a, len) by {
      forall i | 0 <= i < |F1| && F1[i].head
        ensures Disjoint(nbase + i, Pow2(F1[i].order), a, len)
      {
        assert F1[i] == F[i];
      }
    }
    SplitGrows(nbase, F1, blk, j, need);
    GrowsAvoid(nbase, F1, MarkHeads(nbase, F1, SplitBlocks(blk, j, need)), blk, blk + Pow2(j), a, len);
  }

  /** Freeing the right half b8 + 4 of an allocated 8-page block: its buddy
      b8 heads no free block, so nothing merges; afterwards the left half
      still overlaps no free block. */
  lemma RightHalfAlone(nbase: nat, F: seq<Frame>, L: seq<seq<nat>>, b8: nat, mo: nat)
    requires b8 % 8 == 0 && nbase <= b8 && b8 + 8 <= nbase + |F| && FreeAvoids(nbase, F, b8, 8)
    ensures Merge(nbase, F, L, b8 + 4, 2, mo) == Merged(b8 + 4, 2, F, L)
    ensures Aligned(b8, 2) && Aligned(b8 + 4, 2) && FreeAvoids(nbase, F, b8 + 4, 4)
    ensures FreeAvoids(nbase, F[b8 + 4 - nbase := Frame(true, 2)], b8, 4)
  {
    SmallLogs();
    BuddyOfEven(b8, 2);
    assert Buddy(b8 + 4, 2) == b8;
    BlockClear(nbase, F, b8, 8, 0);
    AlignedMod(b8, 2);
    AlignedMod(b8 + 4, 2);
    AvoidsWithin(nbase, F, b8, 8, b8 + 4, 4);
    AvoidsWithin(nbase, F, b8, 8, b8, 4);
    MarkAvoids(nbase, F, b8 + 4, 2, b8, 4);
  }

  /** Then freeing the left half b8: its buddy b8 + 4 is free at order 2, so
      the merge goes on to an order of at least 3, and the merged block holds
      all 8 pages. */
  lemma LeftHalfMerges(nbase: nat, F: seq<Frame>, L: seq<seq<nat>>, b8: nat, mo: nat)
    requires b8 % 8 == 0 && 2 < mo && |L| == ORDERS && nbase <= b8 && b8 + 8 <= nbase + |F|
    requires F[b8 + 4 - nbase] == Frame(true, 2) && b8 + 4 in L[2]
    ensures var M := Merge(nbase, F, L, b8, 2, mo);
      M.order >= 3 && (M.head == MergeHead(b8, 2, M.order) ==> M.head <= b8 && b8 + 8 <= M.head + Pow2(M.order))
  {
    SmallLogs();
    BuddyOfEven(b8, 2);
    assert Lower(b8, 2) == b8;
    var M := Merge(nbase, F, L, b8, 2, mo);
    MergeHeadShift(b8, 2, M.order);
    MergeHeadContains(b8, 3, M.order);
  }

  /** One merge of free_pages moves the merge on to the lower head at the
      next order. */
  lemma MergeNext(nbase: nat, F: seq<Frame>, L: seq<seq<nat>>, h: nat, k: nat, mo: nat,
                  F': seq<Frame>, L': seq<seq<nat>>)
    requires k < mo && CanMerge(nbase, F, L, Buddy(h, k), k)
    requires F' == F[Buddy(h, k) - nbase := Frame(false, k)]
    requires L' == L[k := RemoveFirst(L[k], Buddy(h, k))]
    ensures Merge(nbase, F, L, h, k, mo) == Merge(nbase, F', L', Lower(h, k), k + 1, mo)
  {
  }

  /** After the buddy of the block [idx, idx + 2^k) is taken off the lists,
      the merged block at Lower(idx, k) is aligned to order k + 1, lies in the
      table and overlaps no free block. */
  lemma MergeStep(nbase: nat, F: seq<Frame>, G: seq<Frame>, idx: nat, k: nat)
    requires Aligned(idx, k) && nbase <= idx && idx + Pow2(k) <= nbase + |F|
    requires FreeAvoids(nbase, F, idx, Pow2(k))
    requires var b := Buddy(idx, k);
      && nbase <= b && b + Pow2(k) <= nbase + |F|
      && G == F[b - nbase := Frame(false, k)] && FreeAvoids(nbase, G, b, Pow2(k))
    ensures var h := Lower(idx, k);
      && Aligned(h, k + 1) && nbase <= h && h + Pow2(k + 1) <= nbase + |G|
      && FreeAvoids(nbase, G, h, Pow2(k + 1))
  {
    var b := Buddy(idx, k);
    var h := Lower(idx, k);
    AlignedMod(idx, k);
    BuddyFacts(idx, k);
    AlignedMod(h, k + 1);
    assert FreeAvoids(nbase, G, idx, Pow2(k));
    forall i | 0 <= i < |G| && G[i].head
      ensures Disjoint(nbase + i, Pow2(G[i].order), h, Pow2(k + 1))
    {
      assert Disjoint(nbase + i, Pow2(G[i].order), idx, Pow2(k));
      assert Disjoint(nbase + i, Pow2(G[i].order), b, Pow2(k));
    }
  }

  /** Inside the split loop of alloc_pages, about to halve the block
      [blk, blk + 2^u): the upper half blk + 2^(u-1) is aligned to its order,
      in the table and overlaps no free block, and neither does the lower half. */
  lemma SplitPre(nbase: nat, frames: seq<Frame>, blk: nat, j: nat, u: nat)
    requires 0 < u <= j && nbase <= blk && blk + Pow2(j) <= nbase + |frames| && Aligned(blk, j)
    requires FreeAvoids(nbase, frames, blk, Pow2(u))
    ensures var right := blk + Pow2(u - 1);
      && Aligned(right, u - 1) && right + Pow2(u - 1) <= nbase + |frames|
      && !frames[right - nbase].head && FreeAvoids(nbase, frames, right, Pow2(u - 1))
      && FreeAvoids(nbase, frames, blk, Pow2(u - 1))
  {
    var i := u - 1;
    var right := blk + Pow2(i);
    Pow2Monotone(u, j);
    AlignedMod(blk, j);
    AlignedWeaken(blk, j, i);
    MulMod(1, Pow2(i));
    AlignedAdd(blk, Pow2(i), i);
    AlignedMod(right, i);
    AvoidsWithin(nbase, frames, blk, Pow2(u), right, Pow2(i));
    AvoidsWithin(nbase, frames, blk, Pow2(u), blk, Pow2(i));
    BlockClear(nbase, frames, right, Pow2(i), i);
  }

  /** One step of the split loop of alloc_pages, from the values before the
      push of blk + 2^(u-1) (Fp, Lp) to the values after it (F', L'). */
  lemma SplitStep(nbase: nat, F1: seq<Frame>, L1: seq<seq<nat>>, blk: nat, j: nat, u: nat,
                  Fp: seq<Frame>, Lp: seq<seq<nat>>, F': seq<Frame>, L': seq<seq<nat>>)
    requires 0 < u <= j && u - 1 < |L1| && nbase <= blk && blk + Pow2(u - 1) < nbase + |F1|
    requires Lp == PushAll(L1, SplitBlocks(blk, j, u)) && Fp == MarkHeads(nbase, F1, SplitBlocks(blk, j, u))
    requires Fp[blk - nbase] == F1[blk - nbase]
    requires F' == Fp[blk + Pow2(u - 1) - nbase := Frame(true, u - 1)]
    requires L' == Lp[u - 1 := [blk + Pow2(u - 1)] + Lp[u - 1]]
    ensures L' == PushAll(L1, SplitBlocks(blk, j, u - 1)) && F' == MarkHeads(nbase, F1, SplitBlocks(blk, j, u - 1))
    ensures F'[blk - nbase] == F1[blk - nbase]
  {
    var i := u - 1;
    var right := blk + Pow2(i);
    assert SplitBlocks(blk, j, i) == SplitBlocks(blk, j, u) + [Block(right, i)];
    PushAllSnoc(L1, SplitBlocks(blk, j, u), Block(right, i));
    MarkHeadsSnoc(nbase, F1, SplitBlocks(blk, j, u), Block(right, i));
  }

  /** Flagging a block inside a wider window keeps the window's ownership. */
  lemma GrowsWiden(nbase: nat, F: seq<Frame>, G: seq<Frame>, lo: int, hi: int, h: nat, k: nat, lo': int, hi': int)
    requires GrowsOnlyIn(nbase, F, G, lo, hi) && nbase <= h < nbase + |G|
    requires lo' <= lo && hi <= hi' && lo' <= h && h + Pow2(k) <= hi'
    ensures GrowsOnlyIn(nbase, F, G[h - nbase := Frame(true, k)], lo', hi')
  {
  }

  /** ClearPageProperty on a frame that heads no free block changes nothing. */
  lemma UnflagNoop(nbase: nat, frames: seq<Frame>, x: nat)
    requires nbase <= x < nbase + |frames| && !frames[x - nbase].head
    ensures frames[x - nbase := Frame(false, frames[x - nbase].order)] == frames
  {
  }

  /** A frame that does not head a free block is on no free list. */
  lemma NotListed(nbase: nat, frames: seq<Frame>, lists: seq<seq<nat>>, x: nat)
    requires HeadsOk(nbase, frames, lists)
    requires nbase <= x < nbase + |frames| && !frames[x - nbase].head
    ensures forall k :: 0 <= k < |lists| ==> x !in lists[k]
  {
    forall k, j | 0 <= k < |lists| && 0 <= j < |lists[k]|
      ensures lists[k][j] != x
    {
      assert HeadOk(nbase, frames, lists[k][j], k);
    }
  }

  /** The halves pushed while splitting an order-j block down to order i hold
      2^j - 2^i pages. */
  lemma {:induction false} SumSplit(L: seq<seq<nat>>, blk: nat, j: nat, i: nat)
    requires i <= j < |L|
    ensures Sum(PushAll(L, SplitBlocks(blk, j, i))) + Pow2(i) == Sum(L) + Pow2(j)
    decreases j - i
  {
    if i < j {
      SumSplit(L, blk, j, i + 1);
      var P := SplitBlocks(blk, j, i + 1);
      PushAllSnoc(L, P, Block(blk + Pow2(i), i));
      SumPush(PushAll(L, P), i, blk + Pow2(i));
    }
  }

  /** The lists after the splits of alloc_pages: list k gains blk + 2^k at its
      front for need <= k < j and is unchanged otherwise. */
  lemma SplitLists(L: seq<seq<nat>>, blk: nat, j: nat, need: nat, k: nat)
    requires need <= j && k < |L|
    ensures PushAll(L, SplitBlocks(blk, j, need))[k] == if need <= k < j then [blk + Pow2(k)] + L[k] else L[k]
  {
    PushAllIs(L, SplitBlocks(blk, j, need), k);
    PushedSplit(blk, j, need, k);
  }

  /** One step of the init_memmap loop, from the values before the push of
      the block [cur, cur + 2^k) (done, cur, remain, F, L) to the values after
      it (done', cur', remain', F', L'): the block is the next one of the
      partition, and the loop's picture of the lists and descriptors moves on. */
  lemma RangeStep(nbase: nat, F0: seq<Frame>, L0: seq<seq<nat>>, P0: seq<Block>, mo: nat, base: nat,
                  done: seq<Block>, cur: nat, remain: nat, F: seq<Frame>, L: seq<seq<nat>>,
                  k: nat, done': seq<Block>, cur': nat, remain': nat, F': seq<Frame>, L': seq<seq<nat>>)
    requires P0 == done + Partition(cur, remain, mo) && remain > 0
    requires L == PushAll(L0, done) && F == MarkHeads(nbase, F0, done)
    requires nbase <= cur && cur + remain <= nbase + |F| && base <= cur && k < |L|
    requires FreeAvoids(nbase, F, cur, remain) && GrowsOnlyIn(nbase, F0, F, base, cur)
    requires k == ClampOrder(FitOrder(cur, remain, mo))
    requires done' == done + [Block(cur, k)] && cur' == cur + Pow2(k) && remain' + Pow2(k) == remain
    requires F' == F[cur - nbase := Frame(true, k)] && L' == L[k := [cur] + L[k]]
    ensures P0 == done' + Partition(cur', remain', mo)
    ensures L' == PushAll(L0, done') && F' == MarkHeads(nbase, F0, done')
    ensures FreeAvoids(nbase, F', cur', remain') && GrowsOnlyIn(nbase, F0, F', base, cur')
  {
    PartitionNext(P0, done, cur, remain, mo, k, cur', remain');
    PushAllSnoc(L0, done, Block(cur, k));
    MarkHeadsSnoc(nbase, F0, done, Block(cur, k));
    InitStep(nbase, F0, F, base, cur, remain, k);
  }

  lemma PartitionNext(P0: seq<Block>, done: seq<Block>, cur: nat, remain: nat, mo: nat,
                      k: nat, cur': nat, remain': nat)
    requires P0 == done + Partition(cur, remain, mo) && remain > 0
    requires k == ClampOrder(FitOrder(cur, remain, mo))
    requires cur' == cur + Pow2(k) && remain' + Pow2(k) == remain
    ensures P0 == (done + [Block(cur, k)]) + Partition(cur', remain', mo)
  {
    var P := Partition(cur', remain', mo);
    assert Partition(cur, remain, mo) == [Block(cur, k)] + P;
    assert done + ([Block(cur, k)] + P) == (done + [Block(cur, k)]) + P;
  }

  lemma AvoidsWithin(nbase: nat, frames: seq<Frame>, a: int, len: int, a': int, len': int)
    requires FreeAvoids(nbase, frames, a, len)
    requires a <= a' && a' + len' <= a + len
    ensures FreeAvoids(nbase, frames, a', len')
  {
  }

  /** Flagging a block that avoids [a, a + len) keeps the range clear. */
  lemma MarkAvoids(nbase: nat, frames: seq<Frame>, h: nat, k: nat, a: int, len: int)
    requires FreeAvoids(nbase, frames, a, len) && Disjoint(h, Pow2(k), a, len)
    requires nbase <= h < nbase + |frames|
    ensures FreeAvoids(nbase, frames[h - nbase := Frame(true, k)], a, len)
  {
  }

  /** The allocator invariant over the values of its globals. */
  ghost predicate Inv(nbase: nat, nframes: nat, frames: seq<Frame>, lists: seq<seq<nat>>, nrFree: seq<nat>, maxOrder: nat)
  {
    |frames| == nframes && maxOrder <= MAX_ORDER_CAP && Counts(nrFree, lists) && Shaped(nbase, frames, lists)
  }

  lemma PushedInv(nbase: nat, nframes: nat, F: seq<Frame>, L: seq<seq<nat>>, C: seq<nat>,
                  frames: seq<Frame>, lists: seq<seq<nat>>, nrFree: seq<nat>, maxOrder: nat, k: nat, h: nat)
    requires Inv(nbase, nframes, F, L, C, maxOrder) && k < ORDERS
    requires nbase <= h && h + Pow2(k) <= nbase + |F| && Aligned(h, k)
    requires !F[h - nbase].head && FreeAvoids(nbase, F, h, Pow2(k))
    requires frames == F[h - nbase := Frame(true, k)] && lists == L[k := [h] + L[k]] && nrFree == C[k := C[k] + 1]
    ensures Inv(nbase, nframes, frames, lists, nrFree, maxOrder)
    ensures Sum(lists) == Sum(L) + Pow2(k)
  {
    PushKeepsShape(nbase, F, L, k, h);
    SumPush(L, k, h);
    CountsUpdate(C, L, k, [h] + L[k]);
  }

  lemma PoppedInv(nbase: nat, nframes: nat, F: seq<Frame>, L: seq<seq<nat>>, C: seq<nat>,
                  frames: seq<Frame>, lists: seq<seq<nat>>, nrFree: seq<nat>, maxOrder: nat, k: nat, pos: nat, h: nat)
    requires Inv(nbase, nframes, F, L, C, maxOrder) && k < ORDERS && pos < |L[k]| && h == L[k][pos]
    requires HeadOk(nbase, F, h, k)
    requires frames == F[h - nbase := Frame(false, k)] && lists == L[k := Erase(L[k], pos)]
    requires nrFree == C[k := C[k] - 1]
    ensures Inv(nbase, nframes, frames, lists, nrFree, maxOrder)
    ensures Sum(lists) + Pow2(k) == Sum(L)
    ensures h + Pow2(k) <= nbase + |F| && FreeAvoids(nbase, frames, h, Pow2(k))
  {
    PopKeepsShape(nbase, F, L, k, pos);
    PopAvoids(nbase, F, L, k, pos);
    SumErase(L, k, pos);
    CountsUpdate(C, L, k, Erase(L[k], pos));
  }

  /** nr_free[k] is the length of list k. */
  ghost predicate Counts(nrFree: seq<nat>, lists: seq<seq<nat>>)
  {
    |nrFree| == |lists| && forall k :: 0 <= k < |lists| ==> nrFree[k] == |lists[k]|
  }

  lemma CountsUpdate(nrFree: seq<nat>, lists: seq<seq<nat>>, k: nat, L: seq<nat>)
    requires Counts(nrFree, lists) && k < |lists|
    ensures Counts(nrFree[k := |L|], lists[k := L])
  {
  }

  lemma MulSucc(n: int, p: int)
    ensures (n + 1) * p == n * p + p
  {
  }

  lemma SumPush(ls: seq<seq<nat>>, k: nat, h: nat)
    requires k < |ls|
    ensures Sum(ls[k := [h] + ls[k]]) == Sum(ls) + Pow2(k)
  {
    SumUpdate(ls, k, [h] + ls[k]);
    MulSucc(|ls[k]|, Pow2(k));
  }

  lemma SumErase(ls: seq<seq<nat>>, k: nat, pos: nat)
    requires k < |ls| && pos < |ls[k]|
    ensures Sum(ls[k := Erase(ls[k], pos)]) + Pow2(k) == Sum(ls)
  {
    var L := Erase(ls[k], pos);
    SumUpdate(ls, k, L);
    MulSucc(|L|, Pow2(k));
  }

  lemma SumEmpty(ls: seq<seq<nat>>)
    requires forall k :: 0 <= k < |ls| ==> ls[k] == []
    ensures Sum(ls) == 0
  {
    SumFromEmpty(ls, 0);
  }
}
