/** The order arithmetic of the buddy page allocator (kern/mm/buddy_pmm.c):
    the two logarithms, the aligned-fit search of init_memmap, the greedy
    partition it produces, the free-list scan of alloc_pages and the chain of
    merged heads of free_pages.  The allocator state itself is in BuddyState. */
module BuddyPmm {
  import opened Arith

  /** Number of free lists (buddy_area[32], orders 0..31). */
  const ORDERS: nat := 32
  /** 2^31: calc_max_order_by_total shifts 1u left by up to 31, so the frame
      count it is given must stay below this bound. */
  const FRAME_LIMIT: nat := 0x8000_0000
  /** The cap init_memmap puts on max_order. */
  const MAX_ORDER_CAP: nat := 31

  /** One block of a partition: its head frame index and its order. */
  datatype Block = Block(head: nat, order: nat)

  // ---------------------------------------------------------------------
  // ceil_log2_pages, calc_max_order_by_total, max_order_fit

  /** ceil_log2_pages: doubles p until it reaches n. */
  method CeilLog2Pages(n: nat) returns (k: nat)
    ensures Pow2(k) >= n
    ensures k == 0 || Pow2(k - 1) < n
    ensures k == CeilLog2(n)
  {
    var p: nat := 1;
    k := 0;
    while p < n
      invariant p == Pow2(k)
      invariant k == 0 || Pow2(k - 1) < n
    {
      p := p * 2;
      k := k + 1;
    }
    CeilLog2Unique(n, k);
  }

  /** calc_max_order_by_total: the largest k with 2^k <= total.  The loop tests
      1u << (k + 1), so total must stay below 2^31 for the shift to be defined. */
  method CalcMaxOrderByTotal(total: nat) returns (k: nat)
    requires total < FRAME_LIMIT
    ensures total >= 1 ==> Pow2(k) <= total < Pow2(k + 1)
    ensures total <= 1 ==> k == 0
    ensures k == FloorLog2(total) && k <= 30
  {
    k := 0;
    while Pow2(k + 1) <= total
      invariant k == 0 || Pow2(k) <= total
    {
      k := k + 1;
    }
    if total >= 1 {
      Pow2Of31();
      FloorLog2Unique(total, k);
      Pow2Below(k, 31);
    }
  }

  /** A block of order j starting at idx fits into the remain frames left and
      is aligned at idx. */
  predicate Fits(idx: nat, remain: nat, j: nat)
  {
    Pow2(j) <= remain && idx % Pow2(j) == 0
  }

  /** The value max_order_fit(idx, remain) computes when the scan starts at
      order k: the largest order j <= k whose block of 2^j frames fits into the
      remaining frames and is aligned at idx, or -1 when there is none. */
  function FitOrder(idx: nat, remain: nat, k: nat): (r: int)
    ensures -1 <= r <= k
    ensures r >= 0 ==> Fits(idx, remain, r)
    ensures forall j: nat :: r < j <= k ==> !Fits(idx, remain, j)
    ensures remain >= 1 ==> r >= 0
  {
    if Fits(idx, remain, k) then k
    else if k == 0 then -1
    else FitOrder(idx, remain, k - 1)
  }

  /** max_order_fit: scans the orders maxOrder down to 0. */
  method MaxOrderFit(idx: nat, remain: nat, maxOrder: nat) returns (r: int)
    ensures r == FitOrder(idx, remain, maxOrder)
  {
    var k: int := maxOrder;
    while k >= 0
      invariant -1 <= k <= maxOrder
      invariant forall j: nat :: k < j <= maxOrder ==> !Fits(idx, remain, j)
    {
      var blk := Pow2(k);
      if blk <= remain && idx % blk == 0 {
        FitOrderMaximal(idx, remain, maxOrder, k);
        return k;
      }
      k := k - 1;
    }
    FitOrderNone(idx, remain, maxOrder);
    r := -1;
  }

  lemma {:induction false} FitOrderMaximal(idx: nat, remain: nat, k: nat, j: nat)
    requires j <= k
    requires Fits(idx, remain, j)
    requires forall i: nat :: j < i <= k ==> !Fits(idx, remain, i)
    ensures FitOrder(idx, remain, k) == j
  {
    if j < k {
      FitOrderMaximal(idx, remain, k - 1, j);
    }
  }

  lemma {:induction false} FitOrderNone(idx: nat, remain: nat, k: nat)
    requires forall i: nat :: i <= k ==> !Fits(idx, remain, i)
    ensures FitOrder(idx, remain, k) == -1
  {
    if k > 0 {
      FitOrderNone(idx, remain, k - 1);
    }
  }

  // ---------------------------------------------------------------------
  // The partition built by init_memmap

  /** An order returned by max_order_fit, with the -1 of "no order fits"
      replaced by 0 as init_memmap does. */
  function ClampOrder(f: int): nat
  {
    if f < 0 then 0 else f
  }

  /** The blocks init_memmap pushes for [idx, idx + remain), in push order:
      at each step the largest aligned order that fits (order 0 if none). */
  function Partition(idx: nat, remain: nat, mo: nat): (P: seq<Block>)
    decreases remain
  {
    if remain == 0 then []
    else
      var k := ClampOrder(FitOrder(idx, remain, mo));
      [Block(idx, k)] + Partition(idx + Pow2(k), remain - Pow2(k), mo)
  }

  /** P lays its blocks one after the other with no gap and no overlap,
      from idx up to idx + remain. */
  ghost predicate Tiles(P: seq<Block>, idx: nat, remain: nat)
  {
    && (remain == 0 <==> P == [])
    && (|P| > 0 ==> P[0].head == idx && P[|P| - 1].head + Pow2(P[|P| - 1].order) == idx + remain)
    && (forall j :: 0 <= j < |P| - 1 ==> P[j + 1].head == P[j].head + Pow2(P[j].order))
  }

  /** Every block of P lies inside [idx, idx + remain), is aligned to its own
      size, has order at most mo, and is the largest aligned block that fits
      where it starts. */
  ghost predicate BlocksFit(P: seq<Block>, idx: nat, remain: nat, mo: nat)
  {
    forall j :: 0 <= j < |P| ==> FitsAt(P[j], idx, remain, mo)
  }

  /** Block c lies inside [idx, idx + remain), is aligned, has order at most
      mo, and is the largest such block at its head. */
  ghost predicate FitsAt(c: Block, idx: nat, remain: nat, mo: nat)
  {
    && idx <= c.head && c.head + Pow2(c.order) <= idx + remain
    && c.order <= mo && c.head % Pow2(c.order) == 0
    && c.order == FitOrder(c.head, idx + remain - c.head, mo)
  }

  /** The partition covers [idx, idx + remain) exactly. */
  lemma {:induction false} PartitionTiles(idx: nat, remain: nat, mo: nat)
    ensures Tiles(Partition(idx, remain, mo), idx, remain)
    decreases remain
  {
    if remain > 0 {
      var k := ClampOrder(FitOrder(idx, remain, mo));
      PartitionTiles(idx + Pow2(k), remain - Pow2(k), mo);
      TilesCons(Block(idx, k), Partition(idx + Pow2(k), remain - Pow2(k), mo), remain);
    }
  }

  lemma TilesCons(b: Block, Q: seq<Block>, remain: nat)
    requires Pow2(b.order) <= remain
    requires Tiles(Q, b.head + Pow2(b.order), remain - Pow2(b.order))
    ensures Tiles([b] + Q, b.head, remain)
  {
    var P := [b] + Q;
    forall j | 0 <= j < |P| - 1
      ensures P[j + 1].head == P[j].head + Pow2(P[j].order)
    {
      if j > 0 {
        assert P[j] == Q[j - 1] && P[j + 1] == Q[j];
      }
    }
  }

  /** Each block of the partition is a maximal aligned block of order <= mo. */
  lemma {:induction false} PartitionBlocksFit(idx: nat, remain: nat, mo: nat)
    ensures BlocksFit(Partition(idx, remain, mo), idx, remain, mo)
    decreases remain
  {
    if remain > 0 {
      var f := FitOrder(idx, remain, mo);
      var k := ClampOrder(f);
      assert k == f;
      PartitionBlocksFit(idx + Pow2(k), remain - Pow2(k), mo);
      BlocksFitCons(Block(idx, k), Partition(idx + Pow2(k), remain - Pow2(k), mo), remain, mo);
    }
  }

  lemma BlocksFitCons(b: Block, Q: seq<Block>, remain: nat, mo: nat)
    requires Pow2(b.order) <= remain && b.order <= mo && b.head % Pow2(b.order) == 0
    requires b.order == FitOrder(b.head, remain, mo)
    requires BlocksFit(Q, b.head + Pow2(b.order), remain - Pow2(b.order), mo)
    ensures BlocksFit([b] + Q, b.head, remain, mo)
  {
    var P := [b] + Q;
    var next := b.head + Pow2(b.order);
    forall j | 0 <= j < |P|
      ensures FitsAt(P[j], b.head, remain, mo)
    {
      if j == 0 {
        assert b.head + remain - b.head == remain;
      } else {
        assert P[j] == Q[j - 1];
        FitsWiden(Q[j - 1], b.head, Pow2(b.order), remain, mo);
      }
    }
  }

  /** A block that fits in [idx + d, idx + remain) fits in [idx, idx + remain). */
  lemma FitsWiden(c: Block, idx: nat, d: nat, remain: nat, mo: nat)
    requires d <= remain && FitsAt(c, idx + d, remain - d, mo)
    ensures FitsAt(c, idx, remain, mo)
  {
    assert idx + d + (remain - d) - c.head == idx + remain - c.head;
  }

  /** The heads a sequence of pushes leaves at the front of list k, most recent
      first (buddy_push inserts at the head of the list). */
  function Pushed(bs: seq<Block>, k: nat): seq<nat>
  {
    if bs == [] then []
    else
      var last := bs[|bs| - 1];
      (if last.order == k then [last.head] else []) + Pushed(bs[..|bs| - 1], k)
  }

  lemma PushedSnoc(bs: seq<Block>, b: Block, k: nat)
    ensures Pushed(bs + [b], k) == (if b.order == k then [b.head] else []) + Pushed(bs, k)
  {
    assert (bs + [b])[..|bs|] == bs;
  }

  // ---------------------------------------------------------------------
  // Free lists as sequences of head frame indices

  /** list_del of the node at position pos. */
  function Erase(s: seq<nat>, pos: nat): (r: seq<nat>)
    requires pos < |s|
    ensures |r| == |s| - 1
    ensures forall j :: 0 <= j < pos ==> r[j] == s[j]
    ensures forall j :: pos <= j < |r| ==> r[j] == s[j + 1]
  {
    s[..pos] + s[pos + 1..]
  }

  /** list_del of the first node, as buddy_pop does. */
  lemma EraseFront(s: seq<nat>)
    requires |s| > 0
    ensures Erase(s, 0) == s[1..]
  {
  }

  /** s without the first occurrence of x. */
  function RemoveFirst(s: seq<nat>, x: nat): seq<nat>
  {
    if s == [] then []
    else if s[0] == x then s[1..]
    else [s[0]] + RemoveFirst(s[1..], x)
  }

  /** Removing a value that occurs takes exactly one element away. */
  lemma {:induction false} RemoveFirstLength(s: seq<nat>, x: nat)
    requires x in s
    ensures |RemoveFirst(s, x)| == |s| - 1
  {
    if s[0] != x {
      assert x in s[1..];
      RemoveFirstLength(s[1..], x);
    }
  }

  /** Erasing the node the scan of free_pages finds (the first one equal to x)
      removes the first occurrence of x. */
  lemma {:induction false} EraseFirst(s: seq<nat>, pos: nat)
    requires pos < |s|
    requires forall j :: 0 <= j < pos ==> s[j] != s[pos]
    ensures Erase(s, pos) == RemoveFirst(s, s[pos])
  {
    if pos > 0 {
      EraseFirst(s[1..], pos - 1);
      assert Erase(s, pos) == [s[0]] + Erase(s[1..], pos - 1);
    }
  }

  /** Free pages held by the lists: the sum of nr_free[k] * 2^k over the orders. */
  function Sum(ls: seq<seq<nat>>): nat
  {
    SumFrom(ls, 0)
  }

  /** The pages held by the lists of orders i and above. */
  function SumFrom(ls: seq<seq<nat>>, i: nat): nat
    decreases |ls| - i
  {
    if i >= |ls| then 0 else |ls[i]| * Pow2(i) + SumFrom(ls, i + 1)
  }

  /** Replacing list k changes the sum by the difference of its pages. */
  lemma SumUpdate(ls: seq<seq<nat>>, k: nat, L: seq<nat>)
    requires k < |ls|
    ensures Sum(ls[k := L]) + |ls[k]| * Pow2(k) == Sum(ls) + |L| * Pow2(k)
  {
    SumFromUpdate(ls, 0, k, L);
  }

  lemma {:induction false} SumFromUpdate(ls: seq<seq<nat>>, i: nat, k: nat, L: seq<nat>)
    requires i <= k < |ls|
    ensures SumFrom(ls[k := L], i) + |ls[k]| * Pow2(k) == SumFrom(ls, i) + |L| * Pow2(k)
    decreases |ls| - i
  {
    if i < k {
      SumFromUpdate(ls, i + 1, k, L);
    } else {
      SumFromSame(ls, ls[k := L], i + 1);
    }
  }

  /** Lists that agree from order i on hold the same pages there. */
  lemma {:induction false} SumFromSame(ls: seq<seq<nat>>, ls': seq<seq<nat>>, i: nat)
    requires |ls| == |ls'| && forall j :: i <= j < |ls| ==> ls[j] == ls'[j]
    ensures SumFrom(ls, i) == SumFrom(ls', i)
    decreases |ls| - i
  {
    if i < |ls| {
      SumFromSame(ls, ls', i + 1);
    }
  }

  /** Every list contributes its pages to the sum. */
  lemma SumAtLeast(ls: seq<seq<nat>>, k: nat)
    requires k < |ls|
    ensures Sum(ls) >= |ls[k]| * Pow2(k)
  {
    SumFromAtLeast(ls, 0, k);
  }

  lemma {:induction false} SumFromAtLeast(ls: seq<seq<nat>>, i: nat, k: nat)
    requires i <= k < |ls|
    ensures SumFrom(ls, i) >= |ls[k]| * Pow2(k)
    decreases |ls| - i
  {
    if i < k {
      SumFromAtLeast(ls, i + 1, k);
    }
  }

  /** Empty lists hold no pages. */
  lemma {:induction false} SumFromEmpty(ls: seq<seq<nat>>, i: nat)
    requires forall k :: 0 <= k < |ls| ==> ls[k] == []
    ensures SumFrom(ls, i) == 0
    decreases |ls| - i
  {
    if i < |ls| {
      SumFromEmpty(ls, i + 1);
    }
  }

  /** The upper halves alloc_pages pushes while it splits the block at blk
      from order j down to order i, in push order: blk + 2^(j-1) at order j-1
      first, blk + 2^i at order i last. */
  function SplitBlocks(blk: nat, j: nat, i: nat): (P: seq<Block>)
    requires i <= j
    ensures |P| == j - i
    decreases j - i
  {
    if i == j then [] else SplitBlocks(blk, j, i + 1) + [Block(blk + Pow2(i), i)]
  }

  /** Splitting from j down to i puts exactly one head on each list of order
      i..j-1, namely blk + 2^k on list k, and nothing on the others. */
  lemma {:induction false} PushedSplit(blk: nat, j: nat, i: nat, k: nat)
    requires i <= j
    ensures Pushed(SplitBlocks(blk, j, i), k) == if i <= k < j then [blk + Pow2(k)] else []
    decreases j - i
  {
    if i < j {
      var P := SplitBlocks(blk, j, i + 1);
      var top := Block(blk + Pow2(i), i);
      assert SplitBlocks(blk, j, i) == P + [top];
      PushedSplit(blk, j, i + 1, k);
      PushedSnoc(P, top, k);
      if k == i {
        assert Pushed(P, k) == [];
        assert Pushed(P + [top], k) == [blk + Pow2(i)] + [];
      } else {
        assert Pushed(P + [top], k) == [] + Pushed(P, k);
      }
    }
  }

  /** The first order j in [from, to] whose list is not empty, or a value
      above to when there is none (the scan loop of alloc_pages). */
  function FirstNonEmpty(ls: seq<seq<nat>>, lo: nat, hi: nat): (j: nat)
    requires hi < |ls|
    ensures lo <= j
    ensures j <= hi ==> ls[j] != []
    ensures j > hi ==> j == lo || j == hi + 1
    ensures forall k :: lo <= k < j && k <= hi ==> ls[k] == []
    decreases hi + 1 - lo
  {
    if lo > hi then lo
    else if ls[lo] != [] then lo
    else FirstNonEmpty(ls, lo + 1, hi)
  }

  // ---------------------------------------------------------------------
  // The merge chain of free_pages

  /** The head of the block free_pages holds at order k, having started from
      base at order o and merged at every order below k. */
  function MergeHead(base: nat, o: nat, k: nat): nat
    requires o <= k
    decreases k - o
  {
    if k == o then base else Lower(MergeHead(base, o, k - 1), k - 1)
  }

  /** When the block at base is the lower of itself and its buddy, the chain
      from order o is the chain from order o + 1. */
  lemma {:induction false} MergeHeadShift(base: nat, o: nat, k: nat)
    requires o < k && Lower(base, o) == base
    ensures MergeHead(base, o, k) == MergeHead(base, o + 1, k)
    decreases k - o
  {
    if k > o + 1 {
      MergeHeadShift(base, o, k - 1);
    }
  }

  /** Each merged head is aligned to its order, lies at or below base, and
      its block contains the freed block. */
  lemma {:induction false} MergeHeadContains(base: nat, o: nat, k: nat)
    requires o <= k
    requires base % Pow2(o) == 0
    ensures var h := MergeHead(base, o, k);
      h % Pow2(k) == 0 && h <= base && base + Pow2(o) <= h + Pow2(k)
    decreases k - o
  {
    if k > o {
      MergeHeadContains(base, o, k - 1);
      var h := MergeHead(base, o, k - 1);
      BuddyFacts(h, k - 1);
    }
  }
}
