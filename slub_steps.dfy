/** The relations that specify the slab layer's operations on its headers
    (the cache and slab maps), the blocks it holds and the free page count
    of the page allocator, and the predicates they are phrased with: an
    object in use, and what kmalloc has handed out. */
module SlubSteps {
  import opened Arith
  import opened Wrappers
  import opened SlubLayout
  import opened SlubHeap

  // ---------------------------------------------------------------------
  // Objects in use

  /** x is an object of cache k in use: the slab kmem_cache_free finds by
      masking x belongs to k, x is one of its objects, and x is not on its
      freelist. */
  ghost predicate LiveIn(caches: map<nat, Cache>, slabs: map<nat, Slab>, k: nat, x: nat)
  {
    k in caches &&
    var c := caches[k];
    var s := SlabFrame(x, c.order);
    SlabOf(slabs, k, s) && IsObject(s, c, x) && x !in slabs[s].freelist
  }

  /** Every slab has an object in use.  Nothing in slub.c puts a slab on an
      empty list, and kmem_cache_free returns a slab's pages as soon as its
      last object comes back, so this holds from the start on. */
  ghost predicate Settled(slabs: map<nat, Slab>)
  {
    forall s :: s in slabs ==> slabs[s].inuse > 0
  }

  /** The headers of (caches', slabs') keep every cache and every slab of
      (caches, slabs) with its layout and owner, and no slab gains a free
      object. */
  ghost predicate Grows(caches: map<nat, Cache>, slabs: map<nat, Slab>, caches': map<nat, Cache>, slabs': map<nat, Slab>)
  {
    && (forall k :: k in caches ==> k in caches' && SameLayout(caches[k], caches'[k]))
    && (forall s :: s in slabs ==>
          s in slabs' && slabs'[s].cache == slabs[s].cache &&
          forall y :: y in slabs'[s].freelist ==> y in slabs[s].freelist)
  }

  /** caches' has the caches of caches, each with its layout, and no other. */
  ghost predicate LayoutsKept(caches: map<nat, Cache>, caches': map<nat, Cache>)
  {
    caches'.Keys == caches.Keys && forall k :: k in caches ==> SameLayout(caches[k], caches'[k])
  }

  /** kmalloc_caches kc as kmalloc_init fills it: cache i serves objects of
      kmalloc_sizes[i] bytes. */
  ghost predicate ClassesReady(kc: seq<nat>, caches: map<nat, Cache>)
  {
    |kc| == KMALLOC_CLASSES && forall i :: 0 <= i < KMALLOC_CLASSES ==> ClassReady(kc, caches, i)
  }

  /** Cache i of kc serves objects of kmalloc_sizes[i] bytes. */
  ghost predicate ClassReady(kc: seq<nat>, caches: map<nat, Cache>, i: nat)
    requires i < |kc| && i < KMALLOC_CLASSES
  {
    kc[i] in caches && caches[kc[i]].objSize == KmallocSizes[i]
  }

  // ---------------------------------------------------------------------
  // The steps of kmem_cache_alloc and kmem_cache_free

  /** The first free object x of the slab at the front of partial of cache
      ch is handed out: the slab is updated as by Taken and the cache as by
      TakenCache. */
  ghost predicate TookFrom(caches: map<nat, Cache>, slabs: map<nat, Slab>,
                           caches': map<nat, Cache>, slabs': map<nat, Slab>, ch: nat, x: nat)
  {
    ch in caches && caches[ch].partial != [] &&
    var sl := caches[ch].partial[0];
    sl in slabs && slabs[sl].freelist != [] && x == slabs[sl].freelist[0] &&
    var t := Taken(slabs[sl]);
    slabs' == slabs[sl := t] && caches' == caches[ch := TakenCache(caches[ch], sl, t)]
  }

  /** kmem_cache_alloc(ch) from headers C and S, held blocks O and tf free
      pages to C', S', O', tf' with result r: take from the front of
      partial; else move the first empty slab to partial and take from it;
      else grow the cache by a slab at the frame s of the new object, aligned
      to the cache's order, taking 2^order pages, and take from it; or fail
      with nothing changed. */
  ghost predicate AllocStep(C: map<nat, Cache>, S: map<nat, Slab>, O: map<nat, nat>, tf: nat,
                            C': map<nat, Cache>, S': map<nat, Slab>, O': map<nat, nat>, tf': nat,
                            ch: nat, r: Option<nat>)
  {
    ch in C &&
    var c := C[ch];
    if c.partial != [] then
      r.Some? && TookFrom(C, S, C', S', ch, r.value) && O' == O && tf' == tf
    else if c.empty != [] then
      r.Some? && TookFrom(C[ch := Promoted(c)], S, C', S', ch, r.value) && O' == O && tf' == tf
    else if r.None? then
      C' == C && S' == S && O' == O && tf' == tf
    else
      var s := SlabFrame(r.value, c.order);
      && s !in O && s % Pow2(c.order) == 0 && O' == O[s := c.order] && tf' + Pow2(c.order) == tf
      && IsPow2(c.align)
      && TookFrom(C[ch := c.(partial := [s])], S[s := Built(ch, c, s)], C', S', ch, r.value)
  }

  /** The first half of kmem_cache_alloc(ch), from headers C and S, held
      blocks O and tf free pages to C', S', O', tf': find the slab r at the
      front of partial, moving the first empty slab there or growing the
      cache by a slab at a frame aligned to its order when partial has none,
      or fail with nothing changed. */
  ghost predicate PickStep(C: map<nat, Cache>, S: map<nat, Slab>, O: map<nat, nat>, tf: nat,
                           C': map<nat, Cache>, S': map<nat, Slab>, O': map<nat, nat>, tf': nat,
                           ch: nat, r: Option<nat>)
  {
    ch in C &&
    var c := C[ch];
    if c.partial != [] then
      r == Some(c.partial[0]) && C' == C && S' == S && O' == O && tf' == tf
    else if c.empty != [] then
      r == Some(c.empty[0]) && C' == C[ch := Promoted(c)] && S' == S && O' == O && tf' == tf
    else if r.None? then
      C' == C && S' == S && O' == O && tf' == tf
    else
      var s := r.value;
      && s !in O && s % Pow2(c.order) == 0 && O' == O[s := c.order] && tf' + Pow2(c.order) == tf
      && IsPow2(c.align) && C' == C[ch := c.(partial := [s])] && S' == S[s := Built(ch, c, s)]
  }

  /** kmem_cache_free(ch, obj) from headers C and S, held blocks O and tf
      free pages to C', S', O', tf': obj goes back to the slab s it masks to,
      as by Returned and ReturnedCache, and when no object of s is left in
      use, s leaves partial and its 2^order pages go back to the page
      allocator. */
  ghost predicate FreeStep(C: map<nat, Cache>, S: map<nat, Slab>, O: map<nat, nat>, tf: nat,
                           C': map<nat, Cache>, S': map<nat, Slab>, O': map<nat, nat>, tf': nat,
                           ch: nat, obj: nat)
  {
    ch in C &&
    var c := C[ch];
    var s := SlabFrame(obj, c.order);
    s in S && S[s].inuse > 0 && c.inuseObjs > 0 &&
    var t := Returned(S[s], obj);
    var d := ReturnedCache(c, s, t);
    if t.inuse == 0 then
      C' == C[ch := Dropped(d, s)] && S' == S - {s} && O' == O - {s} && tf' == tf + Pow2(c.order)
    else
      C' == C[ch := d] && S' == S[s := t] && O' == O && tf' == tf
  }

  /** The first half of kmem_cache_free(ch, obj): obj goes back to the
      slab it masks to, as by Returned and ReturnedCache. */
  ghost predicate PutStep(C: map<nat, Cache>, S: map<nat, Slab>, C': map<nat, Cache>, S': map<nat, Slab>,
                          ch: nat, obj: nat)
  {
    ch in C &&
    var c := C[ch];
    var s := SlabFrame(obj, c.order);
    s in S && S[s].inuse > 0 && c.inuseObjs > 0 &&
    var t := Returned(S[s], obj);
    S' == S[s := t] && C' == C[ch := ReturnedCache(c, s, t)]
  }

  /** p is what kmalloc(size) returned, with kmalloc_caches kc: for a size
      above the largest class, the page-aligned address of a held block of
      the order of the request that holds no header; otherwise an object in
      use of the size's class. */
  ghost predicate AllocatedIn(kc: seq<nat>, C: map<nat, Cache>, S: map<nat, Slab>, O: map<nat, nat>, p: nat, size: nat)
  {
    var idx := KmallocIndex(size);
    if idx < 0 then
      p % PGSIZE == 0 && p / PGSIZE in O && p / PGSIZE !in C && p / PGSIZE !in S &&
      LargePages(size) > 0 && O[p / PGSIZE] == CeilLog2(LargePages(size))
    else
      idx < |kc| && LiveIn(C, S, kc[idx], p)
  }

  /** Every allocation of (C, S, O) is one of (C', S', O') as well. */
  ghost predicate AllocsKept(kc: seq<nat>, C: map<nat, Cache>, S: map<nat, Slab>, O: map<nat, nat>,
                             C': map<nat, Cache>, S': map<nat, Slab>, O': map<nat, nat>)
  {
    forall p, n :: AllocatedIn(kc, C, S, O, p, n) ==> AllocatedIn(kc, C', S', O', p, n)
  }

  /** The large path of kmalloc(size), from headers C and S, held blocks O
      and tf free pages to C', S', O', tf' with result r: the headers stay;
      on success a block that was not held, of order ceil_log2 of the page
      count at frame r / PGSIZE, becomes held and its pages leave the free
      count. */
  ghost predicate LargeStep(C: map<nat, Cache>, S: map<nat, Slab>, O: map<nat, nat>, tf: nat,
                            C': map<nat, Cache>, S': map<nat, Slab>, O': map<nat, nat>, tf': nat,
                            size: nat, r: Option<nat>)
  {
    C' == C && S' == S &&
    if r.None? then O' == O && tf' == tf
    else
      var k := CeilLog2(LargePages(size));
      r.value / PGSIZE !in O && O' == O[r.value / PGSIZE := k] && tf' + Pow2(k) == tf
  }

  /** The page count of a large kmalloc: (size + PGSIZE - 1) / PGSIZE in
      size_t, where the sum wraps for sizes within a page of 2^64. */
  function LargePages(size: nat): nat
  {
    ((size + PGSIZE - 1) % U64) / PGSIZE
  }
}
