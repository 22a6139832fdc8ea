/** The slab allocator of kern/mm/slub.c: kmem_cache_create, cache_grow,
    kmem_cache_alloc, kmem_cache_free, kmalloc_init, kmalloc and kfree, over
    the buddy page allocator.  Each cache operation is specified by a step
    relation on the header maps, the held blocks and the free page count;
    the lemmas here connect the steps: what an object in use is, that the
    objects in use stay apart, and that freeing what was just allocated
    restores the headers and the free page count. */
module Slub {
  import opened Arith
  import opened Wrappers
  import opened BuddyPmm
  import opened BuddyState
  import opened SlubLayout
  import opened SlubHeap
  import opened SlubSteps

  // ---------------------------------------------------------------------
  // The kmalloc classes

  lemma ClassesKept(kc: seq<nat>, caches: map<nat, Cache>, caches': map<nat, Cache>)
    requires ClassesReady(kc, caches) && LayoutsKept(caches, caches')
    ensures ClassesReady(kc, caches')
  {
    forall i | 0 <= i < KMALLOC_CLASSES
      ensures ClassReady(kc, caches', i)
    {
      assert ClassReady(kc, caches, i);
    }
  }

  /** kmalloc_init's step: a new cache for class i, at a frame that held no
      cache, extends the classes it has filled. */
  lemma ClassAdded(kc: seq<nat>, caches: map<nat, Cache>, ch: nat, c: Cache, kc': seq<nat>, caches': map<nat, Cache>)
    requires |kc| < KMALLOC_CLASSES && ch !in caches && c.objSize == KmallocSizes[|kc|]
    requires kc' == kc + [ch] && caches' == caches[ch := c]
    requires forall j :: 0 <= j < |kc| ==> ClassReady(kc, caches, j)
    ensures forall j :: 0 <= j < |kc'| ==> ClassReady(kc', caches', j)
  {
    forall j | 0 <= j < |kc'|
      ensures ClassReady(kc', caches', j)
    {
      if j < |kc| {
        assert ClassReady(kc, caches, j);
      }
    }
  }

  // ---------------------------------------------------------------------
  // Facts about objects in use

  lemma IsObjectSame(s: nat, c: Cache, d: Cache, x: nat)
    requires SameLayout(c, d)
    ensures IsObject(s, c, x) == IsObject(s, d, x)
  {
    if IsPow2(c.align) {
      forall i: nat
        ensures ObjAddr(s, c, i) == ObjAddr(s, d, i)
      {
      }
    }
  }

  /** The frames of every header are held. */
  lemma KeysHeld(caches: map<nat, Cache>, slabs: map<nat, Slab>, owned: map<nat, nat>)
    requires HeapOk(caches, slabs, owned)
    ensures forall k :: k in caches ==> k in owned
    ensures forall s :: s in slabs ==> s in owned
  {
    forall k | k in caches
      ensures k in owned
    {
      assert CacheOk(k, caches[k], slabs, owned);
    }
    forall s | s in slabs
      ensures s in owned
    {
      assert SlabOk(s, slabs[s], caches, owned);
    }
  }

  /** Masking an object of a slab at a frame aligned to the cache's order
      finds the slab. */
  lemma ObjectFrame(s: nat, c: Cache, x: nat)
    requires LayoutOk(c) && IsObject(s, c, x) && s % Pow2(c.order) == 0
    ensures SlabFrame(x, c.order) == s
  {
    var i :| 0 <= i < c.objsPerSlab && x == ObjAddr(s, c, i);
    SlabFrameOfObject(s, c, i);
  }

  /** Objects in use stay in use when the headers grow. */
  lemma LiveMono(caches: map<nat, Cache>, slabs: map<nat, Slab>, caches': map<nat, Cache>, slabs': map<nat, Slab>)
    requires Grows(caches, slabs, caches', slabs')
    ensures forall k, y :: LiveIn(caches, slabs, k, y) ==> LiveIn(caches', slabs', k, y)
  {
    forall k, y | LiveIn(caches, slabs, k, y)
      ensures LiveIn(caches', slabs', k, y)
    {
      IsObjectSame(SlabFrame(y, caches[k].order), caches[k], caches'[k], y);
    }
  }

  /** Handing out the first free object of the front partial slab makes it
      an object in use that was not in use before, and the headers grow. */
  lemma TakeLive(C: map<nat, Cache>, S: map<nat, Slab>, O: map<nat, nat>,
                 C': map<nat, Cache>, S': map<nat, Slab>, ch: nat, x: nat)
    requires TookFrom(C, S, C', S', ch, x) && LayoutOk(C[ch])
    requires var sl := C[ch].partial[0]; S[sl].cache == ch && SlabOk(sl, S[sl], C, O)
    ensures LiveIn(C', S', ch, x) && !LiveIn(C, S, ch, x)
    ensures Grows(C, S, C', S')
  {
    var c := C[ch];
    var sl := c.partial[0];
    var fl := S[sl].freelist;
    assert IsObject(sl, c, fl[0]);
    NoDupsTail(fl);
    ObjectFrame(sl, c, x);
    IsObjectSame(sl, c, C'[ch], x);
  }

  /** kmem_cache_alloc hands out an object that was not in use and keeps
      every object in use. */
  lemma AllocLive(C: map<nat, Cache>, S: map<nat, Slab>, O: map<nat, nat>, tf: nat,
                  C': map<nat, Cache>, S': map<nat, Slab>, O': map<nat, nat>, tf': nat, ch: nat, x: nat)
    requires HeapOk(C, S, O) && AllocStep(C, S, O, tf, C', S', O', tf', ch, Some(x))
    ensures LiveIn(C', S', ch, x) && !LiveIn(C, S, ch, x)
    ensures forall k, y :: LiveIn(C, S, k, y) ==> LiveIn(C', S', k, y)
  {
    var c := C[ch];
    if c.partial != [] {
      PartialLive(C, S, O, C', S', ch, x);
    } else if c.empty != [] {
      EmptyLive(C, S, O, C', S', ch, x);
    } else {
      KeysHeld(C, S, O);
      assert CacheOk(ch, c, S, O);
      GrowLive(C, S, O, C', S', ch, x);
    }
  }

  lemma PartialLive(C: map<nat, Cache>, S: map<nat, Slab>, O: map<nat, nat>,
                    C': map<nat, Cache>, S': map<nat, Slab>, ch: nat, x: nat)
    requires HeapOk(C, S, O) && TookFrom(C, S, C', S', ch, x)
    ensures LiveIn(C', S', ch, x) && !LiveIn(C, S, ch, x)
    ensures forall k, y :: LiveIn(C, S, k, y) ==> LiveIn(C', S', k, y)
  {
    var c := C[ch];
    assert CacheOk(ch, c, S, O);
    var sl := c.partial[0];
    assert sl in c.partial;
    assert SlabOk(sl, S[sl], C, O);
    TakeLive(C, S, O, C', S', ch, x);
    LiveMono(C, S, C', S');
  }

  lemma EmptyLive(C: map<nat, Cache>, S: map<nat, Slab>, O: map<nat, nat>,
                  C': map<nat, Cache>, S': map<nat, Slab>, ch: nat, x: nat)
    requires HeapOk(C, S, O) && ch in C && C[ch].empty != []
    requires TookFrom(C[ch := Promoted(C[ch])], S, C', S', ch, x)
    ensures LiveIn(C', S', ch, x) && !LiveIn(C, S, ch, x)
    ensures forall k, y :: LiveIn(C, S, k, y) ==> LiveIn(C', S', k, y)
  {
    var c := C[ch];
    assert CacheOk(ch, c, S, O);
    var e := c.empty[0];
    assert e in c.empty;
    assert SlabOk(e, S[e], C, O);
    PromoteLive(C, S, O, C', S', ch, x);
  }

  /** Taking from the slab e moved off the empty list. */
  lemma PromoteLive(C: map<nat, Cache>, S: map<nat, Slab>, O: map<nat, nat>,
                    C': map<nat, Cache>, S': map<nat, Slab>, ch: nat, x: nat)
    requires ch in C && C[ch].empty != [] && LayoutOk(C[ch])
    requires var e := C[ch].empty[0]; e in S && S[e].cache == ch && SlabOk(e, S[e], C, O)
    requires TookFrom(C[ch := Promoted(C[ch])], S, C', S', ch, x)
    ensures LiveIn(C', S', ch, x) && !LiveIn(C, S, ch, x)
    ensures forall k, y :: LiveIn(C, S, k, y) ==> LiveIn(C', S', k, y)
  {
    var c := C[ch];
    var e := c.empty[0];
    var C1 := C[ch := Promoted(c)];
    FreeObjectsSame(e, c, Promoted(c), S[e].freelist);
    TakeLive(C1, S, O, C', S', ch, x);
    LiveMono(C, S, C1, S);
    LiveMono(C1, S, C', S');
    IsObjectSame(SlabFrame(x, c.order), c, Promoted(c), x);
  }

  /** Taking from a slab grown at an aligned frame s that holds no slab. */
  lemma GrowLive(C: map<nat, Cache>, S: map<nat, Slab>, O: map<nat, nat>,
                 C': map<nat, Cache>, S': map<nat, Slab>, ch: nat, x: nat)
    requires ch in C && C[ch].partial == [] && LayoutOk(C[ch])
    requires var c := C[ch]; var s := SlabFrame(x, c.order);
      && s !in S && s % Pow2(c.order) == 0
      && TookFrom(C[ch := c.(partial := [s])], S[s := Built(ch, c, s)], C', S', ch, x)
    ensures LiveIn(C', S', ch, x) && !LiveIn(C, S, ch, x)
    ensures forall k, y :: LiveIn(C, S, k, y) ==> LiveIn(C', S', k, y)
  {
    var c := C[ch];
    var s := SlabFrame(x, c.order);
    var d := c.(partial := [s]);
    var C1 := C[ch := d];
    var S1 := S[s := Built(ch, c, s)];
    BuiltFree(s, c);
    FreeObjectsSame(s, c, d, S1[s].freelist);
    TakeLive(C1, S1, O[s := c.order], C', S', ch, x);
    LiveMono(C, S, C1, S1);
    LiveMono(C1, S1, C', S');
  }

  /** kmem_cache_free takes obj out of use and keeps every other object in
      use, including when it returns the slab's pages. */
  lemma FreeLive(C: map<nat, Cache>, S: map<nat, Slab>, O: map<nat, nat>, tf: nat,
                 C': map<nat, Cache>, S': map<nat, Slab>, O': map<nat, nat>, tf': nat, ch: nat, obj: nat)
    requires LiveIn(C, S, ch, obj) && FreeStep(C, S, O, tf, C', S', O', tf', ch, obj)
    requires var s := SlabFrame(obj, C[ch].order); SlabOk(s, S[s], C, O)
    ensures !LiveIn(C', S', ch, obj)
    ensures forall k, y :: LiveIn(C, S, k, y) && y != obj ==> LiveIn(C', S', k, y)
  {
    var c := C[ch];
    var s := SlabFrame(obj, c.order);
    var t := Returned(S[s], obj);
    var d := ReturnedCache(c, s, t);
    if t.inuse == 0 {
      FreeObjectsCons(s, c, obj, S[s].freelist);
    }
    forall k, y | LiveIn(C, S, k, y) && y != obj
      ensures LiveIn(C', S', k, y)
    {
      var sy := SlabFrame(y, C[k].order);
      if sy == s {
        if t.inuse == 0 {
          FreeRoom(s, c, t.freelist, {y});
        }
        IsObjectSame(s, c, d, y);
      } else if k == ch {
        IsObjectSame(sy, c, C'[ch], y);
      }
    }
  }

  /** Handing out the first free object of the front partial slab sl and
      taking it back restores the slab and the cache header. */
  lemma TakeThenReturn(c: Cache, s: Slab, sl: nat)
    requires c.partial != [] && c.partial[0] == sl && sl !in c.full && s.freelist != []
    ensures var t := Taken(s); var d := TakenCache(c, sl, t);
      var u := Returned(t, s.freelist[0]);
      u == s && d.inuseObjs > 0 && ReturnedCache(d, sl, u) == c
  {
    var t := Taken(s);
    assert [s.freelist[0]] + s.freelist[1..] == s.freelist;
    if t.inuse == t.total {
      assert [sl] + c.partial[1..] == c.partial;
    }
  }

  /** A slab s grown into an empty partial list, with its first object handed
      out and taken back, leaves the cache header as it was once it is
      released. */
  lemma GrowThenRelease(c: Cache, b: Slab, s: nat)
    requires c.partial == [] && b.freelist != [] && b.inuse == 0
    ensures var t := Taken(b); var d := TakenCache(c.(partial := [s]), s, t);
      var u := Returned(t, b.freelist[0]);
      u == b && d.inuseObjs > 0 && Dropped(ReturnedCache(d, s, u), s) == c
  {
    assert [b.freelist[0]] + b.freelist[1..] == b.freelist;
  }

  /** With every slab in use no cache has a slab on its empty list. */
  lemma SettledNoEmpty(ch: nat, c: Cache, S: map<nat, Slab>)
    requires ListsOk(ch, c, S) && Settled(S)
    ensures c.empty == []
  {
    if c.empty != [] {
      EmptyHeadIdle(ch, c, S);
      assert false;
    }
  }

  /** The slab at the front of the empty list has no object in use. */
  lemma EmptyHeadIdle(ch: nat, c: Cache, S: map<nat, Slab>)
    requires ListsOk(ch, c, S) && c.empty != []
    ensures SlabOf(S, ch, c.empty[0]) && S[c.empty[0]].inuse == 0
  {
    assert c.empty[0] in c.empty;
  }

  /** With every slab in use, kmem_cache_alloc followed by kmem_cache_free of
      the object it handed out restores the headers, the held blocks and the
      free page count: the object goes back to the front of the freelist it
      came from, a slab that went full comes back to where it was, and a slab
      grown for the object is released again. */
  lemma AllocThenFree(C: map<nat, Cache>, S: map<nat, Slab>, O: map<nat, nat>, tf: nat,
                      C1: map<nat, Cache>, S1: map<nat, Slab>, O1: map<nat, nat>, tf1: nat,
                      C2: map<nat, Cache>, S2: map<nat, Slab>, O2: map<nat, nat>, tf2: nat, ch: nat, x: nat)
    requires HeapOk(C, S, O) && Settled(S)
    requires AllocStep(C, S, O, tf, C1, S1, O1, tf1, ch, Some(x))
    requires FreeStep(C1, S1, O1, tf1, C2, S2, O2, tf2, ch, x)
    ensures C2 == C && S2 == S && O2 == O && tf2 == tf
  {
    var c := C[ch];
    assert CacheOk(ch, c, S, O);
    KeysHeld(C, S, O);
    SettledNoEmpty(ch, c, S);
    if c.partial != [] {
      AllocFront(C, S, O, tf, C1, S1, O1, tf1, ch, x);
      var sl := c.partial[0];
      assert sl in c.partial;
      PartialThenFree(C, S, O, tf, C1, S1, O1, tf1, C2, S2, O2, tf2, ch, x);
    } else {
      GrowThenFree(C, S, O, tf, C1, S1, O1, tf1, C2, S2, O2, tf2, ch, x);
    }
  }

  /** kmalloc(size) and then kfree of its result, from headers C and S,
      held blocks O and tf free pages through (C1, S1, O1, tf1) to
      (C2, S2, O2, tf2), as the two calls' contracts state them: with every
      slab in use, the end state is the start state. */
  lemma KmallocKfreeRestores(kc: seq<nat>, size: nat, r: Option<nat>,
                             C: map<nat, Cache>, S: map<nat, Slab>, O: map<nat, nat>, tf: nat,
                             C1: map<nat, Cache>, S1: map<nat, Slab>, O1: map<nat, nat>, tf1: nat,
                             C2: map<nat, Cache>, S2: map<nat, Slab>, O2: map<nat, nat>, tf2: nat)
    requires HeapOk(C, S, O) && Settled(S) && KmallocIndex(size) < |kc|
    requires KmallocIndex(size) < 0 ==> LargeStep(C, S, O, tf, C1, S1, O1, tf1, size, r)
    requires KmallocIndex(size) >= 0 ==> AllocStep(C, S, O, tf, C1, S1, O1, tf1, kc[KmallocIndex(size)], r)
    requires r.None? ==> C2 == C1 && S2 == S1 && O2 == O1 && tf2 == tf1
    requires r.Some? && KmallocIndex(size) < 0 ==>
      && C2 == C1 && S2 == S1 && O2 == O1 - {r.value / PGSIZE}
      && tf2 == tf1 + Pow2(CeilLog2(LargePages(size)))
    requires r.Some? && KmallocIndex(size) >= 0 ==> FreeStep(C1, S1, O1, tf1, C2, S2, O2, tf2, kc[KmallocIndex(size)], r.value)
    ensures C2 == C && S2 == S && O2 == O && tf2 == tf
  {
    if r.Some? {
      if KmallocIndex(size) < 0 {
        assert O2 == O1 - {r.value / PGSIZE} == O;
      } else {
        AllocThenFree(C, S, O, tf, C1, S1, O1, tf1, C2, S2, O2, tf2, kc[KmallocIndex(size)], r.value);
      }
    }
  }

  lemma PartialThenFree(C: map<nat, Cache>, S: map<nat, Slab>, O: map<nat, nat>, tf: nat,
                        C1: map<nat, Cache>, S1: map<nat, Slab>, O1: map<nat, nat>, tf1: nat,
                        C2: map<nat, Cache>, S2: map<nat, Slab>, O2: map<nat, nat>, tf2: nat, ch: nat, x: nat)
    requires TookFrom(C, S, C1, S1, ch, x) && O1 == O && tf1 == tf
    requires var sl := C[ch].partial[0]; sl !in C[ch].full && S[sl].inuse > 0 && SlabFrame(x, C[ch].order) == sl
    requires FreeStep(C1, S1, O1, tf1, C2, S2, O2, tf2, ch, x)
    ensures C2 == C && S2 == S && O2 == O && tf2 == tf
  {
    var c := C[ch];
    var sl := c.partial[0];
    TakeThenReturn(c, S[sl], sl);
  }

  lemma GrowThenFree(C: map<nat, Cache>, S: map<nat, Slab>, O: map<nat, nat>, tf: nat,
                     C1: map<nat, Cache>, S1: map<nat, Slab>, O1: map<nat, nat>, tf1: nat,
                     C2: map<nat, Cache>, S2: map<nat, Slab>, O2: map<nat, nat>, tf2: nat, ch: nat, x: nat)
    requires ch in C && C[ch].partial == [] && IsPow2(C[ch].align)
    requires var c := C[ch]; var s := SlabFrame(x, c.order);
      && s !in S && O1 == O[s := c.order] && s !in O && tf1 + Pow2(c.order) == tf
      && TookFrom(C[ch := c.(partial := [s])], S[s := Built(ch, c, s)], C1, S1, ch, x)
    requires FreeStep(C1, S1, O1, tf1, C2, S2, O2, tf2, ch, x)
    ensures C2 == C && S2 == S && O2 == O && tf2 == tf
  {
    var c := C[ch];
    var s := SlabFrame(x, c.order);
    GrowThenRelease(c, Built(ch, c, s), s);
  }

  /** Where an object in use lies: object i of a slab at a held block of the
      cache's order. */
  lemma LiveSlot(caches: map<nat, Cache>, slabs: map<nat, Slab>, owned: map<nat, nat>, k: nat, x: nat)
      returns (i: nat)
    requires HeapOk(caches, slabs, owned) && LiveIn(caches, slabs, k, x)
    ensures var c := caches[k]; var s := SlabFrame(x, c.order);
      && LayoutOk(c) && s in owned && owned[s] == c.order
      && i < c.objsPerSlab && x == ObjAddr(s, c, i)
  {
    var c := caches[k];
    var s := SlabFrame(x, c.order);
    assert CacheOk(k, c, slabs, owned);
    assert SlabOk(s, slabs[s], caches, owned);
    i :| 0 <= i < c.objsPerSlab && x == ObjAddr(s, c, i);
  }

  /** Two different objects in use do not overlap, whichever caches they
      belong to, and an object of a cache in use belongs to that cache
      alone. */
  lemma LiveApart(caches: map<nat, Cache>, slabs: map<nat, Slab>, owned: map<nat, nat>, k: nat, x: nat, m: nat, y: nat)
    requires HeapOk(caches, slabs, owned) && OwnedApart(owned)
    requires LiveIn(caches, slabs, k, x) && LiveIn(caches, slabs, m, y)
    ensures x != y ==> Disjoint(x, caches[k].objSize, y, caches[m].objSize)
    ensures x == y ==> k == m
  {
    var c, e := caches[k], caches[m];
    var s, t := SlabFrame(x, c.order), SlabFrame(y, e.order);
    var i := LiveSlot(caches, slabs, owned, k, x);
    var j := LiveSlot(caches, slabs, owned, m, y);
    if s == t {
      assert k == slabs[s].cache == m;
      SlotsApart(s, c, i, j);
    } else {
      assert Disjoint(s, Pow2(owned[s]), t, Pow2(owned[t]));
      SlabsApart(s, c, i, t, e, j);
    }
  }

  /** Different objects of one slab do not overlap. */
  lemma SlotsApart(s: nat, c: Cache, i: nat, j: nat)
    requires LayoutOk(c) && i < c.objsPerSlab && j < c.objsPerSlab
    ensures ObjAddr(s, c, i) != ObjAddr(s, c, j) ==> Disjoint(ObjAddr(s, c, i), c.objSize, ObjAddr(s, c, j), c.objSize)
  {
    if i < j {
      ObjectsApart(s, c, i, j);
    } else if j < i {
      ObjectsApart(s, c, j, i);
    }
  }

  /** Objects of slabs on blocks that do not overlap do not overlap. */
  lemma SlabsApart(s: nat, c: Cache, i: nat, t: nat, e: Cache, j: nat)
    requires LayoutOk(c) && i < c.objsPerSlab && LayoutOk(e) && j < e.objsPerSlab
    requires Disjoint(s, Pow2(c.order), t, Pow2(e.order))
    ensures ObjAddr(s, c, i) != ObjAddr(t, e, j)
    ensures Disjoint(ObjAddr(s, c, i), c.objSize, ObjAddr(t, e, j), e.objSize)
  {
    ObjectInSlab(s, c, i);
    ObjectInSlab(t, e, j);
    FramesApart(s, c.order, t, e.order);
  }

  /** Blocks of frames that do not overlap have bytes that do not overlap. */
  lemma FramesApart(s: nat, a: nat, t: nat, b: nat)
    requires Disjoint(s, Pow2(a), t, Pow2(b))
    ensures Disjoint(s * PGSIZE, SlabBytes(a), t * PGSIZE, SlabBytes(b))
  {
  }

  /** An object in use overlaps no held block that holds no slab: no cache
      header and no large kmalloc block. */
  lemma LiveAvoidsBlock(caches: map<nat, Cache>, slabs: map<nat, Slab>, owned: map<nat, nat>, k: nat, x: nat, f: nat)
    requires HeapOk(caches, slabs, owned) && OwnedApart(owned)
    requires LiveIn(caches, slabs, k, x) && f in owned && f !in slabs
    ensures Disjoint(x, caches[k].objSize, f * PGSIZE, SlabBytes(owned[f]))
  {
    var c := caches[k];
    var s := SlabFrame(x, c.order);
    var i := LiveSlot(caches, slabs, owned, k, x);
    ObjectInSlab(s, c, i);
    assert Disjoint(s, Pow2(owned[s]), f, Pow2(owned[f]));
    FramesApart(s, c.order, f, owned[f]);
  }

  /** The first object of a new slab at a frame aligned to the cache's
      order masks back to that frame. */
  lemma BuiltFirst(ch: nat, c: Cache, s: nat)
    requires LayoutOk(c) && s % Pow2(c.order) == 0
    ensures Built(ch, c, s).freelist != [] && SlabFrame(Built(ch, c, s).freelist[0], c.order) == s
  {
    assert Built(ch, c, s).freelist[0] == ObjAddr(s, c, 0);
    SlabFrameOfObject(s, c, 0);
  }

  /** kmem_cache_alloc keeps the set of caches, and leaves every slab with an
      object in use if it found them so. */
  lemma AllocKept(C: map<nat, Cache>, S: map<nat, Slab>, O: map<nat, nat>, tf: nat,
                     C': map<nat, Cache>, S': map<nat, Slab>, O': map<nat, nat>, tf': nat, ch: nat, x: nat)
    requires AllocStep(C, S, O, tf, C', S', O', tf', ch, Some(x))
    ensures Settled(S) ==> Settled(S')
    ensures LayoutsKept(C, C')
  {
  }

  /** Picking the slab and handing out its first free object is the step
      of kmem_cache_alloc. */
  lemma AllocCompose(C: map<nat, Cache>, S: map<nat, Slab>, O: map<nat, nat>, tf: nat,
                     C1: map<nat, Cache>, S1: map<nat, Slab>, O1: map<nat, nat>, tf1: nat,
                     C2: map<nat, Cache>, S2: map<nat, Slab>, ch: nat, s: nat, x: nat)
    requires ch in C && LayoutOk(C[ch])
    requires PickStep(C, S, O, tf, C1, S1, O1, tf1, ch, Some(s)) && TookFrom(C1, S1, C2, S2, ch, x)
    ensures AllocStep(C, S, O, tf, C2, S2, O1, tf1, ch, Some(x))
  {
    var c := C[ch];
    if c.partial == [] && c.empty == [] {
      BuiltFirst(ch, c, s);
    }
  }

  /** What kmem_cache_free achieves when the slab keeps an object in use. */
  lemma FreeKept(C: map<nat, Cache>, S: map<nat, Slab>, O: map<nat, nat>, tf: nat,
                 C1: map<nat, Cache>, S1: map<nat, Slab>, ch: nat, obj: nat, sl: nat)
    requires LiveIn(C, S, ch, obj) && sl == SlabFrame(obj, C[ch].order) && SlabOk(sl, S[sl], C, O)
    requires PutStep(C, S, C1, S1, ch, obj) && S1[sl].inuse != 0
    ensures FreeStep(C, S, O, tf, C1, S1, O, tf, ch, obj)
    ensures !LiveIn(C1, S1, ch, obj)
    ensures forall k, y :: LiveIn(C, S, k, y) && y != obj ==> LiveIn(C1, S1, k, y)
    ensures Settled(S) ==> Settled(S1)
    ensures LayoutsKept(C, C1)
  {
    FreeLive(C, S, O, tf, C1, S1, O, tf, ch, obj);
  }

  /** What kmem_cache_free achieves when the slab is released. */
  lemma FreeReleased(C: map<nat, Cache>, S: map<nat, Slab>, O: map<nat, nat>, tf: nat,
                     C1: map<nat, Cache>, S1: map<nat, Slab>,
                     C2: map<nat, Cache>, S2: map<nat, Slab>, O2: map<nat, nat>, tf2: nat, ch: nat, obj: nat, sl: nat)
    requires LiveIn(C, S, ch, obj) && sl == SlabFrame(obj, C[ch].order) && SlabOk(sl, S[sl], C, O)
    requires PutStep(C, S, C1, S1, ch, obj) && S1[sl].inuse == 0
    requires C2 == C1[ch := Dropped(C1[ch], sl)] && S2 == S1 - {sl}
    requires O2 == O - {sl} && tf2 == tf + Pow2(C1[ch].order)
    ensures FreeStep(C, S, O, tf, C2, S2, O2, tf2, ch, obj)
    ensures !LiveIn(C2, S2, ch, obj)
    ensures forall k, y :: LiveIn(C, S, k, y) && y != obj ==> LiveIn(C2, S2, k, y)
    ensures Settled(S) ==> Settled(S2)
    ensures LayoutsKept(C, C2)
  {
    FreeLive(C, S, O, tf, C2, S2, O2, tf2, ch, obj);
  }

  /** An object handed out from a nonempty partial list comes from the slab
      at its front. */
  lemma AllocFront(C: map<nat, Cache>, S: map<nat, Slab>, O: map<nat, nat>, tf: nat,
                   C': map<nat, Cache>, S': map<nat, Slab>, O': map<nat, nat>, tf': nat, ch: nat, x: nat)
    requires HeapOk(C, S, O) && AllocStep(C, S, O, tf, C', S', O', tf', ch, Some(x))
    requires C[ch].partial != []
    ensures SlabFrame(x, C[ch].order) == C[ch].partial[0]
  {
    var c := C[ch];
    var sl := c.partial[0];
    assert CacheOk(ch, c, S, O) && sl in c.partial;
    assert SlabOk(sl, S[sl], C, O);
    assert IsObject(sl, c, S[sl].freelist[0]);
    ObjectFrame(sl, c, x);
  }

  // ---------------------------------------------------------------------
  // The search of kmem_cache_free through full

  lemma {:induction false} RemoveFirstAbsent(l: seq<nat>, x: nat)
    requires x !in l
    ensures RemoveFirst(l, x) == l
  {
    if l != [] {
      assert x !in l[1..];
      RemoveFirstAbsent(l[1..], x);
      assert l == [l[0]] + l[1..];
    }
  }

  /** The loop of kmem_cache_free over full: unlink the first node that is x;
      without one the list stays as it is. */
  method Unlink(l: seq<nat>, x: nat) returns (r: seq<nat>)
    ensures r == RemoveFirst(l, x)
    ensures x in l ==> |r| + 1 == |l|
  {
    var i := 0;
    while i < |l|
      invariant 0 <= i <= |l|
      invariant forall j :: 0 <= j < i ==> l[j] != x
    {
      if l[i] == x {
        EraseFirst(l, i);
        RemoveFirstLength(l, x);
        return Erase(l, i);
      }
      i := i + 1;
    }
    RemoveFirstAbsent(l, x);
    r := l;
  }

  // ---------------------------------------------------------------------
  // kmem_cache_create and kmalloc

  /** c->align = align ? align : sizeof(void *). */
  function CreateAlign(align: nat): (a: nat)
    ensures a > 0 && (align > 0 ==> a == align)
  {
    if align == 0 then PTR_SIZE else align
  }

  /** The header kmem_cache_create writes: lists empty, no object in use, and
      the layout of compute_layout. */
  function NewCache(size: nat, align: nat, order: nat): Cache
    requires IsPow2(CreateAlign(align))
  {
    ComputeLayout(Cache(size, CreateAlign(align), order, 0, [], [], [], 0))
  }

  /** A new cache whose layout passes the assertion of compute_layout keeps
      the layout facts: a power-of-two alignment of at least 8 bytes, objects
      of at least 8 bytes, and objects that fit the slab. */
  lemma CreatedLayout(size: nat, align: nat, order: nat)
    requires IsPow2(CreateAlign(align)) && order < 32
    requires NewCache(size, align, order).objsPerSlab > 0
    ensures var c := NewCache(size, align, order);
      && LayoutOk(c) && c.partial == [] && c.full == [] && c.empty == [] && c.inuseObjs == 0
      && c.objSize == AtLeast(size, PTR_SIZE) && c.align == AtLeast(CreateAlign(align), PTR_SIZE) && c.order == order
  {
    var c := Cache(size, CreateAlign(align), order, 0, [], [], [], 0);
    assert IsPow2(8) by {
      assert IsPow2(2);
    }
    Pow2Monotone(order, 31);
    Pow2Of31();
    LayoutFits(c);
  }

  /** The pages of a large kmalloc hold the request, unless the sum wrapped,
      in which case the count is zero and alloc_pages(0) fails. */
  lemma LargePagesFit(size: nat)
    requires size < U64
    ensures size + PGSIZE - 1 < U64 ==> LargePages(size) * PGSIZE >= size
    ensures size + PGSIZE - 1 < U64 && size > 0 ==> LargePages(size) > 0 && (LargePages(size) - 1) * PGSIZE < size
    ensures size + PGSIZE - 1 >= U64 ==> LargePages(size) == 0
  {
    var y := size + PGSIZE - 1;
    if y < U64 {
      assert y % U64 == y;
      DivBounds(y, PGSIZE);
    }
  }

  /** A large kmalloc makes the address of the new block allocated, and
      keeps every allocation. */
  lemma LargeAlloc(kc: seq<nat>, C: map<nat, Cache>, S: map<nat, Slab>, O: map<nat, nat>, O': map<nat, nat>,
                   f: nat, size: nat)
    requires (forall k :: k in C ==> k in O) && (forall s :: s in S ==> s in O)
    requires KmallocIndex(size) < 0 && LargePages(size) > 0
    requires f !in O && O' == O[f := CeilLog2(LargePages(size))]
    ensures AllocatedIn(kc, C, S, O', f * PGSIZE, size) && !AllocatedIn(kc, C, S, O, f * PGSIZE, size)
    ensures AllocsKept(kc, C, S, O, C, S, O')
  {
    MulMod(f, PGSIZE);
    forall p: nat, n: nat | AllocatedIn(kc, C, S, O, p, n)
      ensures AllocatedIn(kc, C, S, O', p, n)
    {
      if KmallocIndex(n) < 0 {
        assert p / PGSIZE in O && p / PGSIZE != f;
      }
    }
  }

  /** A small kmalloc makes the object it hands out allocated, and keeps
      every allocation. */
  lemma SmallAlloc(kc: seq<nat>, C: map<nat, Cache>, S: map<nat, Slab>, O: map<nat, nat>, tf: nat,
                   C': map<nat, Cache>, S': map<nat, Slab>, O': map<nat, nat>, tf': nat,
                   idx: int, size: nat, r: Option<nat>)
    requires idx == KmallocIndex(size) && 0 <= idx < |kc|
    requires AllocStep(C, S, O, tf, C', S', O', tf', kc[idx], r)
    requires r.Some? ==> LiveIn(C', S', kc[idx], r.value) && !LiveIn(C, S, kc[idx], r.value)
    requires forall k, y :: LiveIn(C, S, k, y) ==> LiveIn(C', S', k, y)
    ensures r.Some? ==> AllocatedIn(kc, C', S', O', r.value, size) && !AllocatedIn(kc, C, S, O, r.value, size)
    ensures AllocsKept(kc, C, S, O, C', S', O')
  {
    forall p: nat, n: nat | AllocatedIn(kc, C, S, O, p, n)
      ensures AllocatedIn(kc, C', S', O', p, n)
    {
      if KmallocIndex(n) < 0 {
        var f := p / PGSIZE;
        assert f in O && f !in C && f !in S;
      }
    }
  }

  /** kfree of a large block takes exactly its address out of the
      allocations. */
  lemma LargeFree(kc: seq<nat>, C: map<nat, Cache>, S: map<nat, Slab>, O: map<nat, nat>, O': map<nat, nat>,
                  p: nat, size: nat)
    requires AllocatedIn(kc, C, S, O, p, size) && KmallocIndex(size) < 0
    requires O' == O - {p / PGSIZE}
    ensures !AllocatedIn(kc, C, S, O', p, size)
    ensures forall q, n :: AllocatedIn(kc, C, S, O, q, n) && q != p ==> AllocatedIn(kc, C, S, O', q, n)
  {
    forall q: nat, n: nat | AllocatedIn(kc, C, S, O, q, n) && q != p && KmallocIndex(n) < 0
      ensures q / PGSIZE != p / PGSIZE
    {
      DivModUnique(q, PGSIZE, q / PGSIZE, 0);
      DivModUnique(p, PGSIZE, p / PGSIZE, 0);
    }
  }

  /** kfree of a small object takes exactly that object out of the
      allocations. */
  lemma SmallFree(kc: seq<nat>, C: map<nat, Cache>, S: map<nat, Slab>, O: map<nat, nat>, tf: nat,
                  C': map<nat, Cache>, S': map<nat, Slab>, O': map<nat, nat>, tf': nat,
                  idx: int, size: nat, x: nat)
    requires idx == KmallocIndex(size) && 0 <= idx < |kc|
    requires FreeStep(C, S, O, tf, C', S', O', tf', kc[idx], x)
    requires !LiveIn(C', S', kc[idx], x)
    requires forall k, y :: LiveIn(C, S, k, y) && y != x ==> LiveIn(C', S', k, y)
    requires C'.Keys == C.Keys
    ensures !AllocatedIn(kc, C', S', O', x, size)
    ensures forall q, n :: AllocatedIn(kc, C, S, O, q, n) && q != x ==> AllocatedIn(kc, C', S', O', q, n)
  {
    forall q: nat, n: nat | AllocatedIn(kc, C, S, O, q, n) && q != x
      ensures AllocatedIn(kc, C', S', O', q, n)
    {
      if KmallocIndex(n) < 0 {
        var f := q / PGSIZE;
        assert f in O && f !in C && f !in S;
      }
    }
  }

  class SlubAllocator {
    /** The page allocator below: alloc_pages and free_pages. */
    const pmm: BuddyAllocator
    /** The kmem_cache headers, by the frame of the page that holds each. */
    var caches: map<nat, Cache>
    /** The slab headers, by the first frame of each slab. */
    var slabs: map<nat, Slab>
    /** kmalloc_caches as filled by kmalloc_init. */
    var kmallocCaches: seq<nat>
    /** Every block the slab layer holds from the page allocator, by first
        frame, with its order: cache pages, slabs and large kmalloc blocks. */
    ghost var owned: map<nat, nat>

    /** The page allocator is sound and every held block is apart from the
        free ones and from each other. */
    ghost predicate PagesOk()
      reads this`owned, pmm
    {
      pmm.Valid() && pmm.BuddyClosed(pmm.maxOrder) && OwnedOk(pmm.nbase, pmm.nframes, pmm.frames, owned)
    }

    ghost predicate Valid()
      reads this`caches, this`slabs, this`owned, pmm
    {
      PagesOk() && HeapOk(caches, slabs, owned)
    }

    /** alloc_pages(n) returns NULL. */
    ghost predicate PagesFail(n: nat)
      reads pmm
      requires pmm.Valid()
    {
      n == 0 || n > pmm.totalFree || FirstNonEmpty(pmm.lists, CeilLog2(n), pmm.maxOrder) > pmm.maxOrder
    }

    /** kmalloc_init has filled kmalloc_caches. */
    ghost predicate KmallocReady()
      reads this`kmallocCaches, this`caches
    {
      ClassesReady(kmallocCaches, caches)
    }

    /** p is what kmalloc(size) returned and kfree(p, size) may take back. */
    ghost predicate Allocated(p: nat, size: nat)
      reads this`kmallocCaches, this`caches, this`slabs, this`owned
    {
      AllocatedIn(kmallocCaches, caches, slabs, owned, p, size)
    }

    /** The slab layer starts with no cache and no held page. */
    constructor (pmm: BuddyAllocator)
      requires pmm.Valid() && pmm.BuddyClosed(pmm.maxOrder)
      ensures Valid() && Settled(slabs) && this.pmm == pmm
      ensures caches == map[] && slabs == map[] && kmallocCaches == [] && owned == map[]
    {
      this.pmm := pmm;
      caches, slabs, kmallocCaches := map[], map[], [];
      owned := map[];
    }

    /** alloc_pages(n) on behalf of the slab layer: on success the block of
        order ceil_log2(n) becomes held. */
    method GetPages(n: nat) returns (r: Option<nat>)
      requires PagesOk()
      modifies pmm, this`owned
      ensures PagesOk() && pmm.maxOrder == old(pmm.maxOrder)
      ensures r.None? <==> old(PagesFail(n))
      ensures r.None? ==> owned == old(owned) && pmm.totalFree == old(pmm.totalFree)
      ensures r.Some? ==> r.value !in old(owned) && owned == old(owned)[r.value := CeilLog2(n)]
      ensures r.Some? ==> pmm.totalFree + Pow2(CeilLog2(n)) == old(pmm.totalFree)
      ensures r.Some? ==> r.value % Pow2(CeilLog2(n)) == 0
    {
      ghost var F, L := pmm.frames, pmm.lists;
      assert FlagsListed(pmm.nbase, F, L);
      r := pmm.AllocPages(n);
      if r.Some? {
        var blk := r.value;
        ghost var need := CeilLog2(n);
        ghost var j := FirstNonEmpty(L, need, pmm.maxOrder);
        assert FlagListed(pmm.nbase, F, L, blk - pmm.nbase);
        OwnedAfterAlloc(pmm.nbase, pmm.nframes, F, L, pmm.frames, owned, blk, j, need);
        owned := owned[blk := need];
        AlignedMod(blk, need);
      }
    }

    /** free_pages(x, n) of a held block of order ceil_log2(n): the block is
        no longer held. */
    method PutPages(x: nat, n: nat)
      requires PagesOk() && x in owned && n > 0 && owned[x] == CeilLog2(n)
      modifies pmm, this`owned
      ensures PagesOk() && pmm.maxOrder == old(pmm.maxOrder)
      ensures owned == old(owned) - {x}
      ensures pmm.totalFree == old(pmm.totalFree) + Pow2(CeilLog2(n))
    {
      var o := owned[x];
      AlignedMod(x, o);
      pmm.ClosedChain(pmm.maxOrder, x, o);
      ghost var F, L := pmm.frames, pmm.lists;
      pmm.FreePages(x, n);
      ghost var rest := owned - {x};
      OwnedAfterFree(pmm.nbase, pmm.nframes, F, L, pmm.maxOrder, pmm.frames, owned, x, rest);
      owned := rest;
    }

    /** kmem_cache_create(name, size, align, order, ctor): one page for the
        header, which gets the layout of compute_layout and empty lists.  None
        is the failed alloc_pages(1), where the source's assertion stops the
        kernel.  The assertion of compute_layout is the last precondition. */
    method CacheCreate(size: nat, align: nat, order: nat) returns (r: Option<nat>)
      requires Valid() && IsPow2(CreateAlign(align)) && order < 32
      requires NewCache(size, align, order).objsPerSlab > 0
      modifies pmm, this`owned, this`caches
      ensures Valid() && pmm.maxOrder == old(pmm.maxOrder)
      ensures r.None? <==> old(PagesFail(1))
      ensures r.None? ==> caches == old(caches) && owned == old(owned) && pmm.totalFree == old(pmm.totalFree)
      ensures r.Some? ==> r.value !in old(caches) && caches == old(caches)[r.value := NewCache(size, align, order)]
      ensures r.Some? ==> owned == old(owned)[r.value := 0] && pmm.totalFree + 1 == old(pmm.totalFree)
    {
      var mgmt := GetPages(1);
      if mgmt.None? {
        return None;
      }
      var ch := mgmt.value;
      var c := NewCache(size, align, order);
      CreatedLayout(size, align, order);
      KeysHeld(caches, slabs, old(owned));
      HeapOwned(caches, slabs, old(owned), owned);
      HeapAddCache(caches, slabs, owned, ch, c);
      caches := caches[ch := c];
      r := Some(ch);
    }

    /** cache_grow(ch): a block of 2^order pages with a new slab at the front
        of partial, or None when alloc_pages fails. */
    method CacheGrow(ch: nat) returns (r: Option<nat>)
      requires Valid() && ch in caches
      modifies pmm, this`owned, this`caches, this`slabs
      ensures Valid() && pmm.maxOrder == old(pmm.maxOrder)
      ensures r.None? <==> old(PagesFail(Pow2(caches[ch].order)))
      ensures r.None? ==>
        caches == old(caches) && slabs == old(slabs) && owned == old(owned) && pmm.totalFree == old(pmm.totalFree)
      ensures r.Some? ==> var c := old(caches[ch]); var s := r.value;
        && s !in old(owned) && s % Pow2(c.order) == 0 && owned == old(owned)[s := c.order]
        && IsPow2(c.align) && slabs == old(slabs)[s := Built(ch, c, s)]
        && caches == old(caches)[ch := c.(partial := [s] + c.partial)]
        && pmm.totalFree + Pow2(c.order) == old(pmm.totalFree)
    {
      var c := caches[ch];
      assert CacheOk(ch, c, slabs, owned);
      CeilLog2Pow2(c.order);
      var p := GetPages(Pow2(c.order));
      if p.None? {
        return None;
      }
      var s := p.value;
      KeysHeld(caches, slabs, old(owned));
      HeapOwned(caches, slabs, old(owned), owned);
      var slab := SlabBuild(ch, c, s);
      HeapAddSlab(caches, slabs, owned, ch, s);
      slabs := slabs[s := slab];
      caches := caches[ch := c.(partial := [s] + c.partial)];
      r := Some(s);
    }

    /** The handout of kmem_cache_alloc once partial has a slab: the first
        free object of the front slab, which moves to full when it has no
        free object left. */
    method TakeFirst(ch: nat) returns (obj: nat)
      requires Valid() && ch in caches && caches[ch].partial != []
      modifies this`caches, this`slabs
      ensures Valid()
      ensures TookFrom(old(caches), old(slabs), caches, slabs, ch, obj)
    {
      var d := caches[ch];
      HeapTake(caches, slabs, owned, ch);
      var sl := d.partial[0];
      obj := slabs[sl].freelist[0];
      var t := Taken(slabs[sl]);
      slabs := slabs[sl := t];
      caches := caches[ch := TakenCache(d, sl, t)];
    }

    /** The slab kmem_cache_alloc(ch) takes from: the front of partial, the
        first empty slab moved there, or a slab cache_grow adds; None when
        cache_grow fails. */
    method PickSlab(ch: nat) returns (r: Option<nat>)
      requires Valid() && ch in caches
      modifies pmm, this`owned, this`caches, this`slabs
      ensures Valid() && pmm.maxOrder == old(pmm.maxOrder)
      ensures PickStep(old(caches), old(slabs), old(owned), old(pmm.totalFree), caches, slabs, owned, pmm.totalFree, ch, r)
      ensures r.None? <==> old(caches[ch].partial == [] && caches[ch].empty == [] && PagesFail(Pow2(caches[ch].order)))
      ensures r.Some? ==> ch in caches && caches[ch].partial != [] && caches[ch].partial[0] == r.value
    {
      var c := caches[ch];
      if c.partial != [] {
        r := Some(c.partial[0]);
      } else if c.empty != [] {
        HeapPromote(caches, slabs, owned, ch);
        caches := caches[ch := Promoted(c)];
        r := Some(c.empty[0]);
      } else {
        r := CacheGrow(ch);
        if r.Some? {
          assert [r.value] + c.partial == [r.value];
        }
      }
    }

    /** kmem_cache_alloc(ch): the first free object of the slab at the front
        of partial, after moving the first empty slab there or growing the
        cache when partial has none; None when cache_grow fails. */
    method CacheAlloc(ch: nat) returns (r: Option<nat>)
      requires Valid() && ch in caches
      modifies pmm, this`owned, this`caches, this`slabs
      ensures Valid() && pmm.maxOrder == old(pmm.maxOrder)
      ensures AllocStep(old(caches), old(slabs), old(owned), old(pmm.totalFree), caches, slabs, owned, pmm.totalFree, ch, r)
      ensures r.None? <==> old(caches[ch].partial == [] && caches[ch].empty == [] && PagesFail(Pow2(caches[ch].order)))
      ensures r.Some? ==> LiveIn(caches, slabs, ch, r.value) && !LiveIn(old(caches), old(slabs), ch, r.value)
      ensures forall k, y :: LiveIn(old(caches), old(slabs), k, y) ==> LiveIn(caches, slabs, k, y)
      ensures Settled(old(slabs)) ==> Settled(slabs)
      ensures LayoutsKept(old(caches), caches)
    {
      ghost var C, S, O, tf := caches, slabs, owned, pmm.totalFree;
      assert CacheOk(ch, caches[ch], slabs, owned);
      var p := PickSlab(ch);
      if p.None? {
        return None;
      }
      ghost var C1, S1 := caches, slabs;
      var obj := TakeFirst(ch);
      r := Some(obj);
      AllocCompose(C, S, O, tf, C1, S1, owned, pmm.totalFree, caches, slabs, ch, p.value, obj);
      AllocLive(C, S, O, tf, caches, slabs, owned, pmm.totalFree, ch, obj);
      AllocKept(C, S, O, tf, caches, slabs, owned, pmm.totalFree, ch, obj);
    }

    /** The first half of kmem_cache_free(ch, obj): obj goes to the front
        of the freelist of the slab sl it masks to, and sl, if it was full,
        leaves full by the search through the list and goes to the front of
        partial.  The assertions of the source (the slab belongs to ch, it
        has an object in use) follow from obj being in use. */
    method PutBack(ch: nat, obj: nat) returns (sl: nat)
      requires Valid() && LiveIn(caches, slabs, ch, obj)
      modifies this`caches, this`slabs
      ensures Valid() && PutStep(old(caches), old(slabs), caches, slabs, ch, obj)
      ensures sl == SlabFrame(obj, old(caches[ch].order))
      ensures ch in caches && SlabOf(slabs, ch, sl) && sl in caches[ch].partial
    {
      var c := caches[ch];
      sl := MaskDown(obj, SlabBytes(c.order)) / PGSIZE;
      var s := slabs[sl];
      assert SlabOk(sl, s, caches, owned);
      FreeRoom(sl, c, s.freelist, {obj});
      HeapPut(caches, slabs, owned, ch, sl, obj);
      var t := Returned(s, obj);
      var d := c.(inuseObjs := c.inuseObjs - 1);
      if t.inuse + 1 == t.total {
        var full := Unlink(c.full, sl);
        d := d.(full := full, partial := [sl] + c.partial);
      }
      assert d == ReturnedCache(c, sl, t);
      caches := caches[ch := d];
      slabs := slabs[sl := t];
    }

    /** The second half of kmem_cache_free: the slab sl with no object in
        use leaves partial and its 2^order pages go back to the page
        allocator. */
    method Release(ch: nat, sl: nat)
      requires Valid() && ch in caches && SlabOf(slabs, ch, sl)
      requires slabs[sl].inuse == 0 && sl in caches[ch].partial
      modifies pmm, this`owned, this`caches, this`slabs
      ensures Valid() && pmm.maxOrder == old(pmm.maxOrder)
      ensures caches == old(caches[ch := Dropped(caches[ch], sl)]) && slabs == old(slabs) - {sl}
      ensures owned == old(owned) - {sl} && pmm.totalFree == old(pmm.totalFree) + Pow2(old(caches[ch].order))
    {
      var c := caches[ch];
      assert SlabOk(sl, slabs[sl], caches, owned) && sl !in caches;
      HeapDrop(caches, slabs, owned, ch, sl);
      caches := caches[ch := Dropped(c, sl)];
      slabs := slabs - {sl};
      CeilLog2Pow2(c.order);
      ghost var O1 := owned;
      PutPages(sl, Pow2(c.order));
      HeapOwned(caches, slabs, O1, owned);
    }

    /** kmem_cache_free(ch, obj) of an object in use of ch: obj goes back to
        the front of the freelist of the slab it masks to, a slab that was
        full moves to partial, and a slab left with no object in use gives
        its pages back to the page allocator. */
    method CacheFree(ch: nat, obj: nat)
      requires Valid() && LiveIn(caches, slabs, ch, obj)
      modifies pmm, this`owned, this`caches, this`slabs
      ensures Valid() && pmm.maxOrder == old(pmm.maxOrder)
      ensures FreeStep(old(caches), old(slabs), old(owned), old(pmm.totalFree), caches, slabs, owned, pmm.totalFree, ch, obj)
      ensures !LiveIn(caches, slabs, ch, obj)
      ensures forall k, y :: LiveIn(old(caches), old(slabs), k, y) && y != obj ==> LiveIn(caches, slabs, k, y)
      ensures Settled(old(slabs)) ==> Settled(slabs)
      ensures LayoutsKept(old(caches), caches)
    {
      ghost var C, S, O, tf := caches, slabs, owned, pmm.totalFree;
      ghost var s := SlabFrame(obj, caches[ch].order);
      assert SlabOk(s, slabs[s], caches, owned);
      var sl := PutBack(ch, obj);
      ghost var C1, S1 := caches, slabs;
      if slabs[sl].inuse == 0 {
        Release(ch, sl);
        FreeReleased(C, S, O, tf, C1, S1, caches, slabs, owned, pmm.totalFree, ch, obj, sl);
      } else {
        FreeKept(C, S, O, tf, C1, S1, ch, obj, sl);
      }
    }

    /** kmalloc_init: a cache for each kmalloc size, with the smallest order
        whose slab holds one object.  false is a failed kmem_cache_create,
        where the source's assertion stops the kernel. */
    method KmallocInit() returns (ok: bool)
      requires Valid()
      modifies pmm, this`owned, this`caches, this`kmallocCaches
      ensures Valid() && slabs == old(slabs) && pmm.maxOrder == old(pmm.maxOrder)
      ensures ok ==> KmallocReady() && pmm.totalFree + KMALLOC_CLASSES == old(pmm.totalFree)
      ensures forall k :: k in old(caches) ==> k in caches && caches[k] == old(caches[k])
    {
      kmallocCaches := [];
      var i := 0;
      while i < KMALLOC_CLASSES
        invariant 0 <= i <= KMALLOC_CLASSES && |kmallocCaches| == i
        invariant Valid() && slabs == old(slabs) && pmm.maxOrder == old(pmm.maxOrder)
        invariant pmm.totalFree + i == old(pmm.totalFree)
        invariant forall j :: 0 <= j < i ==> ClassReady(kmallocCaches, caches, j)
        invariant forall k :: k in old(caches) ==> k in caches && caches[k] == old(caches[k])
      {
        var sz := KmallocSizes[i];
        var order := ClassOrder(sz);
        ClassLayout(sz, order);
        ghost var C := caches;
        var c := CacheCreate(sz, PTR_SIZE, order);
        if c.None? {
          return false;
        }
        ClassAdded(kmallocCaches, C, c.value, NewCache(sz, PTR_SIZE, order), kmallocCaches + [c.value], caches);
        kmallocCaches := kmallocCaches + [c.value];
        i := i + 1;
      }
      ok := true;
    }

    /** The large path of kmalloc(size): (size + PGSIZE - 1) / PGSIZE pages
        from the page allocator, at the byte address of their first frame. */
    method KmallocLarge(size: nat) returns (r: Option<nat>)
      requires Valid() && KmallocReady() && size < U64 && KmallocIndex(size) < 0
      modifies pmm, this`owned
      ensures Valid() && KmallocReady() && pmm.maxOrder == old(pmm.maxOrder)
      ensures r.None? <==> old(PagesFail(LargePages(size)))
      ensures LargeStep(old(caches), old(slabs), old(owned), old(pmm.totalFree), caches, slabs, owned, pmm.totalFree, size, r)
      ensures r.Some? ==> Allocated(r.value, size) && !old(Allocated(r.value, size))
      ensures AllocsKept(kmallocCaches, old(caches), old(slabs), old(owned), caches, slabs, owned)
    {
      var pages := LargePages(size);
      KeysHeld(caches, slabs, owned);
      var p := GetPages(pages);
      if p.None? {
        return None;
      }
      HeapOwned(caches, slabs, old(owned), owned);
      MulMod(p.value, PGSIZE);
      r := Some(p.value * PGSIZE);
      assert r.value / PGSIZE == p.value;
      LargeAlloc(kmallocCaches, caches, slabs, old(owned), owned, p.value, size);
    }

    /** The small path of kmalloc(size): kmem_cache_alloc of the cache of
        the smallest class that holds size. */
    method KmallocSmall(size: nat, idx: int) returns (r: Option<nat>)
      requires Valid() && KmallocReady() && idx == KmallocIndex(size) && idx >= 0
      modifies pmm, this`owned, this`caches, this`slabs
      ensures Valid() && KmallocReady() && pmm.maxOrder == old(pmm.maxOrder)
      ensures AllocStep(old(caches), old(slabs), old(owned), old(pmm.totalFree), caches, slabs, owned, pmm.totalFree,
                        kmallocCaches[KmallocIndex(size)], r)
      ensures r.None? <==> old(var c := caches[kmallocCaches[KmallocIndex(size)]];
                               c.partial == [] && c.empty == [] && PagesFail(Pow2(c.order)))
      ensures r.Some? ==> Allocated(r.value, size) && !old(Allocated(r.value, size))
      ensures AllocsKept(kmallocCaches, old(caches), old(slabs), old(owned), caches, slabs, owned)
      ensures Settled(old(slabs)) ==> Settled(slabs)
    {
      KmallocIndexSpec(size);
      assert ClassReady(kmallocCaches, caches, idx);
      r := CacheAlloc(kmallocCaches[idx]);
      ClassesKept(kmallocCaches, old(caches), caches);
      SmallAlloc(kmallocCaches, old(caches), old(slabs), old(owned), old(pmm.totalFree),
                 caches, slabs, owned, pmm.totalFree, idx, size, r);
    }

    /** kmalloc(size): above the largest class, (size + PGSIZE - 1) / PGSIZE
        pages straight from the page allocator, at the byte address of their
        first frame; otherwise an object of the smallest class that holds
        size. */
    method Kmalloc(size: nat) returns (r: Option<nat>)
      requires Valid() && KmallocReady() && size < U64
      modifies pmm, this`owned, this`caches, this`slabs
      ensures Valid() && KmallocReady() && pmm.maxOrder == old(pmm.maxOrder)
      ensures KmallocIndex(size) < 0 ==>
        && (r.None? <==> old(PagesFail(LargePages(size))))
        && LargeStep(old(caches), old(slabs), old(owned), old(pmm.totalFree), caches, slabs, owned, pmm.totalFree, size, r)
      ensures KmallocIndex(size) >= 0 ==>
        AllocStep(old(caches), old(slabs), old(owned), old(pmm.totalFree), caches, slabs, owned, pmm.totalFree,
                  kmallocCaches[KmallocIndex(size)], r)
      ensures KmallocIndex(size) >= 0 ==>
        (r.None? <==> old(var c := caches[kmallocCaches[KmallocIndex(size)]];
                          c.partial == [] && c.empty == [] && PagesFail(Pow2(c.order))))
      ensures r.Some? ==> Allocated(r.value, size) && !old(Allocated(r.value, size))
      ensures AllocsKept(kmallocCaches, old(caches), old(slabs), old(owned), caches, slabs, owned)
      ensures Settled(old(slabs)) ==> Settled(slabs)
    {
      var idx := ClassIndex(size);
      if idx < 0 {
        r := KmallocLarge(size);
      } else {
        r := KmallocSmall(size, idx);
      }
    }

    /** kfree(p, size) of what kmalloc(size) returned: nothing for NULL (None),
        the block's pages back to the page allocator for a size above the
        largest class, otherwise kmem_cache_free of the size's class. */
    method Kfree(p: Option<nat>, size: nat)
      requires Valid() && KmallocReady() && size < U64
      requires p.Some? ==> Allocated(p.value, size)
      modifies pmm, this`owned, this`caches, this`slabs
      ensures Valid() && KmallocReady() && pmm.maxOrder == old(pmm.maxOrder)
      ensures p.None? ==>
        caches == old(caches) && slabs == old(slabs) && owned == old(owned) && pmm.totalFree == old(pmm.totalFree)
      ensures p.Some? && KmallocIndex(size) < 0 ==>
        && caches == old(caches) && slabs == old(slabs) && owned == old(owned) - {p.value / PGSIZE}
        && pmm.totalFree == old(pmm.totalFree) + Pow2(CeilLog2(LargePages(size)))
      ensures p.Some? && KmallocIndex(size) >= 0 ==>
        FreeStep(old(caches), old(slabs), old(owned), old(pmm.totalFree), caches, slabs, owned, pmm.totalFree,
                 kmallocCaches[KmallocIndex(size)], p.value)
      ensures p.Some? ==> !Allocated(p.value, size)
      ensures forall q, n :: old(Allocated(q, n)) && (p.None? || q != p.value) ==> Allocated(q, n)
      ensures Settled(old(slabs)) ==> Settled(slabs)
    {
      if p.None? {
        return;
      }
      var idx := ClassIndex(size);
      if idx < 0 {
        var pages := LargePages(size);
        var f := p.value / PGSIZE;
        PutPages(f, pages);
        HeapOwned(caches, slabs, old(owned), owned);
        LargeFree(kmallocCaches, caches, slabs, old(owned), owned, p.value, size);
      } else {
        KmallocIndexSpec(size);
        CacheFree(kmallocCaches[idx], p.value);
        ClassesKept(kmallocCaches, old(caches), caches);
        SmallFree(kmallocCaches, old(caches), old(slabs), old(owned), old(pmm.totalFree),
                  caches, slabs, owned, pmm.totalFree, idx, size, p.value);
      }
    }

    /** kmalloc(size) followed by kfree of what it returned, the pattern of
        the slab self-check: with every slab in use, the headers, the held
        blocks and the free page count end as they began. */
    method KmallocThenKfree(size: nat) returns (r: Option<nat>)
      requires Valid() && KmallocReady() && size < U64 && Settled(slabs)
      modifies pmm, this`owned, this`caches, this`slabs
      ensures Valid() && KmallocReady() && Settled(slabs)
      ensures caches == old(caches) && slabs == old(slabs) && owned == old(owned) && pmm.totalFree == old(pmm.totalFree)
    {
      ghost var C, S, O, tf := caches, slabs, owned, pmm.totalFree;
      KmallocIndexSpec(size);
      r := Kmalloc(size);
      ghost var C1, S1, O1, tf1 := caches, slabs, owned, pmm.totalFree;
      Kfree(r, size);
      KmallocKfreeRestores(kmallocCaches, size, r, C, S, O, tf, C1, S1, O1, tf1, caches, slabs, owned, pmm.totalFree);
    }
  }
}
