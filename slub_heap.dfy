/** The memory of the slab layer of kern/mm/slub.c: the blocks it holds from
    the buddy page allocator, and the cache and slab headers that live in them.
    The headers are maps from the frame index of the page that holds each to
    the header's value, and a cache is named by the frame of its metadata
    page.  An object address is a byte offset frame * PGSIZE + offset
    (va_pa_offset taken as zero).  The lemmas here show that each header
    update of the slab operations keeps the headers well formed. */
module SlubHeap {
  import opened Arith
  import opened Wrappers
  import opened BuddyPmm
  import opened BuddyState
  import opened SlubLayout

  // ---------------------------------------------------------------------
  // The blocks the slab layer holds from the page allocator

  /** Block x of order k is held: it lies in the frame table, is aligned to
      its order and overlaps no free block. */
  ghost predicate Held(nbase: nat, nframes: nat, frames: seq<Frame>, x: nat, k: nat)
  {
    k < ORDERS && nbase <= x && x + Pow2(k) <= nbase + nframes && Aligned(x, k) &&
    FreeAvoids(nbase, frames, x, Pow2(k))
  }

  /** Distinct held blocks do not overlap. */
  ghost predicate OwnedApart(owned: map<nat, nat>)
  {
    forall x, y :: x in owned && y in owned && x != y ==> Disjoint(x, Pow2(owned[x]), y, Pow2(owned[y]))
  }

  ghost predicate OwnedOk(nbase: nat, nframes: nat, frames: seq<Frame>, owned: map<nat, nat>)
  {
    (forall x :: x in owned ==> Held(nbase, nframes, frames, x, owned[x])) && OwnedApart(owned)
  }

  // ---------------------------------------------------------------------
  // The headers

  /** No element of l repeats. */
  ghost predicate NoDups(l: seq<nat>)
  {
    forall i, j :: 0 <= i < j < |l| ==> l[i] != l[j]
  }

  /** A slab's freelist: distinct objects of the slab at frame s. */
  ghost predicate FreeObjects(s: nat, c: Cache, fl: seq<nat>)
  {
    (forall i :: 0 <= i < |fl| ==> IsObject(s, c, fl[i])) && NoDups(fl)
  }

  /** The header of the slab at frame s: its cache exists and agrees on
      order and object count, pages is s, the block it sits in is held with
      that order and starts at a frame aligned to it, and inuse plus the free
      objects make total. */
  ghost predicate SlabOk(s: nat, sl: Slab, caches: map<nat, Cache>, owned: map<nat, nat>)
  {
    sl.cache in caches && s in owned &&
    var c := caches[sl.cache];
    && sl.order == c.order && sl.total == c.objsPerSlab && sl.pages == s && owned[s] == sl.order
    && s % Pow2(sl.order) == 0
    && sl.inuse <= sl.total && |sl.freelist| + sl.inuse == sl.total
    && FreeObjects(s, c, sl.freelist)
  }

  /** s is a slab of cache ch. */
  ghost predicate SlabOf(slabs: map<nat, Slab>, ch: nat, s: nat)
  {
    s in slabs && slabs[s].cache == ch
  }

  /** The sum of inuse over the slabs on l. */
  ghost function InuseSum(l: seq<nat>, slabs: map<nat, Slab>): nat
  {
    if l == [] then 0 else (if l[0] in slabs then slabs[l[0]].inuse else 0) + InuseSum(l[1..], slabs)
  }

  /** The three lists of cache ch: each slab of ch is on exactly one of them,
      full holds the slabs with every object in use, partial slabs have a
      free object, empty slabs none in use; inuse_objs counts the objects in
      use. */
  ghost predicate ListsOk(ch: nat, c: Cache, slabs: map<nat, Slab>)
  {
    && NoDups(c.partial) && NoDups(c.full) && NoDups(c.empty)
    && (forall s :: s in c.partial ==> SlabOf(slabs, ch, s) && slabs[s].inuse < slabs[s].total && s !in c.full && s !in c.empty)
    && (forall s :: s in c.full ==> SlabOf(slabs, ch, s) && slabs[s].inuse == slabs[s].total && s !in c.empty)
    && (forall s :: s in c.empty ==> SlabOf(slabs, ch, s) && slabs[s].inuse == 0)
    && (forall s :: SlabOf(slabs, ch, s) ==> s in c.partial || s in c.full || s in c.empty)
    && c.inuseObjs == InuseSum(c.partial, slabs) + InuseSum(c.full, slabs)
  }

  /** The header of the cache at frame ch. */
  ghost predicate CacheOk(ch: nat, c: Cache, slabs: map<nat, Slab>, owned: map<nat, nat>)
  {
    ch in owned && owned[ch] == 0 && LayoutOk(c) && ListsOk(ch, c, slabs)
  }

  /** The header memory: cache and slab headers sit in different held blocks
      and each is well formed. */
  ghost predicate HeapOk(caches: map<nat, Cache>, slabs: map<nat, Slab>, owned: map<nat, nat>)
  {
    caches.Keys !! slabs.Keys && CachesOk(caches, slabs, owned) && SlabsOk(caches, slabs, owned)
  }

  ghost predicate CachesOk(caches: map<nat, Cache>, slabs: map<nat, Slab>, owned: map<nat, nat>)
  {
    forall ch :: ch in caches ==> CacheOk(ch, caches[ch], slabs, owned)
  }

  ghost predicate SlabsOk(caches: map<nat, Cache>, slabs: map<nat, Slab>, owned: map<nat, nat>)
  {
    forall s :: s in slabs ==> SlabOk(s, slabs[s], caches, owned)
  }

  /** Two cache headers with the same object size, alignment, order and
      object count. */
  predicate SameLayout(c: Cache, d: Cache)
  {
    c.objSize == d.objSize && c.align == d.align && c.order == d.order && c.objsPerSlab == d.objsPerSlab
  }

  // ---------------------------------------------------------------------
  // The header updates of the slab operations

  /** kmem_cache_alloc's update of the slab it takes the first free object
      from. */
  function Taken(s: Slab): (t: Slab)
    requires s.freelist != []
    ensures t.freelist == s.freelist[1..] && t.inuse == s.inuse + 1
    ensures t.cache == s.cache && t.total == s.total && t.order == s.order && t.pages == s.pages
  {
    s.(freelist := s.freelist[1..], inuse := s.inuse + 1)
  }

  /** kmem_cache_alloc's update of the cache: one more object in use, and the
      slab sl at the front of partial moves to full once every object of it,
      as t says, is in use. */
  function TakenCache(c: Cache, sl: nat, t: Slab): (d: Cache)
    requires c.partial != []
    ensures SameLayout(c, d) && d.empty == c.empty && d.inuseObjs == c.inuseObjs + 1
    ensures t.inuse == t.total ==> d.partial == c.partial[1..] && d.full == [sl] + c.full
    ensures t.inuse != t.total ==> d.partial == c.partial && d.full == c.full
  {
    var d := c.(inuseObjs := c.inuseObjs + 1);
    if t.inuse == t.total then d.(partial := c.partial[1..], full := [sl] + c.full) else d
  }

  /** kmem_cache_free's update of the slab: obj goes to the front of the
      freelist. */
  function Returned(s: Slab, obj: nat): (t: Slab)
    requires s.inuse > 0
    ensures t.freelist == [obj] + s.freelist && t.inuse + 1 == s.inuse
    ensures t.cache == s.cache && t.total == s.total && t.order == s.order && t.pages == s.pages
  {
    s.(freelist := [obj] + s.freelist, inuse := s.inuse - 1)
  }

  /** kmem_cache_free's update of the cache: one object fewer in use, and a
      slab sl that was full (t has one free object) leaves full and goes to
      the front of partial. */
  function ReturnedCache(c: Cache, sl: nat, t: Slab): (d: Cache)
    requires c.inuseObjs > 0
    ensures SameLayout(c, d) && d.empty == c.empty && d.inuseObjs + 1 == c.inuseObjs
    ensures t.inuse + 1 == t.total ==> d.partial == [sl] + c.partial && d.full == RemoveFirst(c.full, sl)
    ensures t.inuse + 1 != t.total ==> d.partial == c.partial && d.full == c.full
  {
    var d := c.(inuseObjs := c.inuseObjs - 1);
    if t.inuse + 1 == t.total then d.(full := RemoveFirst(c.full, sl), partial := [sl] + c.partial) else d
  }

  /** The first slab of the empty list moves to the front of partial. */
  function Promoted(c: Cache): (d: Cache)
    requires c.empty != []
    ensures SameLayout(c, d) && d.inuseObjs == c.inuseObjs && d.full == c.full
    ensures d.partial == [c.empty[0]] + c.partial && d.empty == c.empty[1..]
  {
    c.(empty := c.empty[1..], partial := [c.empty[0]] + c.partial)
  }

  /** The slab sl leaves partial. */
  function Dropped(c: Cache, sl: nat): (d: Cache)
    ensures SameLayout(c, d) && d.inuseObjs == c.inuseObjs && d.full == c.full && d.empty == c.empty
    ensures d.partial == RemoveFirst(c.partial, sl)
  {
    c.(partial := RemoveFirst(c.partial, sl))
  }

  /** The slab slab_build makes for cache ch with header c at frame s. */
  function Built(ch: nat, c: Cache, s: nat): Slab
    requires IsPow2(c.align)
  {
    Slab(ch, Threaded(s, c, c.objsPerSlab), 0, c.objsPerSlab, c.order, s)
  }

  // ---------------------------------------------------------------------
  // Lists and sums

  lemma NoDupsTail(l: seq<nat>)
    requires NoDups(l) && l != []
    ensures NoDups(l[1..]) && l[0] !in l[1..]
  {
    forall i, j | 0 <= i < j < |l| - 1
      ensures l[1..][i] != l[1..][j]
    {
      assert l[1..][i] == l[i + 1] && l[1..][j] == l[j + 1];
    }
  }

  lemma NoDupsCons(a: nat, l: seq<nat>)
    requires NoDups(l) && a !in l
    ensures NoDups([a] + l)
  {
    var m := [a] + l;
    forall i, j | 0 <= i < j < |m|
      ensures m[i] != m[j]
    {
      assert m[j] == l[j - 1];
      if i > 0 {
        assert m[i] == l[i - 1];
      }
    }
  }

  /** Without a repeated element, RemoveFirst takes x out entirely and keeps
      everything else; an absent x leaves the sequence alone. */
  lemma {:induction false} RemoveFirstFacts(l: seq<nat>, x: nat)
    requires NoDups(l)
    ensures NoDups(RemoveFirst(l, x)) && x !in RemoveFirst(l, x)
    ensures forall y :: y in RemoveFirst(l, x) <==> y in l && y != x
    ensures x !in l ==> RemoveFirst(l, x) == l
  {
    if l != [] {
      NoDupsTail(l);
      if l[0] != x {
        var r := RemoveFirst(l[1..], x);
        RemoveFirstFacts(l[1..], x);
        assert RemoveFirst(l, x) == [l[0]] + r;
        NoDupsCons(l[0], r);
        if x !in l {
          assert x !in l[1..];
          assert l == [l[0]] + l[1..];
        }
      }
    }
  }

  /** Every slab on l has the same presence and inuse in S and T. */
  ghost predicate SameInuse(l: seq<nat>, S: map<nat, Slab>, T: map<nat, Slab>)
  {
    forall x :: x in l ==> (x in S <==> x in T) && (x in S ==> S[x].inuse == T[x].inuse)
  }

  lemma {:induction false} InuseSumSame(l: seq<nat>, S: map<nat, Slab>, T: map<nat, Slab>)
    requires SameInuse(l, S, T)
    ensures InuseSum(l, S) == InuseSum(l, T)
  {
    if l != [] {
      assert l[0] in l;
      assert SameInuse(l[1..], S, T) by {
        forall x | x in l[1..]
          ensures (x in S <==> x in T) && (x in S ==> S[x].inuse == T[x].inuse)
        {
          assert x in l;
        }
      }
      InuseSumSame(l[1..], S, T);
    }
  }

  /** Changing the slab x on l changes the sum by the change in its inuse. */
  lemma {:induction false} InuseSumBump(l: seq<nat>, S: map<nat, Slab>, x: nat, v: Slab)
    requires NoDups(l) && x in l && x in S
    ensures InuseSum(l, S[x := v]) + S[x].inuse == InuseSum(l, S) + v.inuse
  {
    NoDupsTail(l);
    if l[0] == x {
      InuseSumSame(l[1..], S[x := v], S);
    } else {
      assert x in l[1..];
      InuseSumBump(l[1..], S, x, v);
    }
  }

  /** Taking the slab x off l takes its inuse off the sum. */
  lemma {:induction false} InuseSumRemove(l: seq<nat>, S: map<nat, Slab>, x: nat)
    requires x in l && x in S
    ensures InuseSum(RemoveFirst(l, x), S) + S[x].inuse == InuseSum(l, S)
  {
    if l[0] != x {
      assert x in l[1..];
      InuseSumRemove(l[1..], S, x);
      assert RemoveFirst(l, x) == [l[0]] + RemoveFirst(l[1..], x);
      assert ([l[0]] + RemoveFirst(l[1..], x))[1..] == RemoveFirst(l[1..], x);
    }
  }

  // ---------------------------------------------------------------------
  // Counting objects

  /** The addresses of the first n objects of the slab at frame s. */
  ghost function ObjSet(s: nat, c: Cache, n: nat): set<nat>
    requires IsPow2(c.align)
  {
    set i | 0 <= i < n :: ObjAddr(s, c, i)
  }

  lemma {:induction false} ObjSetCard(s: nat, c: Cache, n: nat)
    requires IsPow2(c.align)
    ensures |ObjSet(s, c, n)| <= n
  {
    if n > 0 {
      ObjSetCard(s, c, n - 1);
      assert ObjSet(s, c, n) == ObjSet(s, c, n - 1) + {ObjAddr(s, c, n - 1)};
    }
  }

  lemma {:induction false} SubsetCard(A: set<nat>, B: set<nat>)
    requires A <= B
    ensures |A| <= |B|
  {
    if A != {} {
      var x :| x in A;
      SubsetCard(A - {x}, B - {x});
    }
  }

  lemma {:induction false} DistinctCard(l: seq<nat>)
    requires NoDups(l)
    ensures |set x: nat | x in l| == |l|
  {
    if l != [] {
      NoDupsTail(l);
      DistinctCard(l[1..]);
      var T := set x: nat | x in l[1..];
      assert l[0] !in T;
      assert (set x: nat | x in l) == T + {l[0]};
      assert |T + {l[0]}| == |T| + 1;
    }
  }

  /** A freelist and a set of further objects not on it fit in the slab's
      object count. */
  lemma FreeRoom(s: nat, c: Cache, fl: seq<nat>, extra: set<nat>)
    requires IsPow2(c.align) && FreeObjects(s, c, fl)
    requires forall x :: x in extra ==> IsObject(s, c, x) && x !in fl
    ensures |fl| + |extra| <= c.objsPerSlab
  {
    var F := set x: nat | x in fl;
    DistinctCard(fl);
    assert F !! extra;
    forall x | x in F + extra
      ensures x in ObjSet(s, c, c.objsPerSlab)
    {
      assert IsObject(s, c, x);
      var i :| 0 <= i < c.objsPerSlab && x == ObjAddr(s, c, i);
    }
    SubsetCard(F + extra, ObjSet(s, c, c.objsPerSlab));
    ObjSetCard(s, c, c.objsPerSlab);
  }

  // ---------------------------------------------------------------------
  // The header invariant across the updates

  lemma FreeObjectsSame(s: nat, c: Cache, d: Cache, fl: seq<nat>)
    requires SameLayout(c, d)
    ensures FreeObjects(s, c, fl) == FreeObjects(s, d, fl)
  {
    if IsPow2(c.align) {
      forall i: nat
        ensures ObjAddr(s, c, i) == ObjAddr(s, d, i)
      {
      }
    }
  }

  lemma FreeObjectsTail(s: nat, c: Cache, fl: seq<nat>)
    requires FreeObjects(s, c, fl) && fl != []
    ensures FreeObjects(s, c, fl[1..]) && fl[0] !in fl[1..]
  {
    NoDupsTail(fl);
    forall i | 0 <= i < |fl| - 1
      ensures IsObject(s, c, fl[1..][i])
    {
      assert fl[1..][i] == fl[i + 1];
    }
  }

  lemma FreeObjectsCons(s: nat, c: Cache, x: nat, fl: seq<nat>)
    requires FreeObjects(s, c, fl) && IsObject(s, c, x) && x !in fl
    ensures FreeObjects(s, c, [x] + fl)
  {
    NoDupsCons(x, fl);
    var l := [x] + fl;
    forall i | 0 <= i < |l|
      ensures IsObject(s, c, l[i])
    {
      if i > 0 {
        assert l[i] == fl[i - 1];
      }
    }
  }

  /** slabs' differs from slabs only in slabs of cache ch. */
  ghost predicate OnlyOf(slabs: map<nat, Slab>, slabs': map<nat, Slab>, ch: nat)
  {
    && (forall s :: s in slabs && s !in slabs' ==> slabs[s].cache == ch)
    && (forall s :: s in slabs' && (s !in slabs || slabs[s] != slabs'[s]) ==>
          slabs'[s].cache == ch && (s in slabs ==> slabs[s].cache == ch))
  }

  /** Slab headers changed only for slabs of ch leave another cache's lists
      intact. */
  lemma OtherKept(k: nat, c: Cache, slabs: map<nat, Slab>, owned: map<nat, nat>, ch: nat, slabs': map<nat, Slab>)
    requires k != ch && CacheOk(k, c, slabs, owned) && OnlyOf(slabs, slabs', ch)
    ensures CacheOk(k, c, slabs', owned)
  {
    assert forall s :: SlabOf(slabs, k, s) ==> SlabOf(slabs', k, s) && slabs'[s] == slabs[s];
    assert forall s :: SlabOf(slabs', k, s) ==> SlabOf(slabs, k, s);
    InuseSumSame(c.partial, slabs, slabs');
    InuseSumSame(c.full, slabs, slabs');
  }

  lemma OthersKept(caches: map<nat, Cache>, slabs: map<nat, Slab>, owned: map<nat, nat>, ch: nat, slabs': map<nat, Slab>)
    requires CachesOk(caches, slabs, owned) && OnlyOf(slabs, slabs', ch)
    ensures forall k :: k in caches && k != ch ==> CacheOk(k, caches[k], slabs', owned)
  {
    forall k | k in caches && k != ch
      ensures CacheOk(k, caches[k], slabs', owned)
    {
      OtherKept(k, caches[k], slabs, owned, ch, slabs');
    }
  }

  lemma CachesSet(caches: map<nat, Cache>, slabs: map<nat, Slab>, owned: map<nat, nat>, ch: nat, d: Cache)
    requires forall k :: k in caches && k != ch ==> CacheOk(k, caches[k], slabs, owned)
    requires CacheOk(ch, d, slabs, owned)
    ensures CachesOk(caches[ch := d], slabs, owned)
  {
  }

  /** Replacing the header of cache ch by one of the same layout keeps the
      slab headers that did not change well formed. */
  lemma SlabsFrom(caches: map<nat, Cache>, slabs: map<nat, Slab>, owned: map<nat, nat>,
                  ch: nat, d: Cache, slabs': map<nat, Slab>)
    requires SlabsOk(caches, slabs, owned) && ch in caches && SameLayout(caches[ch], d)
    requires forall s :: s in slabs' ==>
      (s in slabs && slabs'[s] == slabs[s]) || SlabOk(s, slabs'[s], caches[ch := d], owned)
    ensures SlabsOk(caches[ch := d], slabs', owned)
  {
    forall s | s in slabs' && s in slabs && slabs'[s] == slabs[s]
      ensures SlabOk(s, slabs'[s], caches[ch := d], owned)
    {
      var k := slabs[s].cache;
      assert SlabOk(s, slabs[s], caches, owned);
      FreeObjectsSame(s, caches[k], caches[ch := d][k], slabs[s].freelist);
    }
  }

  /** A held block that holds no header can be forgotten, and a new held
      block changes nothing. */
  lemma HeapOwned(caches: map<nat, Cache>, slabs: map<nat, Slab>, owned: map<nat, nat>, owned': map<nat, nat>)
    requires HeapOk(caches, slabs, owned)
    requires forall x :: x in owned && (x in caches || x in slabs) ==> x in owned' && owned'[x] == owned[x]
    ensures HeapOk(caches, slabs, owned')
  {
    forall ch | ch in caches
      ensures CacheOk(ch, caches[ch], slabs, owned')
    {
      assert CacheOk(ch, caches[ch], slabs, owned);
    }
    forall s | s in slabs
      ensures SlabOk(s, slabs[s], caches, owned')
    {
      assert SlabOk(s, slabs[s], caches, owned);
    }
  }

  /** kmem_cache_create adds a header with no slabs at a held page. */
  lemma HeapAddCache(caches: map<nat, Cache>, slabs: map<nat, Slab>, owned: map<nat, nat>, ch: nat, c: Cache)
    requires HeapOk(caches, slabs, owned)
    requires ch in owned && owned[ch] == 0 && ch !in caches && ch !in slabs
    requires LayoutOk(c) && c.partial == [] && c.full == [] && c.empty == [] && c.inuseObjs == 0
    ensures HeapOk(caches[ch := c], slabs, owned)
  {
    NewCacheSlabs(caches, slabs, owned, ch, c);
    assert ListsOk(ch, c, slabs);
    CachesSet(caches, slabs, owned, ch, c);
  }

  lemma NewCacheSlabs(caches: map<nat, Cache>, slabs: map<nat, Slab>, owned: map<nat, nat>, ch: nat, c: Cache)
    requires SlabsOk(caches, slabs, owned) && ch !in caches
    ensures SlabsOk(caches[ch := c], slabs, owned)
    ensures forall s :: !SlabOf(slabs, ch, s)
  {
    var caches' := caches[ch := c];
    forall s | s in slabs
      ensures slabs[s].cache != ch && SlabOk(s, slabs[s], caches', owned)
    {
      assert SlabOk(s, slabs[s], caches, owned);
      assert caches'[slabs[s].cache] == caches[slabs[s].cache];
    }
  }

  /** The freelist slab_build threads is made of distinct objects of the slab. */
  lemma BuiltFree(s: nat, c: Cache)
    requires LayoutOk(c)
    ensures FreeObjects(s, c, Threaded(s, c, c.objsPerSlab))
  {
    var l := Threaded(s, c, c.objsPerSlab);
    forall i | 0 <= i < |l|
      ensures IsObject(s, c, l[i])
    {
      assert l[i] == ObjAddr(s, c, i);
    }
    forall i, j | 0 <= i < j < |l|
      ensures l[i] != l[j]
    {
      ObjectsApart(s, c, i, j);
    }
  }

  /** cache_grow puts a new slab, built on a held block of the cache's order,
      at the front of partial. */
  lemma HeapAddSlab(caches: map<nat, Cache>, slabs: map<nat, Slab>, owned: map<nat, nat>, ch: nat, s: nat)
    requires HeapOk(caches, slabs, owned) && ch in caches
    requires s in owned && owned[s] == caches[ch].order && s % Pow2(caches[ch].order) == 0
    requires s !in caches && s !in slabs
    ensures var c := caches[ch];
      HeapOk(caches[ch := c.(partial := [s] + c.partial)], slabs[s := Built(ch, c, s)], owned)
  {
    var c := caches[ch];
    assert CacheOk(ch, c, slabs, owned);
    var d := c.(partial := [s] + c.partial);
    var sl := Built(ch, c, s);
    var slabs' := slabs[s := sl];
    assert SlabOk(s, sl, caches[ch := d], owned) by {
      BuiltFree(s, c);
      FreeObjectsSame(s, c, d, sl.freelist);
    }
    SlabsFrom(caches, slabs, owned, ch, d, slabs');
    OthersKept(caches, slabs, owned, ch, slabs');
    AddedLists(ch, c, slabs, s, sl);
    CachesSet(caches, slabs', owned, ch, d);
  }

  /** The lists of cache ch with the new slab s at the front of partial. */
  lemma AddedLists(ch: nat, c: Cache, slabs: map<nat, Slab>, s: nat, sl: Slab)
    requires ListsOk(ch, c, slabs) && s !in slabs
    requires sl.cache == ch && sl.inuse == 0 < sl.total
    ensures ListsOk(ch, c.(partial := [s] + c.partial), slabs[s := sl])
  {
    var d := c.(partial := [s] + c.partial);
    var slabs' := slabs[s := sl];
    NoDupsCons(s, c.partial);
    forall x | x in d.partial
      ensures SlabOf(slabs', ch, x) && slabs'[x].inuse < slabs'[x].total && x !in d.full && x !in d.empty
    {
      if x != s {
        assert x in c.partial;
      }
    }
    forall x | x in d.full
      ensures SlabOf(slabs', ch, x) && slabs'[x].inuse == slabs'[x].total && x !in d.empty
    {
      assert SlabOf(slabs, ch, x);
    }
    forall x | x in d.empty
      ensures SlabOf(slabs', ch, x) && slabs'[x].inuse == 0
    {
      assert SlabOf(slabs, ch, x);
    }
    forall x | SlabOf(slabs', ch, x)
      ensures x in d.partial || x in d.full || x in d.empty
    {
      if x != s {
        assert SlabOf(slabs, ch, x);
      }
    }
    InuseSumSame(c.partial, slabs, slabs');
    InuseSumSame(c.full, slabs, slabs');
    assert InuseSum(d.partial, slabs') == InuseSum(c.partial, slabs') by {
      assert d.partial[1..] == c.partial;
    }
  }

  /** kmem_cache_alloc takes the first free object of the slab at the front
      of partial. */
  lemma HeapTake(caches: map<nat, Cache>, slabs: map<nat, Slab>, owned: map<nat, nat>, ch: nat)
    requires HeapOk(caches, slabs, owned) && ch in caches && caches[ch].partial != []
    ensures var sl := caches[ch].partial[0];
      SlabOf(slabs, ch, sl) && slabs[sl].freelist != [] &&
      var t := Taken(slabs[sl]);
      HeapOk(caches[ch := TakenCache(caches[ch], sl, t)], slabs[sl := t], owned)
  {
    var c := caches[ch];
    assert CacheOk(ch, c, slabs, owned);
    var sl := c.partial[0];
    assert sl in c.partial;
    assert SlabOk(sl, slabs[sl], caches, owned);
    var t := Taken(slabs[sl]);
    var d := TakenCache(c, sl, t);
    var slabs' := slabs[sl := t];
    assert SlabOk(sl, t, caches[ch := d], owned) by {
      FreeObjectsTail(sl, c, slabs[sl].freelist);
      FreeObjectsSame(sl, c, d, t.freelist);
    }
    SlabsFrom(caches, slabs, owned, ch, d, slabs');
    OthersKept(caches, slabs, owned, ch, slabs');
    TakenLists(ch, c, slabs, t);
    CachesSet(caches, slabs', owned, ch, d);
  }

  lemma TakenLists(ch: nat, c: Cache, slabs: map<nat, Slab>, t: Slab)
    requires ListsOk(ch, c, slabs) && c.partial != []
    requires var sl := c.partial[0];
      SlabOf(slabs, ch, sl) && t.cache == ch && t.total == slabs[sl].total && t.inuse == slabs[sl].inuse + 1
    ensures var sl := c.partial[0];
      ListsOk(ch, TakenCache(c, sl, t), slabs[sl := t])
  {
    if t.inuse == t.total {
      TakenToFull(ch, c, slabs, t);
    } else {
      TakenInPartial(ch, c, slabs, t);
    }
  }

  /** The slab at the front of partial moves to the front of full once its
      last free object is taken. */
  lemma TakenToFull(ch: nat, c: Cache, slabs: map<nat, Slab>, t: Slab)
    requires ListsOk(ch, c, slabs) && c.partial != []
    requires var sl := c.partial[0];
      SlabOf(slabs, ch, sl) && t.cache == ch && t.total == slabs[sl].total && t.inuse == slabs[sl].inuse + 1 == t.total
    ensures var sl := c.partial[0];
      ListsOk(ch, c.(inuseObjs := c.inuseObjs + 1, partial := c.partial[1..], full := [sl] + c.full), slabs[sl := t])
  {
    var sl := c.partial[0];
    var d := c.(inuseObjs := c.inuseObjs + 1, partial := c.partial[1..], full := [sl] + c.full);
    var slabs' := slabs[sl := t];
    assert sl in c.partial;
    NoDupsTail(c.partial);
    NoDupsCons(sl, c.full);
    forall x | x in d.partial
      ensures SlabOf(slabs', ch, x) && slabs'[x].inuse < slabs'[x].total && x !in d.full && x !in d.empty
    {
      assert x in c.partial;
    }
    forall x | x in d.full
      ensures SlabOf(slabs', ch, x) && slabs'[x].inuse == slabs'[x].total && x !in d.empty
    {
      if x != sl {
        assert x in c.full;
      }
    }
    forall x | x in d.empty
      ensures SlabOf(slabs', ch, x) && slabs'[x].inuse == 0
    {
      assert SlabOf(slabs, ch, x);
    }
    forall x | SlabOf(slabs', ch, x)
      ensures x in d.partial || x in d.full || x in d.empty
    {
      if x != sl {
        assert SlabOf(slabs, ch, x);
      }
    }
    InuseSumSame(c.partial[1..], slabs, slabs');
    InuseSumSame(c.full, slabs, slabs');
    assert d.full[1..] == c.full;
  }

  /** A slab with free objects left stays at the front of partial. */
  lemma TakenInPartial(ch: nat, c: Cache, slabs: map<nat, Slab>, t: Slab)
    requires ListsOk(ch, c, slabs) && c.partial != []
    requires var sl := c.partial[0];
      SlabOf(slabs, ch, sl) && t.cache == ch && t.total == slabs[sl].total && t.inuse == slabs[sl].inuse + 1 != t.total
    ensures var sl := c.partial[0];
      ListsOk(ch, c.(inuseObjs := c.inuseObjs + 1), slabs[sl := t])
  {
    var sl := c.partial[0];
    var d := c.(inuseObjs := c.inuseObjs + 1);
    var slabs' := slabs[sl := t];
    assert sl in c.partial;
    forall x | x in d.partial
      ensures SlabOf(slabs', ch, x) && slabs'[x].inuse < slabs'[x].total && x !in d.full && x !in d.empty
    {
      assert x in c.partial;
    }
    forall x | x in d.full
      ensures SlabOf(slabs', ch, x) && slabs'[x].inuse == slabs'[x].total && x !in d.empty
    {
      assert x in c.full;
    }
    forall x | x in d.empty
      ensures SlabOf(slabs', ch, x) && slabs'[x].inuse == 0
    {
      assert SlabOf(slabs, ch, x);
    }
    forall x | SlabOf(slabs', ch, x)
      ensures x in d.partial || x in d.full || x in d.empty
    {
      if x != sl {
        assert SlabOf(slabs, ch, x);
      }
    }
    InuseSumBump(c.partial, slabs, sl, t);
    InuseSumSame(c.full, slabs, slabs');
  }

  /** The slabs on l hold at least the inuse of x. */
  lemma InuseSumAtLeast(l: seq<nat>, S: map<nat, Slab>, x: nat)
    requires x in l && x in S
    ensures InuseSum(l, S) >= S[x].inuse
  {
    InuseSumRemove(l, S, x);
  }

  /** kmem_cache_free puts obj, an object of the slab sl not on its freelist,
      back; the slab ends on partial. */
  lemma HeapPut(caches: map<nat, Cache>, slabs: map<nat, Slab>, owned: map<nat, nat>, ch: nat, sl: nat, obj: nat)
    requires HeapOk(caches, slabs, owned) && ch in caches && SlabOf(slabs, ch, sl)
    requires IsObject(sl, caches[ch], obj) && obj !in slabs[sl].freelist && slabs[sl].inuse > 0
    ensures caches[ch].inuseObjs > 0
    ensures var t := Returned(slabs[sl], obj);
      var d := ReturnedCache(caches[ch], sl, t);
      HeapOk(caches[ch := d], slabs[sl := t], owned) && sl in d.partial
  {
    var c := caches[ch];
    assert CacheOk(ch, c, slabs, owned);
    assert SlabOk(sl, slabs[sl], caches, owned);
    InuseObjsPositive(ch, c, slabs, sl);
    var t := Returned(slabs[sl], obj);
    var d := ReturnedCache(c, sl, t);
    var slabs' := slabs[sl := t];
    assert SlabOk(sl, t, caches[ch := d], owned) by {
      FreeObjectsCons(sl, c, obj, slabs[sl].freelist);
      FreeObjectsSame(sl, c, d, t.freelist);
    }
    SlabsFrom(caches, slabs, owned, ch, d, slabs');
    OthersKept(caches, slabs, owned, ch, slabs');
    ReturnedLists(ch, c, slabs, sl, t);
    CachesSet(caches, slabs', owned, ch, d);
  }

  lemma ReturnedLists(ch: nat, c: Cache, slabs: map<nat, Slab>, sl: nat, t: Slab)
    requires ListsOk(ch, c, slabs) && SlabOf(slabs, ch, sl) && c.inuseObjs > 0
    requires t.cache == ch && t.total == slabs[sl].total && t.inuse + 1 == slabs[sl].inuse
    ensures var d := ReturnedCache(c, sl, t);
      ListsOk(ch, d, slabs[sl := t]) && sl in d.partial
  {
    assert sl !in c.empty;
    if t.inuse + 1 == t.total {
      ReturnedToPartial(ch, c, slabs, sl, t);
    } else {
      ReturnedInPartial(ch, c, slabs, sl, t);
    }
  }

  /** A full slab that gets an object back moves to the front of partial. */
  lemma ReturnedToPartial(ch: nat, c: Cache, slabs: map<nat, Slab>, sl: nat, t: Slab)
    requires ListsOk(ch, c, slabs) && SlabOf(slabs, ch, sl) && c.inuseObjs > 0
    requires t.cache == ch && t.total == slabs[sl].total && t.inuse + 1 == slabs[sl].inuse == t.total
    ensures ListsOk(ch, c.(inuseObjs := c.inuseObjs - 1, full := RemoveFirst(c.full, sl), partial := [sl] + c.partial), slabs[sl := t])
  {
    var d := c.(inuseObjs := c.inuseObjs - 1, full := RemoveFirst(c.full, sl), partial := [sl] + c.partial);
    var slabs' := slabs[sl := t];
    assert sl in c.full && sl !in c.partial && sl !in c.empty;
    RemoveFirstFacts(c.full, sl);
    NoDupsCons(sl, c.partial);
    forall x | x in d.partial
      ensures SlabOf(slabs', ch, x) && slabs'[x].inuse < slabs'[x].total && x !in d.full && x !in d.empty
    {
      if x != sl {
        assert x in c.partial;
      }
    }
    forall x | x in d.full
      ensures SlabOf(slabs', ch, x) && slabs'[x].inuse == slabs'[x].total && x !in d.empty
    {
      assert x in c.full;
    }
    forall x | x in d.empty
      ensures SlabOf(slabs', ch, x) && slabs'[x].inuse == 0
    {
      assert SlabOf(slabs, ch, x);
    }
    forall x | SlabOf(slabs', ch, x)
      ensures x in d.partial || x in d.full || x in d.empty
    {
      if x != sl {
        assert SlabOf(slabs, ch, x);
      }
    }
    InuseSumSame(c.partial, slabs, slabs');
    assert d.partial[1..] == c.partial;
    assert InuseSum(d.partial, slabs') == t.inuse + InuseSum(c.partial, slabs);
    InuseSumSame(d.full, slabs, slabs');
    InuseSumRemove(c.full, slabs, sl);
    assert InuseSum(d.full, slabs') + slabs[sl].inuse == InuseSum(c.full, slabs);
  }

  /** A partial slab that gets an object back stays where it is. */
  lemma ReturnedInPartial(ch: nat, c: Cache, slabs: map<nat, Slab>, sl: nat, t: Slab)
    requires ListsOk(ch, c, slabs) && SlabOf(slabs, ch, sl) && c.inuseObjs > 0
    requires t.cache == ch && t.total == slabs[sl].total && t.inuse + 1 == slabs[sl].inuse != t.total
    ensures sl in c.partial && ListsOk(ch, c.(inuseObjs := c.inuseObjs - 1), slabs[sl := t])
  {
    var d := c.(inuseObjs := c.inuseObjs - 1);
    var slabs' := slabs[sl := t];
    assert sl !in c.empty && sl !in c.full;
    forall x | x in d.partial
      ensures SlabOf(slabs', ch, x) && slabs'[x].inuse < slabs'[x].total && x !in d.full && x !in d.empty
    {
      assert x in c.partial;
    }
    forall x | x in d.full
      ensures SlabOf(slabs', ch, x) && slabs'[x].inuse == slabs'[x].total && x !in d.empty
    {
      assert x in c.full;
    }
    forall x | x in d.empty
      ensures SlabOf(slabs', ch, x) && slabs'[x].inuse == 0
    {
      assert SlabOf(slabs, ch, x);
    }
    forall x | SlabOf(slabs', ch, x)
      ensures x in d.partial || x in d.full || x in d.empty
    {
      if x != sl {
        assert SlabOf(slabs, ch, x);
      }
    }
    InuseSumBump(c.partial, slabs, sl, t);
    InuseSumSame(c.full, slabs, slabs');
  }

  /** A cache with a slab that has an object in use counts at least one
      object in use. */
  lemma InuseObjsPositive(ch: nat, c: Cache, slabs: map<nat, Slab>, sl: nat)
    requires ListsOk(ch, c, slabs) && SlabOf(slabs, ch, sl) && slabs[sl].inuse > 0
    ensures c.inuseObjs > 0
  {
    if sl in c.partial {
      InuseSumAtLeast(c.partial, slabs, sl);
    } else {
      assert sl !in c.empty;
      InuseSumAtLeast(c.full, slabs, sl);
    }
  }

  /** kmem_cache_free unlinks a slab with no object in use from partial and
      its header goes with its pages. */
  lemma HeapDrop(caches: map<nat, Cache>, slabs: map<nat, Slab>, owned: map<nat, nat>, ch: nat, sl: nat)
    requires HeapOk(caches, slabs, owned) && ch in caches && SlabOf(slabs, ch, sl)
    requires slabs[sl].inuse == 0 && sl in caches[ch].partial
    ensures HeapOk(caches[ch := Dropped(caches[ch], sl)], slabs - {sl}, owned)
  {
    var c := caches[ch];
    assert CacheOk(ch, c, slabs, owned);
    var d := Dropped(c, sl);
    var slabs' := slabs - {sl};
    SlabsFrom(caches, slabs, owned, ch, d, slabs');
    OthersKept(caches, slabs, owned, ch, slabs');
    DroppedLists(ch, c, slabs, sl);
    CachesSet(caches, slabs', owned, ch, d);
  }

  lemma DroppedLists(ch: nat, c: Cache, slabs: map<nat, Slab>, sl: nat)
    requires ListsOk(ch, c, slabs) && SlabOf(slabs, ch, sl) && slabs[sl].inuse == 0 && sl in c.partial
    ensures ListsOk(ch, Dropped(c, sl), slabs - {sl})
  {
    var d := Dropped(c, sl);
    var slabs' := slabs - {sl};
    RemoveFirstFacts(c.partial, sl);
    forall x | x in d.partial
      ensures SlabOf(slabs', ch, x) && slabs'[x].inuse < slabs'[x].total && x !in d.full && x !in d.empty
    {
      assert x in c.partial;
    }
    forall x | x in d.full
      ensures SlabOf(slabs', ch, x) && slabs'[x].inuse == slabs'[x].total && x !in d.empty
    {
      assert x in c.full;
    }
    forall x | x in d.empty
      ensures SlabOf(slabs', ch, x) && slabs'[x].inuse == 0
    {
      assert x in c.empty;
    }
    forall x | SlabOf(slabs', ch, x)
      ensures x in d.partial || x in d.full || x in d.empty
    {
      assert SlabOf(slabs, ch, x);
    }
    InuseSumSame(d.partial, slabs, slabs');
    InuseSumRemove(c.partial, slabs, sl);
    InuseSumSame(c.full, slabs, slabs');
  }

  /** kmem_cache_alloc moves the first slab of the empty list to partial. */
  lemma HeapPromote(caches: map<nat, Cache>, slabs: map<nat, Slab>, owned: map<nat, nat>, ch: nat)
    requires HeapOk(caches, slabs, owned) && ch in caches && caches[ch].empty != []
    ensures HeapOk(caches[ch := Promoted(caches[ch])], slabs, owned)
  {
    var c := caches[ch];
    assert CacheOk(ch, c, slabs, owned);
    var e := c.empty[0];
    assert e in c.empty;
    assert SlabOk(e, slabs[e], caches, owned);
    var d := Promoted(c);
    SlabsFrom(caches, slabs, owned, ch, d, slabs);
    PromotedLists(ch, c, slabs);
    forall k | k in caches && k != ch
      ensures CacheOk(k, caches[k], slabs, owned)
    {
    }
    CachesSet(caches, slabs, owned, ch, d);
  }

  lemma PromotedLists(ch: nat, c: Cache, slabs: map<nat, Slab>)
    requires ListsOk(ch, c, slabs) && c.empty != []
    requires c.empty[0] in slabs ==> slabs[c.empty[0]].total > 0
    ensures ListsOk(ch, Promoted(c), slabs)
  {
    var d := Promoted(c);
    var e := c.empty[0];
    assert e in c.empty;
    NoDupsTail(c.empty);
    NoDupsCons(e, c.partial);
    forall x | x in d.partial
      ensures SlabOf(slabs, ch, x) && slabs[x].inuse < slabs[x].total && x !in d.full && x !in d.empty
    {
      if x != e {
        assert x in c.partial;
      }
    }
    forall x | x in d.empty
      ensures SlabOf(slabs, ch, x) && slabs[x].inuse == 0
    {
      assert x in c.empty;
    }
    assert d.partial[1..] == c.partial;
  }

  /** alloc_pages took the free block [blk, blk + 2^j) of list j and split
      it down to order need, leaving the descriptors G: the held blocks still
      avoid the free ones, and blk becomes a held block apart from them. */
  lemma OwnedAfterAlloc(nbase: nat, nframes: nat, F: seq<Frame>, L: seq<seq<nat>>, G: seq<Frame>,
                        owned: map<nat, nat>, blk: nat, j: nat, need: nat)
    requires OwnedOk(nbase, nframes, F, owned)
    requires need <= j < ORDERS && HeadOk(nbase, F, blk, j) && FlagListed(nbase, F, L, blk - nbase)
    requires G == MarkHeads(nbase, F[blk - nbase := Frame(false, j)], SplitBlocks(blk, j, need))
    requires Held(nbase, nframes, G, blk, need)
    ensures blk !in owned && OwnedOk(nbase, nframes, G, owned[blk := need])
  {
    Pow2Monotone(need, j);
    forall x | x in owned
      ensures Held(nbase, nframes, G, x, owned[x]) && Disjoint(x, Pow2(owned[x]), blk, Pow2(need))
    {
      assert Held(nbase, nframes, F, x, owned[x]);
      AllocAvoids(nbase, F, L, blk, j, need, x, Pow2(owned[x]));
    }
    var owned' := owned[blk := need];
    forall x | x in owned'
      ensures Held(nbase, nframes, G, x, owned'[x])
    {
    }
    forall x, y | x in owned' && y in owned' && x != y
      ensures Disjoint(x, Pow2(owned'[x]), y, Pow2(owned'[y]))
    {
      if x != blk && y != blk {
        assert Disjoint(x, Pow2(owned[x]), y, Pow2(owned[y]));
      }
    }
  }

  /** free_pages merged the held block x with free buddies and pushed the
      result, leaving the descriptors G: the other held blocks still avoid
      the free ones. */
  lemma OwnedAfterFree(nbase: nat, nframes: nat, F: seq<Frame>, L: seq<seq<nat>>, mo: nat, G: seq<Frame>,
                       owned: map<nat, nat>, x: nat, rest: map<nat, nat>)
    requires OwnedOk(nbase, nframes, F, owned) && x in owned && rest == owned - {x}
    requires var M := Merge(nbase, F, L, x, owned[x], mo);
      nbase <= M.head < nbase + |F| && G == M.frames[M.head - nbase := Frame(true, M.order)]
    ensures OwnedOk(nbase, nframes, G, rest)
  {
    var o := owned[x];
    var M := Merge(nbase, F, L, x, o, mo);
    assert Held(nbase, nframes, F, x, o);
    AlignedMod(x, o);
    forall y | y in rest
      ensures Held(nbase, nframes, G, y, rest[y])
    {
      assert Held(nbase, nframes, F, y, owned[y]);
      MergeAvoids(nbase, F, L, x, o, mo, y, Pow2(owned[y]));
      MarkAvoids(nbase, M.frames, M.head, M.order, y, Pow2(owned[y]));
    }
    forall y, z | y in rest && z in rest && y != z
      ensures Disjoint(y, Pow2(rest[y]), z, Pow2(rest[z]))
    {
      assert Disjoint(y, Pow2(owned[y]), z, Pow2(owned[z]));
    }
  }
}
