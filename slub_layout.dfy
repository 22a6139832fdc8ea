/** The arithmetic of the slab layer (kern/mm/slub.c): rounding, the layout
    of a slab, the freelist slab_build threads through its objects, the
    kmalloc size classes and the order kmalloc_init picks for each. */
module SlubLayout {
  import opened Arith

  const PGSIZE: nat := 4096
  /** sizeof(void *) on the 64-bit target. */
  const PTR_SIZE: nat := 8
  /** sizeof(struct slab): link (two pointers), cache, freelist, three
      uint16_t fields padded to 8 bytes, pages. */
  const SLAB_HEADER: nat := 48
  const KMALLOC_CLASSES: nat := 10
  /** kmalloc_sizes. */
  const KmallocSizes: seq<nat> := [8, 16, 32, 64, 128, 256, 512, 1024, 2048, 4096]
  /** The ranges of uint16_t and size_t. */
  const U16: nat := 0x1_0000
  const U64: nat := 0x1_0000_0000_0000_0000

  /** a is 1, 2, 4, 8, ...: the masks of round_up and kmem_cache_free need it. */
  predicate IsPow2(a: nat)
    decreases a
  {
    a == 1 || (a >= 2 && a % 2 == 0 && IsPow2(a / 2))
  }

  lemma {:induction false} Pow2IsPow2(k: nat)
    ensures IsPow2(Pow2(k))
  {
    if k > 0 {
      Pow2IsPow2(k - 1);
      assert Pow2(k) / 2 == Pow2(k - 1);
    }
  }

  /** round_up: (x + a - 1) & ~(a - 1).  For a power of two a, clearing the
      low bits of y is y - y % a. */
  function RoundUp(x: nat, a: nat): (r: nat)
    requires IsPow2(a)
    ensures r % a == 0 && x <= r < x + a
  {
    var y := x + a - 1;
    assert (y - y % a) % a == 0 by {
      assert y == (y / a) * a + y % a;
      MulMod(y / a, a);
    }
    y - y % a
  }

  /** Every multiple of a that is at least x is at least round_up(x, a). */
  lemma RoundUpLeast(x: nat, a: nat, m: nat)
    requires IsPow2(a) && m % a == 0 && x <= m
    ensures RoundUp(x, a) <= m
  {
    var r := RoundUp(x, a);
    if r > m {
      MultipleGap(m, r, a);
    }
  }

  /** if (x < lo) x = lo. */
  function AtLeast(x: nat, lo: nat): (r: nat)
    ensures r >= x && r >= lo && (r == x || r == lo)
  {
    if x < lo then lo else x
  }

  /** The bytes of a slab of 2^order pages. */
  function SlabBytes(order: nat): (r: nat)
    ensures r >= PGSIZE
  {
    Pow2(order) * PGSIZE
  }

  // ---------------------------------------------------------------------
  // The two headers (slub.h)

  /** struct kmem_cache without name and ctor: the lists hold the first
      frames of the slabs, front first. */
  datatype Cache = Cache(objSize: nat, align: nat, order: nat, objsPerSlab: nat,
                         partial: seq<nat>, full: seq<nat>, empty: seq<nat>, inuseObjs: nat)

  /** struct slab: the freelist is the sequence of free object addresses from
      the head of the chain to its NULL end; pages is the slab's first frame. */
  datatype Slab = Slab(cache: nat, freelist: seq<nat>, inuse: nat, total: nat, order: nat, pages: nat)

  /** The offset of the first object: the header rounded up to the alignment. */
  function ObjStart(align: nat): (r: nat)
    requires IsPow2(align)
    ensures r >= SLAB_HEADER && r % align == 0
  {
    RoundUp(SLAB_HEADER, align)
  }

  /** slab_bytes - off computed in size_t, which wraps when off is larger. */
  function Payload(order: nat, off: nat): (r: nat)
    ensures r < U64
    ensures off <= SlabBytes(order) < U64 ==> r == SlabBytes(order) - off
  {
    (SlabBytes(order) - off) % U64
  }

  /** compute_layout as written: raise align and obj_size to sizeof(void *),
      then fit (slab_bytes - off) / obj_size objects, truncated to uint16_t. */
  function ComputeLayoutAsWritten(c: Cache): (r: Cache)
    requires IsPow2(c.align)
    ensures r.align == AtLeast(c.align, PTR_SIZE) && r.objSize == AtLeast(c.objSize, PTR_SIZE)
    ensures r.order == c.order && r.partial == c.partial && r.full == c.full && r.empty == c.empty
    ensures r.inuseObjs == c.inuseObjs && r.objsPerSlab < U16
  {
    var align := AtLeast(c.align, PTR_SIZE);
    var size := AtLeast(c.objSize, PTR_SIZE);
    assert IsPow2(8) by {
      assert IsPow2(2);
    }
    var payload := Payload(c.order, ObjStart(align));
    c.(align := align, objSize := size, objsPerSlab := (payload / size) % U16)
  }

  /** A 4 KiB slab with an alignment of 8 KiB: the header offset passes the end
      of the slab, slab_bytes - off wraps, and the object count is not zero,
      so the objs_per_slab > 0 assertion passes for objects that lie outside
      the slab. */
  lemma AlignBeyondSlab()
    ensures var r := ComputeLayoutAsWritten(Cache(8, 8192, 0, 0, [], [], [], 0));
      r.objsPerSlab == 65024 && ObjStart(r.align) > SlabBytes(r.order)
  {
    assert IsPow2(8192) by {
      assert IsPow2(2) && IsPow2(8) && IsPow2(32) && IsPow2(128) && IsPow2(512) && IsPow2(2048);
    }
    assert Pow2(0) == 1;
    assert RoundUp(SLAB_HEADER, 8192) == 8192;
  }

  /** compute_layout with the header offset checked against the slab size:
      no object fits when the offset is past the end of the slab. */
  function ComputeLayout(c: Cache): (r: Cache)
    requires IsPow2(c.align)
    ensures r.align == AtLeast(c.align, PTR_SIZE) && r.objSize == AtLeast(c.objSize, PTR_SIZE)
    ensures r.order == c.order && r.partial == c.partial && r.full == c.full && r.empty == c.empty
    ensures r.inuseObjs == c.inuseObjs
    ensures r.objsPerSlab < U16
    ensures ObjStart(r.align) > SlabBytes(r.order) ==> r.objsPerSlab == 0
  {
    var w := ComputeLayoutAsWritten(c);
    if ObjStart(w.align) <= SlabBytes(c.order) then w else w.(objsPerSlab := 0)
  }

  /** When the layout has objects at all, they fit between the header and the
      end of the slab, and, unless uint16_t truncated the count, one more
      would not. */
  lemma LayoutFits(c: Cache)
    requires IsPow2(c.align) && SlabBytes(c.order) < U64
    ensures var r := ComputeLayout(c);
      && (r.objsPerSlab > 0 ==> ObjStart(r.align) + r.objsPerSlab * r.objSize <= SlabBytes(r.order))
      && (r.objsPerSlab > 0 && (SlabBytes(r.order) - ObjStart(r.align)) / r.objSize < U16 ==>
            ObjStart(r.align) + (r.objsPerSlab + 1) * r.objSize > SlabBytes(r.order))
  {
    var r := ComputeLayout(c);
    var off := ObjStart(r.align);
    var sb := SlabBytes(r.order);
    if off <= sb {
      assert Payload(c.order, off) == sb - off;
      CountFits(sb - off, r.objSize, r.objsPerSlab);
    }
  }

  /** n = (p / d) truncated to uint16_t objects of d bytes fit in p bytes, and
      without truncation one more does not. */
  lemma CountFits(p: nat, d: nat, n: nat)
    requires d > 0 && n == (p / d) % U16
    ensures n * d <= p
    ensures p / d < U16 ==> n == p / d && (n + 1) * d > p
  {
    DivBounds(p, d);
    MulLe(n, p / d, d);
  }

  // ---------------------------------------------------------------------
  // The objects of a slab

  /** The address of object i of the slab at frame s. */
  function ObjAddr(s: nat, c: Cache, i: nat): nat
    requires IsPow2(c.align)
  {
    s * PGSIZE + ObjStart(c.align) + i * c.objSize
  }

  /** x is the address of one of the objs_per_slab objects of the slab at frame
      s of cache c. */
  ghost predicate IsObject(s: nat, c: Cache, x: nat)
  {
    IsPow2(c.align) && c.objSize > 0 &&
    exists i :: 0 <= i < c.objsPerSlab && x == ObjAddr(s, c, i)
  }

  /** The layout facts a cache keeps once created. */
  ghost predicate LayoutOk(c: Cache)
  {
    && IsPow2(c.align) && c.align >= PTR_SIZE && c.objSize >= PTR_SIZE
    && c.order < 32 && 0 < c.objsPerSlab < U16
    && ObjStart(c.align) + c.objsPerSlab * c.objSize <= SlabBytes(c.order)
  }

  /** Every object lies after the header and inside the slab. */
  lemma ObjectInSlab(s: nat, c: Cache, i: nat)
    requires LayoutOk(c) && i < c.objsPerSlab
    ensures s * PGSIZE + SLAB_HEADER <= ObjAddr(s, c, i)
    ensures ObjAddr(s, c, i) + c.objSize <= s * PGSIZE + SlabBytes(c.order)
  {
    assert (i + 1) * c.objSize <= c.objsPerSlab * c.objSize by {
      MulLe(i + 1, c.objsPerSlab, c.objSize);
    }
  }

  /** (p / d) * d <= p < (p / d + 1) * d. */
  lemma DivBounds(p: nat, d: nat)
    requires d > 0
    ensures p / d >= 0 && (p / d) * d <= p < (p / d + 1) * d
  {
    assert p == (p / d) * d + p % d;
    assert (p / d + 1) * d == (p / d) * d + d;
  }

  lemma MulLe(a: nat, b: nat, d: nat)
    requires a <= b
    ensures a * d <= b * d
  {
  }

  /** Objects with different indices do not overlap. */
  lemma ObjectsApart(s: nat, c: Cache, i: nat, j: nat)
    requires LayoutOk(c) && i < j
    ensures ObjAddr(s, c, i) + c.objSize <= ObjAddr(s, c, j)
  {
    MulLe(i + 1, j, c.objSize);
  }

  /** kmem_cache_free finds the slab by masking the object address down to a
      multiple of slab_bytes: kva & ~(slab_bytes - 1), a power of two. */
  function MaskDown(x: nat, a: nat): (r: nat)
    requires a > 0
    ensures r % a == 0 && r <= x < r + a
  {
    assert (x - x % a) % a == 0 by {
      assert x == (x / a) * a + x % a;
      MulMod(x / a, a);
    }
    x - x % a
  }

  /** The frame of the slab kmem_cache_free masks an object address down to. */
  function SlabFrame(x: nat, order: nat): nat
  {
    MaskDown(x, SlabBytes(order)) / PGSIZE
  }

  /** A slab whose first frame is aligned to 2^order is found from any of its
      objects. */
  lemma SlabFrameOfObject(s: nat, c: Cache, i: nat)
    requires LayoutOk(c) && i < c.objsPerSlab && s % Pow2(c.order) == 0
    ensures SlabFrame(ObjAddr(s, c, i), c.order) == s
  {
    var sb := SlabBytes(c.order);
    var x := ObjAddr(s, c, i);
    var q := s / Pow2(c.order);
    ObjectInSlab(s, c, i);
    assert s * PGSIZE == q * sb by {
      assert s == q * Pow2(c.order);
    }
    DivModUnique(x, sb, q, x - q * sb);
    assert MaskDown(x, sb) == s * PGSIZE;
    MulMod(s, PGSIZE);
  }

  // ---------------------------------------------------------------------
  // slab_build

  /** The freelist slab_build threads: object 0 to object n - 1 in
      ascending order. */
  function Threaded(s: nat, c: Cache, n: nat): (l: seq<nat>)
    requires IsPow2(c.align)
    ensures |l| == n
    ensures forall i :: 0 <= i < n ==> l[i] == ObjAddr(s, c, i)
  {
    if n == 0 then [] else Threaded(s, c, n - 1) + [ObjAddr(s, c, n - 1)]
  }

  /** slab_build for cache handle ch with header value c on the pages at frame
      s: no object in use, total = objs_per_slab, cache and order copied, and a
      freelist through every object from the first to the last, which the
      last object ends with NULL.  The ctor calls are not modelled. */
  method SlabBuild(ch: nat, c: Cache, s: nat) returns (slab: Slab)
    requires IsPow2(c.align)
    ensures slab.cache == ch && slab.order == c.order && slab.pages == s
    ensures slab.inuse == 0 && slab.total == c.objsPerSlab
    ensures slab.freelist == Threaded(s, c, c.objsPerSlab)
  {
    var start := s * PGSIZE + ObjStart(c.align);
    var fl: seq<nat> := [];
    for i := 0 to c.objsPerSlab
      invariant fl == Threaded(s, c, i)
    {
      var obj := start + i * c.objSize;
      fl := fl + [obj];
    }
    slab := Slab(ch, fl, 0, c.objsPerSlab, c.order, s);
  }

  /** The freelist of a new slab repeats no object, and holds every object and
      nothing else. */
  lemma ThreadedObjects(s: nat, c: Cache)
    requires LayoutOk(c)
    ensures var l := Threaded(s, c, c.objsPerSlab);
      && (forall i, j :: 0 <= i < j < |l| ==> l[i] < l[j])
      && (forall x :: x in l <==> IsObject(s, c, x))
  {
    var l := Threaded(s, c, c.objsPerSlab);
    forall i, j | 0 <= i < j < |l|
      ensures l[i] < l[j]
    {
      ObjectsApart(s, c, i, j);
    }
    forall x
      ensures x in l <==> IsObject(s, c, x)
    {
      if IsObject(s, c, x) {
        var i :| 0 <= i < c.objsPerSlab && x == ObjAddr(s, c, i);
        assert l[i] == x;
      }
      if x in l {
        var i :| 0 <= i < |l| && l[i] == x;
        assert 0 <= i < c.objsPerSlab && x == ObjAddr(s, c, i);
      }
    }
  }

  // ---------------------------------------------------------------------
  // Size classes

  /** kmalloc_index: the first class from i on whose size is at least sz, or
      -1 when there is none. */
  function KmallocIndexFrom(sz: nat, i: nat): (r: int)
    requires i <= KMALLOC_CLASSES
    ensures r == -1 || i <= r < KMALLOC_CLASSES
    ensures r >= 0 ==> sz <= KmallocSizes[r]
    ensures forall j :: i <= j < KMALLOC_CLASSES && (r == -1 || j < r) ==> KmallocSizes[j] < sz
    decreases KMALLOC_CLASSES - i
  {
    if i == KMALLOC_CLASSES then -1
    else if sz <= KmallocSizes[i] then i
    else KmallocIndexFrom(sz, i + 1)
  }

  /** kmalloc_index(sz). */
  function KmallocIndex(sz: nat): (r: int)
  {
    KmallocIndexFrom(sz, 0)
  }

  /** The class kmalloc_index picks is the smallest one that holds sz, and
      there is one exactly when sz is at most 4096. */
  lemma KmallocIndexSpec(sz: nat)
    ensures var r := KmallocIndex(sz);
      && -1 <= r < KMALLOC_CLASSES
      && (r == -1 <==> sz > 4096)
      && (r >= 0 ==> sz <= KmallocSizes[r] && (r == 0 || KmallocSizes[r - 1] < sz))
  {
    var r := KmallocIndex(sz);
    if r == -1 {
      assert KmallocSizes[9] < sz;
    }
  }

  /** The loop of kmalloc_index: the first class whose size holds sz, or -1. */
  method ClassIndex(sz: nat) returns (r: int)
    ensures r == KmallocIndex(sz)
  {
    var i := 0;
    while i < KMALLOC_CLASSES
      invariant 0 <= i <= KMALLOC_CLASSES
      invariant KmallocIndexFrom(sz, i) == KmallocIndex(sz)
    {
      if sz <= KmallocSizes[i] {
        return i;
      }
      i := i + 1;
    }
    r := -1;
  }

  /** The sizes grow with the class. */
  lemma KmallocSizesAscending(i: nat, j: nat)
    requires i < j < KMALLOC_CLASSES
    ensures KmallocSizes[i] < KmallocSizes[j]
  {
  }

  /** The payload of a slab of 2^order pages for pointer-aligned objects. */
  function ClassPayload(order: nat): nat
  {
    SlabBytes(order) - RoundUp(SLAB_HEADER, PTR_SIZE)
  }

  /** The order loop of kmalloc_init: the smallest order whose payload holds
      one object of sz bytes. */
  method ClassOrder(sz: nat) returns (order: nat)
    ensures ClassPayload(order) >= sz
    ensures forall o :: 0 <= o < order ==> ClassPayload(o) < sz
  {
    order := 0;
    while ClassPayload(order) < sz
      invariant forall o :: 0 <= o < order ==> ClassPayload(o) < sz
      decreases sz - ClassPayload(order)
    {
      assert ClassPayload(order + 1) > ClassPayload(order);
      order := order + 1;
    }
  }

  /** For the kmalloc sizes the chosen order is 0 or 1, and the layout of a
      cache of that size, alignment 8 and order holds at least one object: the
      assertion in compute_layout holds for every kmalloc cache. */
  lemma ClassLayout(sz: nat, order: nat)
    requires 8 <= sz <= 4096
    requires ClassPayload(order) >= sz
    requires forall o :: 0 <= o < order ==> ClassPayload(o) < sz
    ensures order <= 1
    ensures var r := ComputeLayout(Cache(sz, PTR_SIZE, order, 0, [], [], [], 0));
      LayoutOk(r) && r.objSize == sz && r.align == PTR_SIZE
  {
    assert IsPow2(PTR_SIZE) by {
      assert IsPow2(2);
    }
    assert RoundUp(SLAB_HEADER, PTR_SIZE) == 48;
    assert ClassPayload(1) == 8144;
    var c := Cache(sz, PTR_SIZE, order, 0, [], [], [], 0);
    var r := ComputeLayout(c);
    var p := ClassPayload(order);
    assert p <= 8144;
    assert ObjStart(PTR_SIZE) == 48;
    LayoutFits(c);
    SmallCount(p, sz);
    assert Payload(order, 48) == p;
  }

  /** Between 1 and 1018 objects of at least 8 bytes fill a payload of at most
      8144 bytes that holds one of them. */
  lemma SmallCount(p: nat, d: nat)
    requires 8 <= d <= p <= 8144
    ensures 1 <= p / d <= 1018 && (p / d) % U16 == p / d
  {
    DivBounds(p, d);
    MulLe(8, d, p / d);
  }
}
