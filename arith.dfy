/** Integer facts shared by the page allocator and the slab layer: powers of two,
    the two logarithms the allocator computes, alignment, and the buddy index. */
module Arith {

  /** 2^k, the number of frames in a block of order k. */
  function Pow2(k: nat): (r: nat)
    ensures r >= 1
  {
    if k == 0 then 1 else 2 * Pow2(k - 1)
  }

  lemma {:induction false} Pow2Monotone(a: nat, b: nat)
    requires a <= b
    ensures Pow2(a) <= Pow2(b)
  {
    if a < b {
      Pow2Monotone(a, b - 1);
    }
  }

  lemma Pow2Below(a: nat, b: nat)
    requires Pow2(a) < Pow2(b)
    ensures a < b
  {
    if a >= b {
      Pow2Monotone(b, a);
    }
  }

  lemma {:induction false} Pow2Add(a: nat, b: nat)
    ensures Pow2(a + b) == Pow2(a) * Pow2(b)
  {
    if b > 0 {
      Pow2Add(a, b - 1);
      assert Pow2(a + b) == 2 * Pow2(a + b - 1);
    }
  }

  lemma Pow2Of31()
    ensures Pow2(31) == 0x8000_0000
  {
    assert Pow2(4) == 16;
    Pow2Add(4, 4);
    Pow2Add(8, 8);
    Pow2Add(16, 8);
    Pow2Add(24, 4);
    Pow2Add(28, 3);
    assert Pow2(3) == 8;
  }

  /** The sizes buddy_check uses. */
  lemma SmallLogs()
    ensures Pow2(2) == 4 && Pow2(3) == 8
    ensures CeilLog2(4) == 2 && CeilLog2(8) == 3
  {
    assert Pow2(1) == 2;
    assert CeilLog2(2) == 1;
  }

  /** The least k with 2^k >= n (0 for n <= 1): the order of the block that
      holds an n-page request. */
  function CeilLog2(n: nat): (k: nat)
    ensures Pow2(k) >= n
    ensures k == 0 || Pow2(k - 1) < n
    ensures n <= 1 ==> k == 0
  {
    if n <= 1 then 0 else 1 + CeilLog2((n + 1) / 2)
  }

  /** The characterisation in CeilLog2's contract determines k. */
  lemma CeilLog2Unique(n: nat, k: nat)
    requires Pow2(k) >= n
    requires k == 0 || Pow2(k - 1) < n
    ensures k == CeilLog2(n)
  {
    var c := CeilLog2(n);
    if k < c {
      Pow2Monotone(k, c - 1);
    } else if k > c {
      Pow2Monotone(c, k - 1);
    }
  }

  /** A request of exactly 2^k pages needs a block of order k. */
  lemma CeilLog2Pow2(k: nat)
    ensures CeilLog2(Pow2(k)) == k
  {
    if k > 0 {
      Pow2Monotone(k - 1, k);
      assert Pow2(k - 1) < Pow2(k);
    }
    CeilLog2Unique(Pow2(k), k);
  }

  /** The largest k with 2^k <= t, for t >= 1 (and 0 for t == 0). */
  function FloorLog2(t: nat): (k: nat)
    ensures t >= 1 ==> Pow2(k) <= t < Pow2(k + 1)
    ensures t <= 1 ==> k == 0
  {
    if t <= 1 then 0 else 1 + FloorLog2(t / 2)
  }

  lemma FloorLog2Unique(t: nat, k: nat)
    requires 1 <= t
    requires Pow2(k) <= t < Pow2(k + 1)
    ensures k == FloorLog2(t)
  {
    var f := FloorLog2(t);
    if k < f {
      Pow2Monotone(k + 1, f);
    } else if k > f {
      Pow2Monotone(f + 1, k);
    }
  }

  // ---------------------------------------------------------------------
  // Division and remainder by a positive divisor

  lemma MulAtLeast(a: int, d: int)
    requires a >= 1 && d > 0
    ensures a * d >= d
  {
  }

  lemma {:induction false} DivModUnique(x: int, d: int, q: int, r: int)
    requires d > 0 && 0 <= r < d
    requires x == q * d + r
    ensures x / d == q && x % d == r
  {
    var q', r' := x / d, x % d;
    assert x == q' * d + r';
    assert (q - q') * d == r' - r;
    if q > q' {
      MulAtLeast(q - q', d);
    } else if q < q' {
      MulAtLeast(q' - q, d);
    }
  }

  lemma MulMod(m: int, d: int)
    requires d > 0
    ensures (m * d) % d == 0 && (m * d) / d == m
  {
    DivModUnique(m * d, d, m, 0);
  }

  /** A block start aligned to 2^a is aligned to every smaller power of two. */
  lemma AlignedWeaken(x: nat, a: nat, b: nat)
    requires b <= a
    requires x % Pow2(a) == 0
    ensures x % Pow2(b) == 0
  {
    AlignedMod(x, a);
    AlignedLess(x, a, b);
    AlignedMod(x, b);
  }

  lemma AlignedAdd(x: nat, y: nat, k: nat)
    requires x % Pow2(k) == 0 && y % Pow2(k) == 0
    ensures (x + y) % Pow2(k) == 0
  {
    var p := Pow2(k);
    assert x == (x / p) * p;
    assert y == (y / p) * p;
    assert x + y == (x / p + y / p) * p;
    MulMod(x / p + y / p, p);
  }

  // ---------------------------------------------------------------------
  // The buddy of a block: buddy_idx = idx ^ (1 << order)

  /** Bit k of x. */
  function Bit(x: nat, k: nat): nat
  {
    (x / Pow2(k)) % 2
  }

  /** x with bit k flipped, that is x ^ 2^k. */
  function Buddy(x: nat, k: nat): (r: nat)
    ensures r == x + Pow2(k) || r + Pow2(k) == x
  {
    if Bit(x, k) == 0 then x + Pow2(k)
    else
      assert x >= Pow2(k) by {
        assert x == (x / Pow2(k)) * Pow2(k) + x % Pow2(k);
        MulAtLeast(x / Pow2(k), Pow2(k));
      }
      x - Pow2(k)
  }

  /** The head of the merged block: the lower of a block and its buddy. */
  function Lower(x: nat, k: nat): nat
  {
    if Buddy(x, k) < x then Buddy(x, k) else x
  }

  lemma BuddyOfEven(x: nat, k: nat)
    requires x % Pow2(k) == 0 && Bit(x, k) == 0
    ensures Buddy(x, k) == x + Pow2(k) && Bit(x + Pow2(k), k) == 1
    ensures (x + Pow2(k)) % Pow2(k) == 0
    ensures x % Pow2(k + 1) == 0
  {
    var p := Pow2(k);
    var q := x / p;
    assert x == q * p;
    DivModUnique(x + p, p, q + 1, 0);
    assert x == (q / 2) * (2 * p);
    MulMod(q / 2, 2 * p);
  }

  lemma BuddyOfOdd(x: nat, k: nat)
    requires x % Pow2(k) == 0 && Bit(x, k) == 1
    ensures Buddy(x, k) + Pow2(k) == x && Bit(x - Pow2(k), k) == 0
    ensures (x - Pow2(k)) % Pow2(k) == 0
    ensures (x - Pow2(k)) % Pow2(k + 1) == 0
  {
    var p := Pow2(k);
    var q := x / p;
    var m := q / 2;
    var b := x - p;
    assert b == (2 * m) * p && b == m * (2 * p) by {
      assert q == 2 * m + 1;
      assert x == q * p;
      OddTimes(m, p);
    }
    assert b % p == 0 && b / p == 2 * m by {
      DivModUnique(b, p, 2 * m, 0);
    }
    assert b % (2 * p) == 0 by {
      MulMod(m, 2 * p);
    }
  }

  lemma OddTimes(m: int, p: int)
    ensures (2 * m + 1) * p == m * (2 * p) + p
    ensures (2 * m) * p == m * (2 * p)
  {
  }

  /** For an aligned block, the buddy is aligned as well, the buddy relation is
      symmetric, and the lower of the two starts a block aligned to the next
      order. */
  lemma BuddyFacts(x: nat, k: nat)
    requires x % Pow2(k) == 0
    ensures Buddy(x, k) % Pow2(k) == 0
    ensures Buddy(Buddy(x, k), k) == x
    ensures Lower(x, k) % Pow2(k + 1) == 0
    ensures Lower(x, k) == Lower(Buddy(x, k), k)
  {
    if Bit(x, k) == 0 {
      BuddyOfEven(x, k);
    } else {
      BuddyOfOdd(x, k);
    }
  }

  /** The low k bits of x are zero: (x & ((1 << k) - 1)) == 0, the test of
      check_block_alignment. */
  predicate Aligned(x: nat, k: nat)
  {
    k == 0 || (x % 2 == 0 && Aligned(x / 2, k - 1))
  }

  lemma HalveMod(x: nat, p: nat)
    requires p > 0
    ensures x % (2 * p) == 0 <==> x % 2 == 0 && (x / 2) % p == 0
  {
    if x % (2 * p) == 0 {
      var q := x / (2 * p);
      assert x == (p * q) * 2;
      MulMod(p * q, 2);
      MulMod(q, p);
    }
    if x % 2 == 0 && (x / 2) % p == 0 {
      var q := (x / 2) / p;
      assert x == q * (2 * p);
      MulMod(q, 2 * p);
    }
  }

  /** Zero low bits means a multiple of 2^k. */
  lemma {:induction false} AlignedMod(x: nat, k: nat)
    ensures Aligned(x, k) <==> x % Pow2(k) == 0
  {
    if k > 0 {
      AlignedMod(x / 2, k - 1);
      HalveMod(x, Pow2(k - 1));
    }
  }

  lemma {:induction false} AlignedLess(x: nat, a: nat, b: nat)
    requires b <= a && Aligned(x, a)
    ensures Aligned(x, b)
  {
    if b > 0 {
      AlignedLess(x / 2, a - 1, b - 1);
    }
  }

  /** Between two multiples of d there is a gap of at least d. */
  lemma MultipleGap(x: nat, y: nat, d: nat)
    requires d > 0 && x % d == 0 && y % d == 0 && x < y
    ensures x + d <= y
  {
    var qx, qy := x / d, y / d;
    assert x == qx * d && y == qy * d;
    assert qx < qy;
    assert (qx + 1) * d <= qy * d;
  }

  /** In a range whose ends are multiples of 2^(k+1), an aligned block of
      order k has its buddy inside the range. */
  lemma BuddyInRange(lo: nat, hi: nat, x: nat, k: nat)
    requires lo % Pow2(k + 1) == 0 && hi % Pow2(k + 1) == 0
    requires lo <= x < hi && x % Pow2(k) == 0
    ensures lo <= Buddy(x, k) < hi
  {
    var d := Pow2(k + 1);
    if Bit(x, k) == 0 {
      BuddyOfEven(x, k);
      MultipleGap(x, hi, d);
    } else {
      BuddyOfOdd(x, k);
      if lo > x - Pow2(k) {
        MultipleGap(x - Pow2(k), lo, d);
      }
    }
  }

  /** Two half-open ranges [a, a+la) and [b, b+lb) do not overlap. */
  predicate Disjoint(a: int, la: int, b: int, lb: int)
  {
    a + la <= b || b + lb <= a
  }
}
