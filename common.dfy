// Shared vocabulary: kernel error numbers and the Option/Result wrappers
// used by every component model.

module Errno {
  // Positive errno values; kernel functions return their negation.
  const EIO: int := 5
  const ENXIO: int := 6
  const E2BIG: int := 7
  const EAGAIN: int := 11
  const ENOMEM: int := 12
  const EFAULT: int := 14
  const EBUSY: int := 16
  const ENODEV: int := 19
  const EINVAL: int := 22
  const EFBIG: int := 27
  const EADDRINUSE: int := 98
}

module Wrappers {
  datatype Option<T> = None | Some(value: T)

  /** A kernel-style result: a value, or a negative errno. */
  datatype Result<T> = Ok(value: T) | Err(code: int)
  {
    predicate IsFailure() { Err? }
  }
}

module Ints {
  const U8_LIMIT: int := 0x100
  const U16_LIMIT: int := 0x1_0000
  const U32_LIMIT: int := 0x1_0000_0000
  const U64_LIMIT: int := 0x1_0000_0000_0000_0000
  const INT_MAX: int := 0x7fff_ffff

  function Min(a: int, b: int): int { if a <= b then a else b }
  function Max(a: int, b: int): int { if a >= b then a else b }

  type u8 = x: int | 0 <= x < U8_LIMIT
  type u16 = x: int | 0 <= x < U16_LIMIT
  type u32 = x: int | 0 <= x < U32_LIMIT
  type u64 = x: int | 0 <= x < U64_LIMIT
  type s64 = x: int | -0x8000_0000_0000_0000 <= x < 0x8000_0000_0000_0000

  /** Truncation of an unbounded value to an unsigned C type of `bits` width. */
  function Wrap32(x: int): (r: u32)
    ensures r % U32_LIMIT == x % U32_LIMIT
    ensures 0 <= x < U32_LIMIT ==> r == x
  {
    x % U32_LIMIT
  }

  function Wrap64(x: int): (r: u64)
    ensures 0 <= x < U64_LIMIT ==> r == x
  {
    x % U64_LIMIT
  }

  function Wrap16(x: int): (r: u16)
    ensures 0 <= x < U16_LIMIT ==> r == x
  {
    x % U16_LIMIT
  }

  /** Wrapping a running u16 counter at each decrement is wrapping once at the end. */
  lemma Wrap16Dec(x: int)
    ensures Wrap16(Wrap16(x) - 1) == Wrap16(x - 1)
  {
    var q := x / U16_LIMIT;
    var r := x % U16_LIMIT;
    if r >= 1 {
      DivModUnique(x - 1, U16_LIMIT, q, r - 1);
    } else {
      DivModUnique(x - 1, U16_LIMIT, q - 1, U16_LIMIT - 1);
      DivModUnique(-1, U16_LIMIT, -1, U16_LIMIT - 1);
    }
  }

  function Wrap8(x: int): (r: u8)
    ensures 0 <= x < U8_LIMIT ==> r == x
  {
    x % U8_LIMIT
  }

  /** k copies of a are at least one copy. */
  lemma {:induction false} MulAtLeast(k: nat, a: nat)
    requires k >= 1
    ensures k * a >= a
    decreases k
  {
    if k > 1 {
      MulAtLeast(k - 1, a);
      assert k * a == (k - 1) * a + a;
    }
  }

  lemma MulSub(q: int, p: int, a: int)
    ensures (q - p) * a == q * a - p * a
  {
  }

  /** Euclidean division is determined by any quotient/remainder pair. */
  lemma DivModUnique(y: int, a: int, q: int, m: int)
    requires a >= 1 && y == q * a + m && 0 <= m < a
    ensures y / a == q && y % a == m
  {
    var q' := y / a;
    var m' := y % a;
    assert y == q' * a + m';
    if q > q' {
      MulSub(q, q', a);
      MulAtLeast(q - q', a);
      assert false;
    } else if q < q' {
      MulSub(q', q, a);
      MulAtLeast(q' - q, a);
      assert false;
    }
  }

  /** 2^k. */
  function Pow2(k: nat): (r: nat)
    ensures r >= 1
  {
    if k == 0 then 1 else 2 * Pow2(k - 1)
  }

  /** The powers of two that name the C integer widths. */
  lemma Pow2Literals()
    ensures Pow2(8) == U8_LIMIT && Pow2(12) == 0x1000 && Pow2(16) == U16_LIMIT && Pow2(20) == 0x10_0000
    ensures Pow2(31) == 0x8000_0000 && Pow2(32) == U32_LIMIT && Pow2(64) == U64_LIMIT
  {
    assert Pow2(8) == 0x100;
    assert Pow2(16) == 0x1_0000;
    assert Pow2(20) == 0x10_0000;
    assert Pow2(24) == 0x100_0000;
    assert Pow2(31) == 0x8000_0000;
    assert Pow2(32) == 0x1_0000_0000;
    assert Pow2(40) == 0x100_0000_0000;
    assert Pow2(48) == 0x1_0000_0000_0000;
    assert Pow2(56) == 0x100_0000_0000_0000;
  }

  /** 2^32 alone, for proofs that need no other width. */
  lemma Pow2Is32()
    ensures Pow2(32) == U32_LIMIT
  {
    Pow2Literals();
  }

  lemma {:induction false} Pow2Mono(a: nat, b: nat)
    requires a <= b
    ensures Pow2(a) <= Pow2(b)
    decreases b
  {
    if a < b {
      Pow2Mono(a, b - 1);
    }
  }
}

/**
 * Bitwise operations on unsigned values, defined bit by bit from the low
 * end, with the facts the component models need about them.
 */
module Bits {
  import opened Ints

  /** C's `a & b`. */
  function And(a: nat, b: nat): nat
    decreases a
  {
    if a == 0 || b == 0 then 0
    else 2 * And(a / 2, b / 2) + (if a % 2 == 1 && b % 2 == 1 then 1 else 0)
  }

  /** C's `a | b`. */
  function Or(a: nat, b: nat): nat
    decreases a + b
  {
    if a == 0 then b
    else if b == 0 then a
    else 2 * Or(a / 2, b / 2) + (if a % 2 == 1 || b % 2 == 1 then 1 else 0)
  }

  /** Bit k of x, 0 or 1. */
  function Bit(x: nat, k: nat): (b: nat)
    ensures b <= 1
    decreases k
  {
    if k == 0 then x % 2 else Bit(x / 2, k - 1)
  }

  /** The number of bits set. */
  function PopCount(x: nat): nat
  {
    if x == 0 then 0 else x % 2 + PopCount(x / 2)
  }

  lemma {:induction false} BitZero(k: nat)
    ensures Bit(0, k) == 0
    decreases k
  {
    if k > 0 {
      BitZero(k - 1);
    }
  }

  /** A bit of `a & b` is set exactly when it is set in both. */
  lemma {:induction false} AndBit(a: nat, b: nat, k: nat)
    ensures Bit(And(a, b), k) == Bit(a, k) * Bit(b, k)
    decreases k
  {
    if a == 0 {
      BitZero(k);
    } else if b == 0 {
      BitZero(k);
    } else if k > 0 {
      AndBit(a / 2, b / 2, k - 1);
    }
  }

  /** A bit of `a | b` is set exactly when it is set in either. */
  lemma {:induction false} OrBit(a: nat, b: nat, k: nat)
    ensures Bit(Or(a, b), k) == (if Bit(a, k) == 1 || Bit(b, k) == 1 then 1 else 0)
    decreases k
  {
    if a == 0 {
      BitZero(k);
    } else if b == 0 {
      BitZero(k);
    } else if k > 0 {
      OrBit(a / 2, b / 2, k - 1);
    }
  }

  /** Values with the same bits are equal. */
  lemma {:induction false} BitsEqual(x: nat, y: nat)
    requires forall k: nat :: Bit(x, k) == Bit(y, k)
    ensures x == y
    decreases x + y
  {
    if x != 0 || y != 0 {
      assert Bit(x, 0) == Bit(y, 0);
      forall k: nat
        ensures Bit(x / 2, k) == Bit(y / 2, k)
      {
        assert Bit(x, k + 1) == Bit(y, k + 1);
      }
      BitsEqual(x / 2, y / 2);
    }
  }

  /** `t & (a | b)` is zero exactly when t shares no bit with a and none with b. */
  lemma AndOrZero(t: nat, a: nat, b: nat)
    ensures And(t, Or(a, b)) == 0 <==> And(t, a) == 0 && And(t, b) == 0
  {
    if And(t, Or(a, b)) == 0 {
      forall k: nat
        ensures Bit(And(t, a), k) == Bit(0, k) && Bit(And(t, b), k) == Bit(0, k)
      {
        BitZero(k);
        AndBit(t, Or(a, b), k);
        OrBit(a, b, k);
        AndBit(t, a, k);
        AndBit(t, b, k);
      }
      BitsEqual(And(t, a), 0);
      BitsEqual(And(t, b), 0);
    }
    if And(t, a) == 0 && And(t, b) == 0 {
      forall k: nat
        ensures Bit(And(t, Or(a, b)), k) == Bit(0, k)
      {
        BitZero(k);
        AndBit(t, Or(a, b), k);
        OrBit(a, b, k);
        AndBit(t, a, k);
        AndBit(t, b, k);
      }
      BitsEqual(And(t, Or(a, b)), 0);
    }
  }

  lemma {:induction false} AndSelf(x: nat)
    ensures And(x, x) == x
    decreases x
  {
    if x > 0 {
      AndSelf(x / 2);
    }
  }

  lemma {:induction false} PopCountPositive(x: nat)
    requires x >= 1
    ensures PopCount(x) >= 1
    decreases x
  {
    if x % 2 == 0 {
      PopCountPositive(x / 2);
    }
  }

  /** `x & (x - 1)` clears the lowest set bit, so it is zero exactly when x has one bit set. */
  lemma {:induction false} ClearLowestBit(x: nat)
    requires x >= 1
    ensures And(x, x - 1) == 0 <==> PopCount(x) == 1
    decreases x
  {
    var y := x / 2;
    if x % 2 == 1 {
      if y > 0 {
        AndSelf(y);
        PopCountPositive(y);
        assert And(x, x - 1) == 2 * And(y, y);
      }
    } else {
      assert x - 1 == 2 * (y - 1) + 1;
      assert (x - 1) / 2 == y - 1;
      if y - 1 > 0 {
        ClearLowestBit(y);
      }
    }
  }

  /** GENMASK(m - 1, n): bits n up to m - 1 set. */
  function Mask(m: nat, n: nat): nat
    requires n <= m
  {
    Pow2Mono(n, m);
    Pow2(m) - Pow2(n)
  }

  /** Bit k of GENMASK(m - 1, n) is set exactly for n <= k < m. */
  lemma {:induction false} BitRange(m: nat, n: nat, k: nat)
    requires n <= m
    ensures Bit(Mask(m, n), k) == (if n <= k < m then 1 else 0)
    decreases k
  {
    if m == n {
      BitZero(k);
    } else if n > 0 {
      assert Pow2(m) - Pow2(n) == 2 * (Pow2(m - 1) - Pow2(n - 1));
      if k > 0 {
        BitRange(m - 1, n - 1, k - 1);
      }
    } else {
      Pow2Mono(1, m);
      assert Pow2(m) - 1 == 2 * (Pow2(m - 1) - 1) + 1;
      if k > 0 {
        BitRange(m - 1, 0, k - 1);
      }
    }
  }

  /** A value below 2^n has no bit at or above n. */
  lemma {:induction false} BitsAbove(x: nat, n: nat, k: nat)
    requires x < Pow2(n) && k >= n
    ensures Bit(x, k) == 0
    decreases k
  {
    if n == 0 {
      BitZero(k);
    } else {
      BitsAbove(x / 2, n - 1, k - 1);
    }
  }

  /** A value with no bit at or above n is below 2^n. */
  lemma {:induction false} BelowFromBits(x: nat, n: nat)
    requires forall k: nat :: k >= n ==> Bit(x, k) == 0
    ensures x < Pow2(n)
    decreases n
  {
    if n == 0 {
      BitsEqual(x, 0) by {
        forall k: nat
          ensures Bit(x, k) == Bit(0, k)
        {
          BitZero(k);
        }
      }
    } else {
      forall k: nat | k >= n - 1
        ensures Bit(x / 2, k) == 0
      {
        assert Bit(x, k + 1) == 0;
      }
      BelowFromBits(x / 2, n - 1);
    }
  }

  /**
   * For a value of `width` bits, `x & GENMASK(width - 1, n)` -- the value masked
   * to bits n and up -- is zero exactly when x is below 2^n.
   */
  lemma HighBitsClear(x: nat, n: nat, width: nat)
    requires n <= width && x < Pow2(width)
    ensures And(x, Mask(width, n)) == 0 <==> x < Pow2(n)
  {
    if And(x, Mask(width, n)) == 0 {
      forall k: nat | k >= n
        ensures Bit(x, k) == 0
      {
        AndBit(x, Mask(width, n), k);
        BitRange(width, n, k);
        BitZero(k);
        if k >= width {
          BitsAbove(x, width, k);
        }
      }
      BelowFromBits(x, n);
    } else {
      if x < Pow2(n) {
        forall k: nat
          ensures Bit(And(x, Mask(width, n)), k) == Bit(0, k)
        {
          AndBit(x, Mask(width, n), k);
          BitRange(width, n, k);
          BitZero(k);
          if k >= n {
            BitsAbove(x, n, k);
          }
        }
        BitsEqual(And(x, Mask(width, n)), 0);
      }
    }
  }

  /** `x & GENMASK(width - 1, n)` of a width-bit x rounds x down to a multiple of 2^n. */
  lemma {:induction false} HighBits(x: nat, width: nat, n: nat)
    requires n <= width && x < Pow2(width)
    ensures And(x, Mask(width, n)) == (x / Pow2(n)) * Pow2(n)
    decreases n
  {
    if n == 0 {
      HighBitsAll(x, width);
    } else if n == width {
      HighBitsNone(x, n);
    } else if x > 0 {
      HalfBelow(x, width);
      HighBits(x / 2, width - 1, n - 1);
      HighBitsStep(x, width, n);
    } else {
      HighBitsZero(width, n);
    }
  }

  lemma HalfBelow(x: nat, width: nat)
    requires 0 < width && x < Pow2(width)
    ensures x / 2 < Pow2(width - 1)
  {
  }

  lemma HighBitsZero(width: nat, n: nat)
    requires n <= width
    ensures And(0, Mask(width, n)) == (0 / Pow2(n)) * Pow2(n)
  {
  }

  lemma HighBitsAll(x: nat, width: nat)
    requires x < Pow2(width)
    ensures And(x, Mask(width, 0)) == (x / Pow2(0)) * Pow2(0)
  {
    LowBits(x, width);
    DivModUnique(x, Pow2(width), 0, x);
  }

  lemma HighBitsNone(x: nat, n: nat)
    requires x < Pow2(n)
    ensures And(x, Mask(n, n)) == (x / Pow2(n)) * Pow2(n)
  {
    assert Mask(n, n) == 0;
    DivModUnique(x, Pow2(n), 0, x);
  }

  lemma HighBitsStep(x: nat, width: nat, n: nat)
    requires 0 < n < width && x > 0 && x < Pow2(width)
    requires And(x / 2, Mask(width - 1, n - 1)) == ((x / 2) / Pow2(n - 1)) * Pow2(n - 1)
    ensures And(x, Mask(width, n)) == (x / Pow2(n)) * Pow2(n)
  {
    var p := Pow2(n - 1);
    var m := Mask(width - 1, n - 1);
    MaskHalf(width, n);
    AndEven(x, m);
    var q := (x / 2) / p;
    assert And(x, Mask(width, n)) == 2 * (q * p);
    DivHalf(x, p);
    MulAssoc2(q, p);
  }

  /** GENMASK(width - 1, n) is twice GENMASK(width - 2, n - 1), which is nonzero below width. */
  lemma MaskHalf(width: nat, n: nat)
    requires 0 < n < width
    ensures Mask(width, n) == 2 * Mask(width - 1, n - 1) && Mask(width - 1, n - 1) > 0
    ensures Pow2(n) == 2 * Pow2(n - 1)
  {
    Pow2Mono(n, width - 1);
  }

  lemma AndEven(x: nat, m: nat)
    requires x > 0 && m > 0
    ensures And(x, 2 * m) == 2 * And(x / 2, m)
  {
    assert (2 * m) / 2 == m && (2 * m) % 2 == 0;
  }

  lemma DivHalf(x: nat, p: nat)
    requires p >= 1
    ensures (x / 2) / p == x / (2 * p)
  {
    var q := (x / 2) / p;
    var r := (x / 2) % p;
    assert x / 2 == q * p + r;
    assert x == q * (2 * p) + (2 * r + x % 2);
    DivModUnique(x, 2 * p, q, 2 * r + x % 2);
  }

  lemma MulAssoc2(q: int, p: int)
    ensures 2 * (q * p) == q * (2 * p)
  {
  }

  /** `x & GENMASK(n - 1, 0)` keeps the low n bits: it is x modulo 2^n. */
  lemma {:induction false} LowBits(x: nat, n: nat)
    ensures And(x, Mask(n, 0)) == x % Pow2(n)
    decreases n
  {
    if n > 0 && x > 0 {
      var p := Pow2(n - 1);
      var m := Mask(n - 1, 0);
      assert Pow2(n) == 2 * p && m == p - 1;
      assert Mask(n, 0) == 2 * m + 1;
      AndOdd(x, m);
      LowBits(x / 2, n - 1);
      ModDouble(x, p);
      calc {
        And(x, Mask(n, 0));
        == And(x, 2 * m + 1);
        == 2 * And(x / 2, m) + x % 2;
        == 2 * ((x / 2) % p) + x % 2;
        == x % (2 * p);
      }
    } else if n == 0 {
      assert Mask(n, 0) == 0 && Pow2(n) == 1;
    } else {
      assert And(x, Mask(n, 0)) == 0;
    }
  }

  lemma AndOdd(x: nat, m: nat)
    requires x > 0
    ensures And(x, 2 * m + 1) == 2 * And(x / 2, m) + x % 2
  {
    assert (2 * m + 1) / 2 == m && (2 * m + 1) % 2 == 1;
  }

  lemma ModDouble(x: nat, p: nat)
    requires p >= 1
    ensures x % (2 * p) == 2 * ((x / 2) % p) + x % 2
  {
    var q := (x / 2) / p;
    var r := (x / 2) % p;
    assert x == 2 * (x / 2) + x % 2;
    assert x / 2 == q * p + r;
    assert x == q * (2 * p) + (2 * r + x % 2);
    DivModUnique(x, 2 * p, q, 2 * r + x % 2);
  }

  /** A product with a bit: zero or the other factor. */
  lemma TimesBit(x: int, b: int)
    requires b == 0 || b == 1
    ensures x * b == if b == 0 then 0 else x
  {
  }

  /** `x & BIT(k)` is nonzero exactly when bit k of x is set. */
  lemma SingleBit(x: nat, k: nat)
    ensures Mask(k + 1, k) == Pow2(k)
    ensures And(x, Pow2(k)) == 0 <==> Bit(x, k) == 0
  {
    var p := Pow2(k);
    assert Pow2(k + 1) == 2 * p;
    var a := And(x, p);
    AndBit(x, p, k);
    PowBit(k, k);
    TimesBit(Bit(x, k), Bit(p, k));
    BitZero(k);
    if Bit(x, k) == 0 {
      forall j: nat
        ensures Bit(a, j) == Bit(0, j)
      {
        AndBit(x, p, j);
        PowBit(k, j);
        TimesBit(Bit(x, j), Bit(p, j));
        BitZero(j);
      }
      BitsEqual(a, 0);
    }
  }

  /** The bits of x * 2^n + b, b below 2^n: b's bits below n, x's bits above. */
  lemma {:induction false} ShiftBit(x: nat, b: nat, n: nat, k: nat)
    requires b < Pow2(n)
    ensures Bit(x * Pow2(n) + b, k) == if k < n then Bit(b, k) else Bit(x, k - n)
    decreases n
  {
    if n > 0 {
      var p := Pow2(n - 1);
      var y := x * Pow2(n) + b;
      assert x * Pow2(n) == 2 * (x * p);
      assert y == 2 * (x * p + b / 2) + b % 2;
      DivModUnique(y, 2, x * p + b / 2, b % 2);
      if k > 0 {
        ShiftBit(x, b / 2, n - 1, k - 1);
      }
    }
  }

  /** `(x << n) | b` is x * 2^n + b when b fits in the low n bits. */
  lemma OrShift(x: nat, b: nat, n: nat)
    requires b < Pow2(n)
    ensures Or(x * Pow2(n), b) == x * Pow2(n) + b
  {
    forall k: nat
      ensures Bit(Or(x * Pow2(n), b), k) == Bit(x * Pow2(n) + b, k)
    {
      OrBit(x * Pow2(n), b, k);
      ShiftBit(x, 0, n, k);
      ShiftBit(x, b, n, k);
      BitZero(k);
      if k >= n {
        BitsAbove(b, n, k);
      }
    }
    BitsEqual(Or(x * Pow2(n), b), x * Pow2(n) + b);
  }

  /** `~m` on an n-bit value: GENMASK(n - 1, 0) - m flips bits 0 .. n-1. */
  lemma {:induction false} ComplementBit(m: nat, n: nat, k: nat)
    requires m < Pow2(n)
    ensures Bit(Mask(n, 0) - m, k) == if k < n then 1 - Bit(m, k) else 0
    decreases n
  {
    if n == 0 {
      BitZero(k);
    } else {
      var p := Pow2(n - 1);
      var c := Mask(n, 0) - m;
      assert Mask(n, 0) == 2 * p - 1 && Mask(n - 1, 0) == p - 1;
      assert c == 2 * (Mask(n - 1, 0) - m / 2) + (1 - m % 2);
      DivModUnique(c, 2, Mask(n - 1, 0) - m / 2, 1 - m % 2);
      if k > 0 {
        ComplementBit(m / 2, n - 1, k - 1);
      }
    }
  }

  /** `&` and `|` of n-bit values are n-bit values. */
  lemma AndOrBelow(a: nat, b: nat, n: nat)
    requires a < Pow2(n) && b < Pow2(n)
    ensures And(a, b) < Pow2(n) && Or(a, b) < Pow2(n)
  {
    forall k: nat | k >= n
      ensures Bit(And(a, b), k) == 0 && Bit(Or(a, b), k) == 0
    {
      AndBit(a, b, k);
      OrBit(a, b, k);
      BitsAbove(a, n, k);
      BitsAbove(b, n, k);
    }
    BelowFromBits(And(a, b), n);
    BelowFromBits(Or(a, b), n);
  }

  /** `~m` in unsigned int. */
  function Not32(m: u32): (r: u32)
    ensures r == Mask(32, 0) - m
  {
    Pow2Literals();
    Mask(32, 0) - m
  }

  lemma OrComm(a: nat, b: nat)
    ensures Or(a, b) == Or(b, a)
  {
    forall k: nat
      ensures Bit(Or(a, b), k) == Bit(Or(b, a), k)
    {
      OrBit(a, b, k);
      OrBit(b, a, k);
    }
    BitsEqual(Or(a, b), Or(b, a));
  }

  /** Setting BIT(b) on GENMASK(b - 1, 0) gives GENMASK(b, 0). */
  lemma MaskStep(b: nat)
    ensures Or(Mask(b, 0), Pow2(b)) == Mask(b + 1, 0)
  {
    OrComm(Mask(b, 0), Pow2(b));
    OrShift(1, Mask(b, 0), b);
  }

  /** A set bit bounds the value from below. */
  lemma BitSetBound(x: nat, k: nat)
    requires Bit(x, k) == 1
    ensures x >= Pow2(k)
  {
    if x < Pow2(k) {
      BitsAbove(x, k, k);
    }
  }

  /** Subtracting a set bit clears exactly that bit. */
  lemma {:induction false} SubBit(x: nat, b: nat, k: nat)
    requires Bit(x, b) == 1
    ensures x >= Pow2(b)
    ensures Bit(x - Pow2(b), k) == if k == b then 0 else Bit(x, k)
    decreases b
  {
    BitSetBound(x, b);
    if b == 0 {
      assert x - 1 == 2 * (x / 2);
      DivModUnique(x - 1, 2, x / 2, 0);
    } else {
      var y := x - Pow2(b);
      BitSetBound(x / 2, b - 1);
      assert y == 2 * (x / 2 - Pow2(b - 1)) + x % 2;
      DivModUnique(y, 2, x / 2 - Pow2(b - 1), x % 2);
      if k > 0 {
        SubBit(x / 2, b - 1, k - 1);
      }
    }
  }

  /** `x & ~BIT(b)` for a set bit b of an n-bit x is x - 2^b. */
  lemma {:induction false} ClearBit(x: nat, b: nat, n: nat)
    requires x < Pow2(n) && b < n && Bit(x, b) == 1
    ensures x >= Pow2(b)
    ensures And(x, Mask(n, 0) - Pow2(b)) == x - Pow2(b)
    decreases b, 1
  {
    BitSetBound(x, b);
    if b == 0 {
      ClearBitZero(x, n);
    } else {
      ClearBitAbove(x, b, n);
    }
  }

  lemma ClearBitZero(x: nat, n: nat)
    requires 1 <= x < Pow2(n) && 0 < n && Bit(x, 0) == 1
    ensures And(x, Mask(n, 0) - 1) == x - 1
  {
    var p := Pow2(n - 1);
    var h := x / 2;
    var m := Mask(n - 1, 0);
    assert Pow2(n) == 2 * p && x == 2 * h + 1 && h < p;
    assert Mask(n, 0) - 1 == 2 * m;
    if m == 0 {
      assert x == 1;
    } else {
      AndEven(x, m);
      LowBits(h, n - 1);
      DivModUnique(h, p, 0, h);
      calc {
        And(x, Mask(n, 0) - 1);
        == And(x, 2 * m);
        == 2 * And(h, m);
        == 2 * h;
      }
    }
  }

  lemma {:induction false} ClearBitAbove(x: nat, b: nat, n: nat)
    requires Pow2(b) <= x < Pow2(n) && 0 < b < n && Bit(x, b) == 1
    ensures And(x, Mask(n, 0) - Pow2(b)) == x - Pow2(b)
    decreases b, 0
  {
    var h := x / 2;
    var q := Pow2(b - 1);
    var m: nat := ClearBitShape(x, b, n, h, q);
    AndOdd(x, m);
    ClearBit(h, b - 1, n - 1);
    ClearBitSum(And(x, 2 * m + 1), And(h, m), h, q, x % 2, x);
  }

  /** The halves ClearBitAbove works on; m is `~BIT(b - 1)` in n - 1 bits. */
  lemma ClearBitShape(x: nat, b: nat, n: nat, h: nat, q: nat) returns (m: nat)
    requires Pow2(b) <= x < Pow2(n) && 0 < b < n && Bit(x, b) == 1 && h == x / 2 && q == Pow2(b - 1)
    ensures Pow2(b) == 2 * q && q < Pow2(n - 1) && m == Mask(n - 1, 0) - q
    ensures Mask(n, 0) - Pow2(b) == 2 * m + 1
    ensures h < Pow2(n - 1) && Bit(h, b - 1) == 1 && x == 2 * h + x % 2
  {
    Pow2Mono(b, n - 1);
    m := Mask(n - 1, 0) - q;
  }

  lemma ClearBitSum(a: int, am: int, h: int, q: int, r: int, x: int)
    requires a == 2 * am + r && am == h - q && x == 2 * h + r
    ensures a == x - 2 * q
  {
  }

  /** Bit k of 2^b. */
  lemma PowBit(b: nat, k: nat)
    ensures Bit(Pow2(b), k) == if k == b then 1 else 0
  {
    assert Mask(b + 1, b) == Pow2(b) by {
      assert Pow2(b + 1) == 2 * Pow2(b);
    }
    BitRange(b + 1, b, k);
  }

  /** __ffs: the index of the lowest set bit. */
  function Ffs(x: nat): (k: nat)
    requires x > 0
    ensures Bit(x, k) == 1
    ensures forall j :: 0 <= j < k ==> Bit(x, j) == 0
    decreases x
  {
    if x % 2 == 1 then 0 else Ffs(x / 2) + 1
  }

  function Shift1(s: seq<nat>): (r: seq<nat>)
    ensures |r| == |s| && forall i :: 0 <= i < |s| ==> r[i] == s[i] + 1
  {
    seq(|s|, i requires 0 <= i < |s| => s[i] + 1)
  }

  /** The positions of the set bits, lowest first. */
  function BitList(x: nat): seq<nat>
    decreases x
  {
    if x == 0 then [] else (if x % 2 == 1 then [0] else []) + Shift1(BitList(x / 2))
  }

  /** BitList lists exactly the set bits, each once, in increasing order. */
  lemma {:induction false} BitListMeaning(x: nat)
    ensures forall k :: k in BitList(x) <==> Bit(x, k) == 1
    ensures forall i, j :: 0 <= i < j < |BitList(x)| ==> BitList(x)[i] < BitList(x)[j]
    decreases x
  {
    if x == 0 {
      forall k: nat
        ensures Bit(x, k) == 0
      {
        BitZero(k);
      }
    } else {
      BitListMeaning(x / 2);
      var tail := Shift1(BitList(x / 2));
      forall k: nat
        ensures k in BitList(x) <==> Bit(x, k) == 1
      {
        if k > 0 {
          assert k in tail <==> k - 1 in BitList(x / 2);
        } else {
          assert 0 !in tail;
        }
      }
    }
  }

  /** Clearing the lowest set bit drops the head of BitList. */
  lemma {:induction false} BitListClear(x: nat)
    requires x > 0
    ensures x >= Pow2(Ffs(x))
    ensures BitList(x) == [Ffs(x)] + BitList(x - Pow2(Ffs(x)))
    decreases x, 1
  {
    BitSetBound(x, Ffs(x));
    if x % 2 == 1 {
      BitListClearOdd(x);
    } else {
      BitListClearEven(x);
    }
  }

  lemma BitListClearOdd(x: nat)
    requires x % 2 == 1
    ensures Ffs(x) == 0 && Pow2(Ffs(x)) == 1
    ensures BitList(x) == [0] + BitList(x - 1)
  {
    var h := x / 2;
    assert x - 1 == 2 * h;
    BitListDouble(h);
    assert BitList(x) == [0] + Shift1(BitList(h));
  }

  lemma {:induction false} BitListClearEven(x: nat)
    requires x > 0 && x % 2 == 0
    ensures x >= Pow2(Ffs(x))
    ensures BitList(x) == [Ffs(x)] + BitList(x - Pow2(Ffs(x)))
    decreases x, 0
  {
    var h := x / 2;
    BitListClear(h);
    var f := Ffs(h);
    assert Ffs(x) == f + 1;
    assert Pow2(f + 1) == 2 * Pow2(f);
    var m := h - Pow2(f);
    assert x == 2 * h && x - Pow2(Ffs(x)) == 2 * m;
    BitListDouble(h);
    BitListDouble(m);
    Shift1Cons(f, BitList(m));
    assert BitList(x) == Shift1([f] + BitList(m));
  }

  lemma BitListDouble(m: nat)
    ensures BitList(2 * m) == Shift1(BitList(m))
  {
    if m > 0 {
      assert (2 * m) % 2 == 0 && (2 * m) / 2 == m;
    } else {
      assert Shift1([]) == [];
    }
  }

  lemma Shift1Cons(f: nat, rest: seq<nat>)
    ensures Shift1([f] + rest) == [f + 1] + Shift1(rest)
  {
    assert |Shift1([f] + rest)| == |[f + 1] + Shift1(rest)|;
  }

}
