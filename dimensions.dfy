/**
 * The dimension checks the audit applies to a texture's width and height:
 * the bit-trick power-of-two test, the multiple-of-four test, and the
 * uncompressed GPU footprint estimate.
 */
module Dimensions {
  import opened CSharp

  /** Bytes per pixel assumed by the GPU estimate. */
  const BytesPerPixel: int := 4

  function Pow2(k: nat): (r: nat)
    ensures r >= 1
  {
    if k == 0 then 1 else 2 * Pow2(k - 1)
  }

  /** `n` is a power of two, stated by repeated halving. */
  predicate IsPow2(n: nat) {
    n == 1 || (n >= 2 && n % 2 == 0 && IsPow2(n / 2))
  }

  function Log2(n: nat): (k: nat)
    requires n >= 1
    ensures Pow2(k) <= n < 2 * Pow2(k)
  {
    if n == 1 then 0 else Log2(n / 2) + 1
  }

  lemma {:induction false} Pow2IsPow2(k: nat)
    ensures IsPow2(Pow2(k))
  {
    if k > 0 {
      Pow2IsPow2(k - 1);
    }
  }

  lemma {:induction false} IsPow2IsPow2Log(n: nat)
    requires IsPow2(n)
    ensures Pow2(Log2(n)) == n
  {
    if n != 1 {
      IsPow2IsPow2Log(n / 2);
    }
  }

  /** Two powers of two that differ are at least a factor of two apart. */
  lemma {:induction false} NoPow2Between(m: nat, u: nat)
    requires IsPow2(m) && IsPow2(u)
    ensures !(m < u < 2 * m)
  {
    if m != 1 && m < u < 2 * m {
      NoPow2Between(m / 2, u / 2);
    }
  }

  lemma Pow2Of31()
    ensures Pow2(31) == TwoTo31
  {
    assert Pow2(8) == 0x100;
    assert Pow2(16) == 0x1_0000;
    assert Pow2(24) == 0x100_0000;
  }

  /** The bit trick on a positive number: `n & (n - 1)` clears the lowest set bit, so it is zero exactly for powers of two. */
  lemma {:induction false} LowestBitCleared(n: nat)
    requires n >= 1
    ensures BitAnd(n, n - 1) == 0 <==> IsPow2(n)
  {
    if n % 2 == 0 {
      var m := n / 2;
      assert BitAnd(n, n - 1) == 2 * BitAnd(m, m - 1);
      LowestBitCleared(m);
    } else if n > 1 {
      var m := n / 2;
      assert BitAnd(n, n - 1) == 2 * BitAnd(m, m);
      BitAndSelf(m);
    }
  }

  /** C# `(x & (x - 1)) == 0` on a 32-bit `int`; `x - 1` wraps for `int.MinValue`. */
  function IsPowerOfTwo(x: Int32): bool {
    BitAnd(Bits32(x), Bits32(x - 1)) == 0
  }

  /**
   * What the bit test accepts: the positive powers of two, and also 0 and
   * `int.MinValue`, whose bit patterns share no set bit with their predecessors.
   */
  lemma PowerOfTwoMeaning(x: Int32)
    ensures IsPowerOfTwo(x) <==> x == 0 || x == -TwoTo31 || (x > 0 && exists k: nat :: Pow2(k) == x)
  {
    if x > 0 {
      LowestBitCleared(x);
      if IsPowerOfTwo(x) {
        IsPow2IsPow2Log(x);
      }
      if exists k: nat :: Pow2(k) == x {
        var k: nat :| Pow2(k) == x;
        Pow2IsPow2(k);
      }
    } else if x < 0 {
      var u := x + TwoTo32;
      assert Bits32(x) == u && Bits32(x - 1) == u - 1;
      LowestBitCleared(u);
      Pow2Of31();
      Pow2IsPow2(31);
      if x != -TwoTo31 && IsPowerOfTwo(x) {
        NoPow2Between(TwoTo31, u);
      }
      if x == -TwoTo31 {
        assert IsPow2(u);
      }
    }
  }

  /** A power-of-two side of at least 4 is also a multiple of 4. */
  lemma PowerOfTwoIsMultipleOfFour(x: Int32)
    requires x >= 4 && IsPowerOfTwo(x)
    ensures x % 4 == 0
  {
    LowestBitCleared(x);
    assert IsPow2(x / 2);
  }

  /**
   * The `powerOfTwo` column: both sides pass the bit test, that is, each is a
   * positive power of two, 0 or `int.MinValue`.
   */
  function PowerOfTwoSides(width: Int32, height: Int32): (r: bool)
    ensures r <==>
      && (width == 0 || width == -TwoTo31 || (width > 0 && exists k: nat :: Pow2(k) == width))
      && (height == 0 || height == -TwoTo31 || (height > 0 && exists k: nat :: Pow2(k) == height))
  {
    PowerOfTwoMeaning(width);
    PowerOfTwoMeaning(height);
    IsPowerOfTwo(width) && IsPowerOfTwo(height)
  }

  /** C# `width % 4 == 0 && height % 4 == 0`: both sides are divisible by 4, whatever their sign. */
  function MultipleOfFour(width: Int32, height: Int32): (r: bool)
    ensures r <==> width % 4 == 0 && height % 4 == 0
  {
    Rem(width, 4) == 0 && Rem(height, 4) == 0
  }

  /**
   * C# `(long)width * height * 4`: the uncompressed footprint in bytes before the
   * mipmap factor. The product of two `int`s always fits a `long` (see
   * `Int32ProductFits`), so only the final multiplication by 4 can wrap, and
   * whenever the exact footprint fits a `long` it is the result.
   */
  function UncompressedBytes(width: Int32, height: Int32): (r: int)
    ensures InInt64(r)
    ensures InInt64(width * height * BytesPerPixel) ==> r == width * height * BytesPerPixel
    ensures (r - width * height * BytesPerPixel) % TwoTo64 == 0
  {
    Int32ProductFits(width, height);
    var pixels := width * height;
    WrapInt64(pixels * BytesPerPixel)
  }

  /** The product of two `int`s never leaves the `long` range, so the first `long` multiplication never wraps. */
  lemma Int32ProductFits(a: Int32, b: Int32)
    ensures InInt64(a * b)
  {
    var x: nat := if a < 0 then 0 - a as int else a as int;
    var y: nat := if b < 0 then 0 - b as int else b as int;
    MulMonotone(x, y, TwoTo31, TwoTo31);
    assert TwoTo31 * TwoTo31 == 0x4000_0000_0000_0000;
    assert a * b == x * y || a * b == -(x * y);
  }

  lemma MulMonotone(x: nat, y: nat, xMax: nat, yMax: nat)
    requires x <= xMax && y <= yMax
    ensures x * y <= xMax * yMax
  {
    assert x * y <= xMax * y;
    assert xMax * y <= xMax * yMax;
  }
}
