/**
 * The fragments of C# integer semantics the audit tool relies on: 32-bit `int`,
 * 64-bit `long` wrap-around in an unchecked context, division and remainder that
 * truncate toward zero, and the bitwise `&` of two's-complement values.
 */
module CSharp {

  const TwoTo31: int := 0x8000_0000
  const TwoTo32: int := 0x1_0000_0000
  const TwoTo63: int := 0x8000_0000_0000_0000
  const TwoTo64: int := 0x1_0000_0000_0000_0000

  /** The values of a C# `int`. */
  type Int32 = x: int | -0x8000_0000 <= x < 0x8000_0000

  /** The values of a C# `long`. */
  predicate InInt64(x: int) {
    -TwoTo63 <= x < TwoTo63
  }

  /** C# `a / d` for a positive divisor: the quotient is rounded toward zero. */
  function Div(a: int, d: int): (q: int)
    requires d > 0
    ensures a >= 0 ==> 0 <= a - q * d < d
    ensures a < 0 ==> 0 <= q * d - a < d
  {
    if a >= 0 then a / d else -((-a) / d)
  }

  /** C# `a % d` for a positive divisor: the remainder takes the sign of `a`. */
  function Rem(a: int, d: int): (r: int)
    requires d > 0
    ensures a >= 0 ==> 0 <= r < d
    ensures a < 0 ==> -d < r <= 0
    ensures r == a - Div(a, d) * d
  {
    if a >= 0 then a % d else -((-a) % d)
  }

  /** The result of a `long` computation in an unchecked context: `x` reduced into the `long` range modulo 2^64. */
  function WrapInt64(x: int): (r: int)
    ensures InInt64(r)
    ensures (r - x) % TwoTo64 == 0
    ensures InInt64(x) ==> r == x
  {
    (x + TwoTo63) % TwoTo64 - TwoTo63
  }

  /** The 32-bit two's-complement pattern of `x`, read as an unsigned number. */
  function Bits32(x: int): (u: nat)
    ensures u < TwoTo32
    ensures 0 <= x < TwoTo32 ==> u == x
    ensures -TwoTo32 <= x < 0 ==> u == x + TwoTo32
  {
    x % TwoTo32
  }

  /** Bitwise AND of two unsigned numbers, bit by bit from the least significant one. */
  function BitAnd(a: nat, b: nat): (r: nat)
    ensures r <= a && r <= b
  {
    if a == 0 || b == 0 then 0
    else 2 * BitAnd(a / 2, b / 2) + (if a % 2 == 1 && b % 2 == 1 then 1 else 0)
  }

  /** A number ANDed with itself is unchanged. */
  lemma {:induction false} BitAndSelf(a: nat)
    ensures BitAnd(a, a) == a
  {
    if a != 0 {
      BitAndSelf(a / 2);
    }
  }
}
