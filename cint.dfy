/**
 * Integer arithmetic as the C drivers perform it.
 *
 * Dafny's `/` and `%` are Euclidean. C's `/` truncates toward zero, `>>` on a
 * negative signed value is an arithmetic (flooring) shift on the ARM targets
 * these drivers are built for, and unsigned types wrap modulo 2^32 or 2^64.
 * Every place where the drivers rely on one of these is written with the
 * helpers below, so the difference is explicit.
 */
module CInt {
  const U32_MOD: int := 0x1_0000_0000
  const U64_MOD: int := 0x1_0000_0000_0000_0000

  /** An unsigned 8-bit register value. */
  type Byte = x: int | 0 <= x < 256

  /** A value of a C `unsigned int` (32 bits). */
  type Uint32 = x: int | 0 <= x < 0x1_0000_0000

  /** A value of a C `unsigned long long` or, on the 64-bit targets, `size_t` and `unsigned long`. */
  type Uint64 = x: int | 0 <= x < 0x1_0000_0000_0000_0000

  function Abs(x: int): nat
  {
    if x < 0 then -x else x
  }

  function Min(a: int, b: int): int
  {
    if a < b then a else b
  }

  /** C signed division `a / b`: the quotient is truncated toward zero. */
  function CDiv(a: int, b: int): int
    requires b != 0
  {
    var m := Abs(a) / Abs(b);
    if (a < 0) == (b < 0) then m else -m
  }

  /** On non-negative operands C's division and Dafny's agree. */
  lemma CDivNonNegative(a: int, b: int)
    requires a >= 0 && b > 0
    ensures CDiv(a, b) == a / b
  {
  }

  /** C's `x >> k` on a signed value: an arithmetic shift, i.e. floor division by 2^k. */
  function Asr(x: int, k: nat): int
  {
    x / Pow2(k)
  }

  function Pow2(k: nat): (r: nat)
    ensures r >= 1
  {
    if k == 0 then 1 else 2 * Pow2(k - 1)
  }

  /** Values of Pow2 the drivers' shifts use. */
  lemma Pow2Values()
    ensures Pow2(3) == 8 && Pow2(8) == 256 && Pow2(12) == 4096 && Pow2(13) == 8192 && Pow2(14) == 16384
  {
    assert Pow2(1) == 2;
    assert Pow2(2) == 4;
    assert Pow2(3) == 8;
    assert Pow2(4) == 16;
    assert Pow2(5) == 32;
    assert Pow2(6) == 64;
    assert Pow2(7) == 128;
    assert Pow2(8) == 256;
    assert Pow2(9) == 512;
    assert Pow2(10) == 1024;
    assert Pow2(11) == 2048;
    assert Pow2(12) == 4096;
    assert Pow2(13) == 8192;
  }

  /** The value a C `unsigned int` holds after an assignment of `x`. */
  function U32(x: int): nat
  {
    x % U32_MOD
  }

  /** The value a C `int` holds after an assignment of `x` (two's complement, 32 bits). */
  function I32(x: int): (r: int)
    ensures -0x8000_0000 <= r < 0x8000_0000
    ensures (r - x) % U32_MOD == 0
  {
    var u := U32(x);
    if u >= 0x8000_0000 then u - U32_MOD else u
  }

  /** Storing a value in an `unsigned int` and reading it back as an `int` is the `int` conversion of the value. */
  lemma I32OfU32(x: int)
    ensures I32(U32(x)) == I32(x)
  {
    DivModUnique(U32(x), U32_MOD, 0, U32(x));
  }

  /** The value a C `unsigned long long` holds after an assignment of `x`. */
  function U64(x: int): nat
  {
    x % U64_MOD
  }

  /**
   * `x & (n - 1)` on a two's-complement value, for n a power of two: the
   * residue of x modulo n, which is never negative.
   */
  function Mask(x: int, n: nat): nat
    requires n > 0
  {
    x % n
  }

  lemma MulAtLeast(n: int, d: int)
    requires n > 0 && d >= 1
    ensures n * d >= n
  {
    if d > 1 {
      MulAtLeast(n, d - 1);
      assert n * d == n * (d - 1) + n;
    }
  }

  lemma MulAtMost(n: int, d: int)
    requires n > 0 && d <= -1
    ensures n * d <= -n
  {
    MulAtLeast(n, -d);
    assert n * d == -(n * (-d));
  }

  /** Euclidean division is determined by the quotient-remainder equation. */
  lemma DivModUnique(x: int, n: int, q: int, r: int)
    requires n > 0 && x == n * q + r && 0 <= r < n
    ensures x % n == r && x / n == q
  {
    var q', r' := x / n, x % n;
    assert x == n * q' + r';
    var d := q - q';
    assert n * d == r' - r by { assert n * q - n * q' == n * d; }
    if d >= 1 { MulAtLeast(n, d); } else if d <= -1 { MulAtMost(n, d); }
  }

  /** Adding a multiple of n does not change a residue modulo n. */
  lemma ModAddMultiple(x: int, n: int, m: int)
    requires n > 0
    ensures (x + n * m) % n == x % n
  {
    var q, r := x / n, x % n;
    assert x + n * m == n * (q + m) + r;
    DivModUnique(x + n * m, n, q + m, r);
  }

  /**
   * A slot index computed from a 32-bit counter is the same whether or not
   * the counter wrapped: for a ring capacity n that divides 2^32 (every
   * power of two up to 2^32), masking the wrapped counter gives the slot the
   * unbounded counter gives. This is why the model may keep ring counters as
   * unbounded integers.
   */
  lemma MaskIgnoresWrap(x: int, n: nat)
    requires n > 0 && U32_MOD % n == 0
    ensures Mask(U32(x), n) == Mask(x, n)
  {
    var w := x / U32_MOD;
    var c := U32_MOD / n;
    assert U32_MOD == n * c;
    assert U32(x) == x - U32_MOD * w;
    assert U32(x) == x + n * (-(c * w));
    ModAddMultiple(x, n, -(c * w));
  }
}
