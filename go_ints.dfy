/**
 * Fixed-width Go integers over Dafny's unbounded `int`, with the
 * truncations the source relies on written out.
 */
module GoInts {

  const TWO_32: nat := 0x1_0000_0000
  const TWO_63: nat := 0x8000_0000_0000_0000
  const TWO_64: nat := 0x1_0000_0000_0000_0000

  type uint8 = x: int | 0 <= x < 0x100
  type uint32 = x: int | 0 <= x < 0x1_0000_0000
  type uint64 = x: int | 0 <= x < 0x1_0000_0000_0000_0000

  /** 2 to the power n. */
  function Pow2(n: nat): (r: nat)
    ensures r >= 1
  {
    if n == 0 then 1 else 2 * Pow2(n - 1)
  }

  /** `x << n` before any truncation, written without multiplication. */
  function Shl(x: nat, n: nat): (r: nat)
  {
    if n == 0 then x else 2 * Shl(x, n - 1)
  }

  lemma {:induction false} ShlIsMul(x: nat, n: nat)
    ensures Shl(x, n) == x * Pow2(n)
  {
    if n > 0 {
      ShlIsMul(x, n - 1);
      assert x * Pow2(n) == x * (2 * Pow2(n - 1)) == 2 * (x * Pow2(n - 1));
    }
  }

  lemma {:induction false} Pow2Add(a: nat, b: nat)
    ensures Pow2(a + b) == Pow2(a) * Pow2(b)
  {
    if b > 0 {
      Pow2Add(a, b - 1);
      assert Pow2(a + b) == 2 * Pow2(a + b - 1);
    }
  }

  lemma {:induction false} Pow2Monotone(a: nat, b: nat)
    requires a <= b
    ensures Pow2(a) <= Pow2(b)
  {
    if a < b {
      Pow2Monotone(a, b - 1);
    }
  }

  lemma Pow2Seven()
    ensures Pow2(7) == 128
  {
    assert Pow2(1) == 2;
    assert Pow2(3) == 8;
    assert Pow2(5) == 32;
  }

  lemma Pow2Constants()
    ensures Pow2(7) == 128 && Pow2(63) == TWO_63 && Pow2(64) == TWO_64
  {
    Pow2Seven();
    Pow2Add(7, 7);
    assert Pow2(14) == 0x4000;
    Pow2Add(14, 14);
    assert Pow2(28) == 0x1000_0000;
    Pow2Add(28, 28);
    assert Pow2(56) == 0x100_0000_0000_0000;
    Pow2Add(56, 7);
    assert Pow2(63) == 0x8000_0000_0000_0000;
    Pow2Add(63, 1);
    assert Pow2(1) == 2;
  }

  lemma MulLe(d: nat, e: nat, p: nat)
    requires d <= e
    ensures d * p <= e * p
  {
  }

  lemma ModSmall(x: nat, m: nat)
    requires x < m
    ensures x % m == x
  {
  }

  lemma ModLe(x: nat, m: nat)
    requires m > 0
    ensures x % m <= x
  {
  }

  /**
   * Go's reading of a 64-bit pattern as `int` (two's complement): a
   * `uint64` converted to `int`, or the sum of two non-negative `int`s
   * that wraps past the largest `int`.
   */
  function Int64(x: int): (r: int)
    requires 0 <= x < TWO_64
    ensures -(TWO_63 as int) <= r < TWO_63
    ensures r == x || r == x - TWO_64
  {
    if x < TWO_63 then x else x - TWO_64
  }

  /** Go's conversion of a 64-bit pattern to `int32` (keeps the low 32 bits, signed). */
  function Int32(x: int): (r: int)
    ensures -0x8000_0000 <= r < 0x8000_0000
    ensures 0 <= x < 0x8000_0000 ==> r == x
  {
    var m := x % TWO_32;
    if m < 0x8000_0000 then m else m - TWO_32
  }

  /** Go's `uint32(x)` for an unsigned x: keeps the low 32 bits. */
  function Uint32(x: nat): (r: uint32)
    ensures x < TWO_32 ==> r == x
  {
    x % TWO_32
  }
}
