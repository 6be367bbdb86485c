/*
 * The arithmetic macros of helpers.h.  The ALIGN family works in the type
 * of `x` with a mask computed in unsigned long; on the 32-bit Cortex-M
 * target both are 32 bits wide, so every step here wraps modulo 2^32.
 */
module Helpers {
  import opened CTypes

  /** MAX(a, b). */
  function Max(a: int, b: int): (r: int)
    ensures r == a || r == b
    ensures a <= r && b <= r
  {
    if a > b then a else b
  }

  /** MIN(a, b); never above MAX of the same pair. */
  function Min(a: int, b: int): (r: int)
    ensures r == a || r == b
    ensures r <= a && r <= b
    ensures r <= Max(a, b)
  {
    if a < b then a else b
  }

  const ALL_ONES: u32 := 0xFFFF_FFFF

  /** `(__typeof__(x))(a) - 1UL`: the mask of the bits below an alignment. */
  function AlignMask(a: u32): u32
  {
    Wrap32(a - 1)
  }

  /** `~mask` on a 32-bit value. */
  function Complement(m: u32): u32
  {
    ALL_ONES - m
  }

  /** ALIGN(x, a), which ALIGN_UP names too: `(x + mask) & ~mask`. */
  function AlignUp(x: u32, a: u32): u32
  {
    BitAnd(Wrap32(x + AlignMask(a)), Complement(AlignMask(a)))
  }

  /** ALIGN_DOWN(x, a): `x & ~mask`. */
  function AlignDown(x: u32, a: u32): u32
  {
    BitAnd(x, Complement(AlignMask(a)))
  }

  /** IS_ALIGNED(x, a): `(x & mask) == 0`. */
  predicate IsAligned(x: u32, a: u32)
  {
    BitAnd(x, AlignMask(a)) == 0
  }

  /** Halving, then dividing by p, is dividing by 2p. */
  lemma HalveThenDivide(y: nat, p: nat)
    requires p > 0
    ensures (y / 2) / p == y / (2 * p)
  {
    var q := (y / 2) / p;
    assert y / 2 == p * q + (y / 2) % p;
    assert y == (2 * p) * q + (2 * ((y / 2) % p) + y % 2);
    DivModUnique(y, 2 * p, q, 2 * ((y / 2) % p) + y % 2);
  }

  /** AND with an even mask drops the lowest bit and works on the rest. */
  lemma BitAndEvenMask(y: nat, m: nat)
    requires m % 2 == 0
    ensures BitAnd(y, m) == 2 * BitAnd(y / 2, m / 2)
  {
    if y != 0 && m != 0 {
      assert BitAnd(y, m) == 0 + 2 * BitAnd(y / 2, m / 2);
    }
  }

  /** Clearing the k low bits of a w-bit value (AND with m = 2^w - 2^k) rounds it down to a multiple of 2^k. */
  lemma {:induction false} BitAndHighMask(y: nat, m: nat, k: nat, w: nat)
    requires k <= w && y < Pow2(w) && m + Pow2(k) == Pow2(w)
    ensures BitAnd(y, m) == y / Pow2(k) * Pow2(k)
  {
    if k == 0 {
      BitAndLowMask(y, m, w);
      DivModUnique(y, Pow2(w), 0, y);
    } else {
      var p := Pow2(k - 1);
      assert m == 2 * (Pow2(w - 1) - p);
      BitAndHighMask(y / 2, m / 2, k - 1, w - 1);
      BitAndEvenMask(y, m);
      HalveThenDivide(y, p);
      DoubleProduct(y / Pow2(k), p);
    }
  }

  lemma DoubleProduct(q: int, p: int)
    ensures 2 * (q * p) == q * (2 * p)
  {
  }

  /** For a = 2^k the mask is 2^k - 1 and its complement 2^32 - 2^k. */
  lemma PowerMasks(a: u32, k: nat)
    requires k < 32 && a == Pow2(k)
    ensures AlignMask(a) == Pow2(k) - 1
    ensures Complement(AlignMask(a)) == Pow2(32) - Pow2(k)
  {
    DivModUnique(a - 1, 0x1_0000_0000, 0, a - 1);
    Pow2Values();
  }

  /** ALIGN_DOWN to a power of two: the largest multiple of `a` not above `x`. */
  lemma AlignDownSpec(x: u32, a: u32, k: nat)
    requires k < 32 && a == Pow2(k)
    ensures AlignDown(x, a) == x / a * a
    ensures AlignDown(x, a) % a == 0
    ensures x - a < AlignDown(x, a) <= x
  {
    PowerMasks(a, k);
    BitAndHighMask(x, Complement(AlignMask(a)), k, 32);
    FloorMultiple(x, a);
  }

  /** ALIGN_UP to a power of two, absent overflow: the least multiple of `a` not below `x`. */
  lemma AlignUpSpec(x: u32, a: u32, k: nat)
    requires k < 32 && a == Pow2(k)
    requires x + a - 1 < 0x1_0000_0000
    ensures AlignUp(x, a) % a == 0
    ensures x <= AlignUp(x, a) < x + a
  {
    PowerMasks(a, k);
    var y := x + a - 1;
    DivModUnique(y, 0x1_0000_0000, 0, y);
    assert Wrap32(x + AlignMask(a)) == y;
    BitAndHighMask(y, Complement(AlignMask(a)), k, 32);
    FloorMultiple(y, a);
  }

  /** Past the top of the type ALIGN_UP wraps: the next multiple of 2 after 2^32 - 1 comes out as 0. */
  lemma AlignUpWraps()
    ensures AlignUp(ALL_ONES, 2) == 0
  {
    assert AlignMask(2) == 1;
    assert Wrap32(ALL_ONES + 1) == 0;
  }

  /** IS_ALIGNED holds exactly when ALIGN_DOWN leaves the value alone, that is, for multiples of `a`. */
  lemma IsAlignedSpec(x: u32, a: u32, k: nat)
    requires k < 32 && a == Pow2(k)
    ensures IsAligned(x, a) <==> AlignDown(x, a) == x
    ensures IsAligned(x, a) <==> x % a == 0
  {
    PowerMasks(a, k);
    BitAndLowMask(x, AlignMask(a), k);
    AlignDownSpec(x, a, k);
    WholeMultiple(x, a);
  }

  /** `x / d * d` is `x` itself exactly when `d` divides `x`. */
  lemma WholeMultiple(x: nat, d: nat)
    requires d > 0
    ensures x / d * d == x <==> x % d == 0
  {
    var q := x / d;
    assert x == d * q + x % d;
    assert q * d == d * q;
  }

  /** DIV_ROUND_UP(x, y) on 32-bit operands: `(x + y - 1) / y`, the sum wrapping. */
  function DivRoundUp(x: u32, y: u32): u32
    requires y > 0
  {
    Wrap32(x + y - 1) / y
  }

  /** Absent overflow, DIV_ROUND_UP is the ceiling of x / y. */
  lemma DivRoundUpCeiling(x: u32, y: u32)
    requires y > 0 && x + y - 1 < 0x1_0000_0000
    ensures (DivRoundUp(x, y) - 1) * y < x <= DivRoundUp(x, y) * y
  {
    var r := DivRoundUp(x, y);
    var s := x + y - 1;
    assert s == y * r + s % y;
    assert (r - 1) * y == y * r - y;
  }

  /** isupper: ASCII capitals and the range 0xC0..0xDD; 1 for true, 0 for false. */
  function IsUpper(ch: i32): (r: i32)
    ensures r == 0 || r == 1
    ensures r == 1 ==> 'A' as int <= ch <= 0xDD
    ensures ch < 0x80 ==> (r == 1 <==> 'A' as int <= ch <= 'Z' as int)
    ensures ch >= 0x80 ==> (r == 1 <==> 0xC0 <= ch <= 0xDD)
  {
    if (ch >= 'A' as int && ch <= 'Z' as int) || (ch >= 0xC0 && ch <= 0xDD) then 1 else 0
  }
}
