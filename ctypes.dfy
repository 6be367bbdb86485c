/*
 * Fixed-width C integer types and the bitwise operators the driver uses on
 * them.  Bitwise operators are defined arithmetically on unbounded naturals,
 * least significant bit first, with lemmas bounding them to a width; signed
 * 32-bit values go through their two's complement encoding.
 */
module CTypes {

  type byte = x: int | 0 <= x < 0x100
  type u16 = x: int | 0 <= x < 0x1_0000
  type u32 = x: int | 0 <= x < 0x1_0000_0000
  type i32 = x: int | -0x8000_0000 <= x < 0x8000_0000

  function Pow2(n: nat): (r: nat)
    ensures r >= 1
  {
    if n == 0 then 1 else 2 * Pow2(n - 1)
  }

  lemma Pow2Values()
    ensures Pow2(4) == 16 && Pow2(8) == 0x100 && Pow2(16) == 0x1_0000
    ensures Pow2(24) == 0x100_0000 && Pow2(31) == 0x8000_0000 && Pow2(32) == 0x1_0000_0000
  {
    assert Pow2(8) == 0x100;
    assert Pow2(16) == 0x1_0000;
    assert Pow2(24) == 0x100_0000;
  }

  lemma {:induction false} Pow2Add(a: nat, b: nat)
    ensures Pow2(a + b) == Pow2(a) * Pow2(b)
  {
    if a > 0 {
      Pow2Add(a - 1, b);
    }
  }

  lemma {:induction false} Pow2Monotonic(a: nat, b: nat)
    requires a <= b
    ensures Pow2(a) <= Pow2(b)
  {
    if a < b {
      Pow2Monotonic(a, b - 1);
    }
  }

  /** Bitwise OR of two unsigned values, least significant bit first. */
  function BitOr(a: nat, b: nat): (r: nat)
    ensures a <= r && b <= r
    decreases a + b
  {
    if a == 0 && b == 0 then 0
    else (if a % 2 == 1 || b % 2 == 1 then 1 else 0) + 2 * BitOr(a / 2, b / 2)
  }

  /** Bitwise AND of two unsigned values, least significant bit first. */
  function BitAnd(a: nat, b: nat): (r: nat)
    ensures r <= a && r <= b
    decreases a + b
  {
    if a == 0 || b == 0 then 0
    else (if a % 2 == 1 && b % 2 == 1 then 1 else 0) + 2 * BitAnd(a / 2, b / 2)
  }

  /** OR-ing two k-bit values gives a k-bit value. */
  lemma {:induction false} BitOrBound(a: nat, b: nat, k: nat)
    requires a < Pow2(k) && b < Pow2(k)
    ensures BitOr(a, b) < Pow2(k)
  {
    if k > 0 && (a != 0 || b != 0) {
      BitOrBound(a / 2, b / 2, k - 1);
    }
  }

  /** Bit k of `a | b` is set exactly when it is set in `a` or in `b`. */
  lemma {:induction false} BitOrTop(a: nat, b: nat, k: nat)
    requires a < Pow2(k + 1) && b < Pow2(k + 1)
    ensures BitOr(a, b) >= Pow2(k) <==> a >= Pow2(k) || b >= Pow2(k)
  {
    if k == 0 {
    } else if a != 0 || b != 0 {
      BitOrTop(a / 2, b / 2, k - 1);
    }
  }

  /** `a | b` on uint8_t. */
  function Or8(a: byte, b: byte): (r: byte)
    ensures a <= r && b <= r
  {
    Pow2Values();
    BitOrBound(a, b, 8);
    BitOr(a, b)
  }

  /** `a & b` on uint8_t. */
  function And8(a: byte, b: byte): (r: byte)
    ensures r <= a && r <= b
  {
    Pow2Values();
    BitAnd(a, b)
  }

  /** `~a` converted back to uint8_t. */
  function Not8(a: byte): byte
  {
    0xFF - a
  }

  /** Conversion of any integer to uint8_t: the low byte of its two's complement. */
  function LowByte(x: int): byte
  {
    x % 0x100
  }

  /** Conversion of any integer to uint32_t. */
  function Wrap32(x: int): u32
  {
    x % 0x1_0000_0000
  }

  /** The two's complement encoding of a signed 32-bit value. */
  function Unsigned(x: i32): (u: u32)
    ensures u >= 0x8000_0000 <==> x < 0
    ensures u % 0x100 == x % 0x100
  {
    if x < 0 then x + 0x1_0000_0000 else x
  }

  function Signed(u: u32): (x: i32)
    ensures Unsigned(x) == u
  {
    if u < 0x8000_0000 then u else u - 0x1_0000_0000
  }

  /**
   * `a | b` on int: the driver accumulates the status codes of a register
   * sequence this way.  The result is negative exactly when one operand is.
   */
  function Or32(a: i32, b: i32): (r: i32)
    ensures r < 0 <==> a < 0 || b < 0
  {
    Pow2Values();
    BitOrBound(Unsigned(a), Unsigned(b), 32);
    BitOrTop(Unsigned(a), Unsigned(b), 31);
    Signed(BitOr(Unsigned(a), Unsigned(b)))
  }

  /** The status of a sequence of steps accumulated with `ret |= step`. */
  function OrAll(steps: seq<i32>): i32
  {
    if steps == [] then 0 else Or32(OrAll(steps[..|steps| - 1]), steps[|steps| - 1])
  }

  /** The accumulated status reports failure exactly when some step failed. */
  lemma {:induction false} OrAllNegative(steps: seq<i32>)
    ensures OrAll(steps) < 0 <==> exists i :: 0 <= i < |steps| && steps[i] < 0
  {
    if steps != [] {
      var n := |steps| - 1;
      var init := steps[..n];
      OrAllNegative(init);
      assert OrAll(steps) == Or32(OrAll(init), steps[n]);
      if OrAll(steps) < 0 {
        if steps[n] >= 0 {
          assert OrAll(init) < 0;
          var i :| 0 <= i < |init| && init[i] < 0;
          assert steps[i] == init[i];
        }
      } else {
        assert OrAll(init) >= 0 && steps[n] >= 0;
        forall i | 0 <= i < |steps| ensures steps[i] >= 0 {
          if i < n {
            assert init[i] == steps[i];
          }
        }
      }
    }
  }

  lemma {:induction false} BitOrZero(b: nat)
    ensures BitOr(0, b) == b && BitOr(b, 0) == b
  {
    if b != 0 {
      BitOrZero(b / 2);
    }
  }

  lemma {:induction false} BitOrAllOnes(a: nat, k: nat)
    requires a < Pow2(k)
    ensures BitOr(a, Pow2(k) - 1) == Pow2(k) - 1
    ensures BitOr(Pow2(k) - 1, a) == Pow2(k) - 1
  {
    if k > 0 {
      var m := Pow2(k - 1);
      assert Pow2(k) - 1 == 1 + 2 * (m - 1);
      assert (Pow2(k) - 1) / 2 == m - 1 && (Pow2(k) - 1) % 2 == 1;
      BitOrAllOnes(a / 2, k - 1);
    }
  }

  /** OR-ing a success code (0) into the accumulated status changes nothing. */
  lemma Or32Zero(x: i32)
    ensures Or32(0, x) == x && Or32(x, 0) == x
  {
    BitOrZero(Unsigned(x));
  }

  /** OR-ing -1 into the accumulated status gives -1, whatever it held. */
  lemma Or32MinusOne(x: i32)
    ensures Or32(x, -1) == -1 && Or32(-1, x) == -1
  {
    Pow2Values();
    BitOrAllOnes(Unsigned(x), 32);
  }

  /**
   * OR-ing two codes that are 0 or negative gives 0 or a negative code, and
   * 0 exactly when both were 0.
   */
  lemma Or32NonPositive(a: i32, b: i32)
    requires a <= 0 && b <= 0
    ensures Or32(a, b) <= 0
    ensures Or32(a, b) == 0 <==> a == 0 && b == 0
  {
    Or32Zero(0);
  }


  lemma {:induction false} MulAtLeast(d: int, k: int)
    requires d > 0 && k >= 1
    ensures d * k >= d
  {
    assert d * k == d + d * (k - 1);
    if k > 1 {
      MulAtLeast(d, k - 1);
    }
  }

  lemma {:induction false} MulMonotone(p: nat, a: nat, b: nat)
    requires a <= b
    ensures p * a <= p * b
  {
    if a < b {
      MulMonotone(p, a, b - 1);
      assert p * b == p * (b - 1) + p;
    }
  }

  /** Quotient and remainder are the unique pair with x == d*q + r and 0 <= r < d. */
  lemma DivModUnique(x: int, d: int, q: int, r: int)
    requires d > 0 && x == d * q + r && 0 <= r < d
    ensures x / d == q && x % d == r
  {
    var q0 := x / d;
    var r0 := x % d;
    assert d * q0 + r0 == d * q + r;
    if q0 > q {
      assert d * (q0 - q) == d * q0 - d * q;
      MulAtLeast(d, q0 - q);
    } else if q0 < q {
      assert d * (q - q0) == d * q - d * q0;
      MulAtLeast(d, q - q0);
    }
  }

  /** `x / d * d` lies within `d` below `x` and is a multiple of `d`. */
  lemma FloorMultiple(x: nat, d: nat)
    requires d > 0
    ensures x / d * d <= x < x / d * d + d
    ensures (x / d * d) % d == 0
  {
    var q := x / d;
    assert x == d * q + x % d;
    DivModUnique(q * d, d, q, 0);
  }

  /** x mod q, for q = 2p, splits into its lowest bit and (x / 2) mod p. */
  lemma ModDouble(x: nat, p: nat, q: nat)
    requires p > 0 && q == 2 * p
    ensures x % q == x % 2 + 2 * ((x / 2) % p)
  {
    var h := x / 2;
    assert x == 2 * h + x % 2;
    assert h == p * (h / p) + h % p;
    assert x == q * (h / p) + (x % 2 + 2 * (h % p));
    DivModUnique(x, q, h / p, x % 2 + 2 * (h % p));
  }

  /** AND with an odd mask keeps the lowest bit and works on the rest. */
  lemma BitAndOddMask(x: nat, c: nat)
    requires c % 2 == 1
    ensures BitAnd(x, c) == x % 2 + 2 * BitAnd(x / 2, c / 2)
  {
    if x == 0 {
      assert BitAnd(x / 2, c / 2) == 0;
    }
  }

  /** `x & c` with c = 2^k - 1 keeps the k low bits: it is x mod 2^k. */
  lemma {:induction false} BitAndLowMask(x: nat, c: nat, k: nat)
    requires c + 1 == Pow2(k)
    ensures BitAnd(x, c) == x % Pow2(k)
  {
    if k > 0 {
      var m := Pow2(k - 1);
      assert c == 2 * m - 1;
      assert c / 2 + 1 == m && c % 2 == 1;
      BitAndOddMask(x, c);
      BitAndLowMask(x / 2, c / 2, k - 1);
      ModDouble(x, m, Pow2(k));
    }
  }

  /** `a | b` is `a + b` when a fits below bit k and b has no bit below k. */
  lemma {:induction false} BitOrDisjoint(a: nat, b: nat, k: nat)
    requires a < Pow2(k) && b % Pow2(k) == 0
    ensures BitOr(a, b) == a + b
  {
    if k == 0 {
      BitOrZero(b);
    } else if a != 0 || b != 0 {
      var m := Pow2(k - 1);
      ModDouble(b, m, Pow2(k));
      BitOrDisjoint(a / 2, b / 2, k - 1);
    } else {
      BitOrZero(b);
    }
  }

  /** The low nibble of a byte: `x & 0x0F`. */
  lemma And8LowNibble(x: byte)
    ensures And8(x, 0x0F) == x % 0x10
  {
    Pow2Values();
    BitAndLowMask(x, 0x0F, 4);
  }

  /** Placing a nibble n above the low nibble of x: `(x & 0x0F) | (n << 4)`. */
  lemma Or8Nibbles(x: byte, n: nat)
    requires n < 0x10
    ensures And8(x, 0x0F) + n * 0x10 < 0x100
    ensures Or8(And8(x, 0x0F), n * 0x10) == n * 0x10 + x % 0x10
  {
    And8LowNibble(x);
    Pow2Values();
    BitOrDisjoint(x % 0x10, n * 0x10, 4);
  }

  /** One step of the bit recursion of `&`: the lowest bit and the rest. */
  lemma BitAndStep(a: nat, b: nat)
    ensures BitAnd(a, b) % 2 == (if a % 2 == 1 && b % 2 == 1 then 1 else 0)
    ensures BitAnd(a, b) / 2 == BitAnd(a / 2, b / 2)
  {
    if a == 0 || b == 0 {
      assert BitAnd(a / 2, b / 2) == 0;
    } else {
      var bit := if a % 2 == 1 && b % 2 == 1 then 1 else 0;
      var r := BitAnd(a / 2, b / 2);
      assert BitAnd(a, b) == bit + 2 * r;
    }
  }

  /** One step of the bit recursion of `|`. */
  lemma BitOrStep(a: nat, b: nat)
    ensures BitOr(a, b) % 2 == (if a % 2 == 1 || b % 2 == 1 then 1 else 0)
    ensures BitOr(a, b) / 2 == BitOr(a / 2, b / 2)
  {
    if a == 0 && b == 0 {
      assert BitOr(a / 2, b / 2) == 0;
    }
  }

  /** `(x & c) & m == 0` when c and m are complementary k-bit masks (c + m = 2^k - 1): masking with the complement clears every bit of m. */
  lemma {:induction false} BitAndNotClears(x: nat, m: nat, c: nat, k: nat)
    requires c + m == Pow2(k) - 1
    ensures BitAnd(BitAnd(x, c), m) == 0
  {
    if k > 0 && m != 0 {
      var a := BitAnd(x, c);
      assert Pow2(k) == 2 * Pow2(k - 1);
      assert c / 2 + m / 2 == Pow2(k - 1) - 1 && c % 2 == 1 - m % 2;
      BitAndStep(x, c);
      BitAndNotClears(x / 2, m / 2, c / 2, k - 1);
      BitAndStep(a, m);
    }
  }

  /** `(x | m) & m == m`: OR-ing sets every bit of m. */
  lemma {:induction false} BitOrSets(x: nat, m: nat)
    ensures BitAnd(BitOr(x, m), m) == m
    decreases m
  {
    if m != 0 {
      var o := BitOr(x, m);
      BitOrStep(x, m);
      BitOrSets(x / 2, m / 2);
      assert BitAnd(o / 2, m / 2) == m / 2;
    }
  }

  /** Masking further keeps clear bits clear: `x & m == 0` gives `(x & c) & m == 0`. */
  lemma {:induction false} BitAndKeepsClear(x: nat, c: nat, m: nat)
    requires BitAnd(x, m) == 0
    ensures BitAnd(BitAnd(x, c), m) == 0
    decreases x
  {
    if x != 0 && m != 0 {
      var a := BitAnd(x, c);
      BitAndStep(x, c);
      BitAndStep(x, m);
      BitAndStep(a, m);
      BitAndKeepsClear(x / 2, c / 2, m / 2);
    }
  }

  /** OR-ing two values with the bits of m clear leaves them clear. */
  lemma {:induction false} BitOrKeepsClear(x: nat, y: nat, m: nat)
    requires BitAnd(x, m) == 0 && BitAnd(y, m) == 0
    ensures BitAnd(BitOr(x, y), m) == 0
    decreases x + y
  {
    if (x != 0 || y != 0) && m != 0 {
      var o := BitOr(x, y);
      BitOrStep(x, y);
      BitAndStep(x, m);
      BitAndStep(y, m);
      BitAndStep(o, m);
      BitOrKeepsClear(x / 2, y / 2, m / 2);
    }
  }

  lemma And8ClearsMask(x: byte, m: byte)
    ensures And8(And8(x, Not8(m)), m) == 0
  {
    Pow2Values();
    BitAndNotClears(x, m, 0xFF - m, 8);
  }

  lemma Or8SetsMask(x: byte, m: byte)
    ensures And8(Or8(x, m), m) == m
  {
    BitOrSets(x, m);
  }
}
