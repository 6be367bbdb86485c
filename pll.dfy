/*
 * The ODFC PLL M/N solver of anx7625.c: the subtraction gcd, the reduction
 * of the fraction M/N into 24 bits, and the choice of the post-divider for a
 * pixel clock.  All of it is arithmetic on 32-bit unsigned values; the
 * operands stay in range, which the contracts below establish.
 *
 * The PLL limits come from the chip's header, which is not part of this
 * model; the values used are the ones the Analogix driver publishes, and the
 * lemmas that depend on them say so by naming the clock ranges outright.
 */
module Pll {
  import opened CTypes

  const PLL_OUT_FREQ_MIN: nat := 520000000
  const PLL_OUT_FREQ_MAX: nat := 730000000
  const PLL_OUT_FREQ_ABS_MIN: nat := 300000000
  const PLL_OUT_FREQ_ABS_MAX: nat := 800000000
  const POST_DIVIDER_MIN: nat := 1
  const POST_DIVIDER_MAX: nat := 16
  /** The reference crystal: 27 MHz. */
  const XTAL_FRQ: nat := 27000000
  const MAX_UNSIGNED_24BIT: nat := 16777215

  // ---------------------------------------------------------------------
  // Divisibility

  predicate Divides(d: nat, x: nat)
  {
    d > 0 && x % d == 0
  }

  lemma DividesDifference(d: nat, x: nat, y: nat)
    requires Divides(d, x) && Divides(d, y) && y <= x
    ensures Divides(d, x - y)
  {
    var qx, qy := x / d, y / d;
    assert x == d * qx && y == d * qy;
    assert x - y == d * (qx - qy);
    DivModUnique(x - y, d, qx - qy, 0);
  }

  lemma DividesSum(d: nat, x: nat, y: nat)
    requires Divides(d, x) && Divides(d, y)
    ensures Divides(d, x + y)
  {
    var qx, qy := x / d, y / d;
    assert x == d * qx && y == d * qy;
    assert x + y == d * (qx + qy);
    DivModUnique(x + y, d, qx + qy, 0);
  }

  // ---------------------------------------------------------------------
  // gcd

  /** The gcd of anx7625.c by repeated subtraction; gcd(0, b) is b. */
  function GcdOf(a: nat, b: nat): nat
    decreases a + b
  {
    if a == 0 then b
    else if b == 0 then a
    else if a > b then GcdOf(a - b, b)
    else GcdOf(a, b - a)
  }

  /**
   * GcdOf is the greatest common divisor: it divides both arguments, and
   * every common divisor divides it.
   */
  lemma {:induction false} GcdOfIsGcd(a: nat, b: nat)
    requires a > 0 || b > 0
    ensures Divides(GcdOf(a, b), a) && Divides(GcdOf(a, b), b)
    ensures forall d: nat :: Divides(d, a) && Divides(d, b) ==> Divides(d, GcdOf(a, b))
  {
    if a == 0 {
      assert b % b == 0 && 0 % b == 0;
    } else if b == 0 {
      assert a % a == 0 && 0 % a == 0;
    } else if a > b {
      var g := GcdOf(a - b, b);
      GcdOfIsGcd(a - b, b);
      DividesSum(g, a - b, b);
      forall d: nat | Divides(d, a) && Divides(d, b) ensures Divides(d, g) {
        DividesDifference(d, a, b);
      }
    } else {
      var g := GcdOf(a, b - a);
      GcdOfIsGcd(a, b - a);
      DividesSum(g, b - a, a);
      forall d: nat | Divides(d, a) && Divides(d, b) ensures Divides(d, g) {
        DividesDifference(d, b, a);
      }
    }
  }

  /** gcd(a, b): the loop of anx7625.c. */
  method Gcd(a0: u32, b0: u32) returns (g: u32)
    ensures g == GcdOf(a0, b0)
    ensures a0 > 0 || b0 > 0 ==> Divides(g, a0) && Divides(g, b0)
  {
    if a0 > 0 || b0 > 0 {
      GcdDividesBoth(a0, b0);
    }
    if a0 == 0 {
      return b0;
    }
    g := GcdLoop(a0, b0);
  }

  /** The subtraction loop of gcd, entered with a > 0. */
  method GcdLoop(a0: u32, b0: u32) returns (g: u32)
    requires a0 > 0
    ensures g == GcdOf(a0, b0)
  {
    var a, b := a0, b0;
    while b != 0
      invariant a > 0 && GcdOf(a, b) == GcdOf(a0, b0)
      decreases a as int + b as int
    {
      if a > b {
        a := a - b;
      } else {
        b := b - a;
      }
    }
    g := a;
  }

  // ---------------------------------------------------------------------
  // anx7625_reduction_of_a_fraction

  /** x / d >= k forces x >= d * k. */
  lemma DivAtLeast(x: nat, d: nat, k: nat)
    requires d >= 1 && x / d >= k
    ensures x >= d * k
  {
    assert x == d * (x / d) + x % d;
    MulMonotone(d, k, x / d);
  }

  /** An exact quotient multiplies back; a multiple x > 0 has quotient at least 1. */
  lemma ExactQuotient(x: nat, g: nat)
    requires Divides(g, x)
    ensures x == g * (x / g) && x / g >= 0
    ensures x > 0 ==> x / g >= 1
  {
    assert x == g * (x / g) + x % g;
  }

  /** Both halves of the fraction, divided by d, fit in 24 bits. */
  predicate Fits24(a: nat, b: nat, d: nat)
    requires d >= 1
  {
    a / d <= MAX_UNSIGNED_24BIT && b / d <= MAX_UNSIGNED_24BIT
  }

  /** The first denominator from d on that brings both halves into 24 bits. */
  function FirstFit(a: nat, b: nat, d: nat): (r: nat)
    requires d >= 1
    ensures r >= d && Fits24(a, b, r)
    ensures forall q :: d <= q < r ==> !Fits24(a, b, q)
    decreases a + b - d
  {
    if Fits24(a, b, d) then d
    else
      var x := if a / d > MAX_UNSIGNED_24BIT then a else b;
      DivAtLeast(x, d, 1);
      FirstFit(a, b, d + 1)
  }

  /** Scaling both sides of a cross-multiplied ratio by k keeps it. */
  lemma ScaledRatio(x: nat, y: nat, a: nat, b: nat, k: nat)
    requires k >= 1 && x * (k * b) == y * (k * a)
    ensures x * b == y * a
  {
    var n := k * (x * b);
    assert n == k * (y * a) by {
      assert x * (k * b) == k * (x * b);
      assert y * (k * a) == k * (y * a);
    }
    DivModUnique(n, k, x * b, 0);
    DivModUnique(n, k, y * a, 0);
  }

  /** Doubling both halves while both stay below MAX_UNSIGNED_24BIT / 2. */
  function Doubled(a: nat, b: nat): (r: (nat, nat))
    requires a <= MAX_UNSIGNED_24BIT && b <= MAX_UNSIGNED_24BIT && a + b > 0
    ensures r.0 <= MAX_UNSIGNED_24BIT && r.1 <= MAX_UNSIGNED_24BIT
    ensures 2 * r.0 >= MAX_UNSIGNED_24BIT || 2 * r.1 >= MAX_UNSIGNED_24BIT
    ensures r.0 * b == r.1 * a
    decreases 2 * MAX_UNSIGNED_24BIT - a - b
  {
    if 2 * a < MAX_UNSIGNED_24BIT && 2 * b < MAX_UNSIGNED_24BIT then
      var r := Doubled(2 * a, 2 * b);
      ScaledRatio(r.0, r.1, a, b, 2);
      r
    else
      assert a * b == b * a;
      (a, b)
  }

  /** x >= d > 0 gives x / d >= 1. */
  lemma DivPositive(x: nat, d: nat)
    requires 1 <= d <= x
    ensures x / d >= 1
  {
    if x / d == 0 {
      DivModUnique(x, d, 0, x);
    }
  }

  /** Natural numbers have natural quotients, no larger than the dividend. */
  lemma DivNonNegative(x: nat, d: nat)
    requires d >= 1
    ensures 0 <= x / d <= x
  {
    assert x == d * (x / d) + x % d;
    if x / d > 0 {
      MulMonotone(x / d, 1, d);
    }
  }

  /** A quotient of at least 2 by d - 1 leaves a quotient of at least 1 by d. */
  lemma NextQuotientPositive(x: nat, d: nat)
    requires d >= 2 && x / (d - 1) >= 2
    ensures x / d >= 1
  {
    DivAtLeast(x, d - 1, 2);
    DivPositive(x, d);
  }

  /** The first fitting denominator leaves at least one half non-zero. */
  lemma ReducedNonZero(a: nat, b: nat, d: nat)
    requires a + b > 0 && d >= 1 && (d == 1 || !Fits24(a, b, d - 1))
    ensures a / d + b / d > 0
  {
    DivNonNegative(a, d);
    DivNonNegative(b, d);
    if d == 1 {
      assert a / 1 == a && b / 1 == b;
    } else if a / (d - 1) > MAX_UNSIGNED_24BIT {
      NextQuotientPositive(a, d);
    } else {
      NextQuotientPositive(b, d);
    }
  }

  /** The gcd of a fraction with a non-zero half divides both halves. */
  lemma GcdDividesBoth(a0: nat, b0: nat)
    requires a0 > 0 || b0 > 0
    ensures Divides(GcdOf(a0, b0), a0) && Divides(GcdOf(a0, b0), b0)
  {
    GcdOfIsGcd(a0, b0);
  }

  /** The fraction divided through by the gcd of its halves. */
  function GcdReduced(a0: nat, b0: nat): (r: (nat, nat))
    requires a0 > 0 || b0 > 0
    ensures r.0 + r.1 > 0
    ensures a0 == GcdOf(a0, b0) * r.0 && b0 == GcdOf(a0, b0) * r.1
  {
    GcdDividesBoth(a0, b0);
    var g := GcdOf(a0, b0);
    ExactQuotient(a0, g);
    ExactQuotient(b0, g);
    (a0 / g, b0 / g)
  }

  /** The halves divided by the first denominator that fits them in 24 bits. */
  function Fitted(a: nat, b: nat): (r: (nat, nat))
    requires a + b > 0
    ensures r.0 <= MAX_UNSIGNED_24BIT && r.1 <= MAX_UNSIGNED_24BIT && r.0 + r.1 > 0
    ensures a <= MAX_UNSIGNED_24BIT && b <= MAX_UNSIGNED_24BIT ==> r == (a, b)
  {
    var d := FirstFit(a, b, 1);
    ReducedNonZero(a, b, d);
    DivNonNegative(a, d);
    DivNonNegative(b, d);
    if a <= MAX_UNSIGNED_24BIT && b <= MAX_UNSIGNED_24BIT then
      assert d == 1 && a / 1 == a && b / 1 == b;
      (a / d, b / d)
    else
      (a / d, b / d)
  }

  /** What anx7625_reduction_of_a_fraction leaves in *_a and *_b. */
  function ReducedPair(a0: nat, b0: nat): (nat, nat)
    requires a0 > 0 || b0 > 0
  {
    var f := Fitted(GcdReduced(a0, b0).0, GcdReduced(a0, b0).1);
    Doubled(f.0, f.1)
  }

  /**
   * The reduced fraction fits in 24 bits and cannot be doubled again; when
   * dividing by the gcd already made it fit, it is exactly the input ratio.
   */
  lemma ReductionSpec(a0: nat, b0: nat)
    requires a0 > 0 || b0 > 0
    ensures var r := ReducedPair(a0, b0);
      && r.0 <= MAX_UNSIGNED_24BIT && r.1 <= MAX_UNSIGNED_24BIT
      && (2 * r.0 >= MAX_UNSIGNED_24BIT || 2 * r.1 >= MAX_UNSIGNED_24BIT)
    ensures var g := GcdReduced(a0, b0);
      g.0 <= MAX_UNSIGNED_24BIT && g.1 <= MAX_UNSIGNED_24BIT ==>
        ReducedPair(a0, b0).0 * b0 == ReducedPair(a0, b0).1 * a0
  {
    var g := GcdReduced(a0, b0);
    if g.0 <= MAX_UNSIGNED_24BIT && g.1 <= MAX_UNSIGNED_24BIT {
      var r := Doubled(g.0, g.1);
      var k := GcdOf(a0, b0);
      ScaledUp(r.0, r.1, g.0, g.1, k);
    }
  }

  /** Scaling both halves of a cross-multiplied ratio by k keeps it. */
  lemma ScaledUp(x: nat, y: nat, a: nat, b: nat, k: nat)
    requires x * b == y * a
    ensures x * (k * b) == y * (k * a)
  {
    assert x * (k * b) == k * (x * b);
    assert y * (k * a) == k * (y * a);
  }

  /** A denominator that does not fit is passed over, and lies well below the halves. */
  lemma StepPastUnfit(a: nat, b: nat, d: nat)
    requires d >= 1 && !Fits24(a, b, d)
    ensures FirstFit(a, b, d + 1) == FirstFit(a, b, d)
    ensures 2 * d <= a + b
  {
    if a / d > MAX_UNSIGNED_24BIT {
      DivAtLeast(a, d, 2);
    } else {
      DivAtLeast(b, d, 2);
    }
  }

  /** The first loop of anx7625_reduction_of_a_fraction: divide until both halves fit. */
  method ScaleDown(oldA: u32, oldB: u32) returns (a: u32, b: u32)
    requires oldA as nat + oldB as nat > 0
    ensures (a as nat, b as nat) == Fitted(oldA, oldB)
  {
    a, b := oldA, oldB;
    var denom: u32 := 1;
    assert oldA / 1 == oldA && oldB / 1 == oldB;
    while a > MAX_UNSIGNED_24BIT as u32 || b > MAX_UNSIGNED_24BIT as u32
      invariant 1 <= denom && a as nat == oldA as nat / denom as nat && b as nat == oldB as nat / denom as nat
      invariant FirstFit(oldA, oldB, denom) == FirstFit(oldA, oldB, 1)
      decreases oldA as int + oldB as int - denom as int
    {
      StepPastUnfit(oldA, oldB, denom);
      denom := denom + 1;
      DivNonNegative(oldA, denom);
      DivNonNegative(oldB, denom);
      a := oldA / denom;
      b := oldB / denom;
    }
  }

  /** The second loop of anx7625_reduction_of_a_fraction: double while both stay small. */
  method ScaleUp(a0: u32, b0: u32) returns (a: u32, b: u32)
    requires a0 <= MAX_UNSIGNED_24BIT as u32 && b0 <= MAX_UNSIGNED_24BIT as u32 && a0 as nat + b0 as nat > 0
    ensures (a as nat, b as nat) == Doubled(a0, b0)
  {
    a, b := a0, b0;
    while 2 * a < MAX_UNSIGNED_24BIT as u32 && 2 * b < MAX_UNSIGNED_24BIT as u32
      invariant a <= MAX_UNSIGNED_24BIT as u32 && b <= MAX_UNSIGNED_24BIT as u32 && a as nat + b as nat > 0
      invariant Doubled(a, b) == Doubled(a0, b0)
      decreases 2 * MAX_UNSIGNED_24BIT - a as int - b as int
    {
      a := 2 * a;
      b := 2 * b;
    }
  }

  /** anx7625_reduction_of_a_fraction on the two 32-bit values. */
  method Reduction(a0: u32, b0: u32) returns (a: u32, b: u32)
    requires a0 > 0 || b0 > 0
    ensures (a, b) == ReducedPair(a0, b0)
  {
    var g := Gcd(a0, b0);
    ExactQuotient(a0, g);
    ExactQuotient(b0, g);
    a := a0 / g;
    b := b0 / g;
    assert (a as nat, b as nat) == GcdReduced(a0, b0);
    a, b := ScaleDown(a, b);
    a, b := ScaleUp(a, b);
  }

  // ---------------------------------------------------------------------
  // anx7625_calculate_m_n

  /** Products with a common factor keep the order of the other factors. */
  lemma MulOrdered(k: nat, u: nat, v: nat)
    ensures v <= u ==> k * v <= k * u
  {
    if v <= u {
      MulMonotone(k, v, u);
    }
  }

  /** Dividing by a larger divisor never gives a larger quotient. */
  lemma DivAntitone(x: nat, a: nat, b: nat)
    requires 1 <= a <= b
    ensures x / b <= x / a
  {
    var q := x / b;
    DivNonNegative(x, b);
    DivNonNegative(x, a);
    assert b * q <= x by { assert x == b * q + x % b; }
    MulMonotone(q, a, b);
    assert a * q <= x by { assert q * a == a * q && q * b == b * q; }
    var t := x / a;
    assert x < a * (t + 1) by {
      assert x == a * t + x % a;
      assert a * (t + 1) == a * t + a;
    }
    MulOrdered(a, q, t + 1);
  }

  /** A clock below x / d is below x once multiplied by d. */
  lemma BelowQuotient(pc: nat, x: nat, d: nat)
    requires d >= 1 && pc < x / d
    ensures pc * d < x
  {
    DivAtLeast(x, d, pc + 1);
    assert d * (pc + 1) == pc * d + d;
  }

  /** A clock at least x / d reaches past x once multiplied by d and rounded up. */
  lemma ReachesQuotient(pc: nat, x: nat, d: nat)
    requires d >= 1 && pc >= x / d
    ensures (pc + 1) * d > x
  {
    assert x == d * (x / d) + x % d;
    MulMonotone(d, x / d, pc);
    assert (pc + 1) * d == d * pc + d;
  }

  /** The clock `pc` reaches `freq` at post-divider `p` (in the driver's integer division). */
  predicate Reaches(pc: nat, freq: nat, p: nat)
    requires p >= 1
  {
    pc >= freq / p
  }

  /** The search loop of anx7625_calculate_m_n: the first divider from p on that reaches freq. */
  function SearchDivider(pc: nat, freq: nat, p: nat): (r: nat)
    requires p >= 1
    ensures r >= p && Reaches(pc, freq, r)
    ensures forall q :: p <= q < r ==> !Reaches(pc, freq, q)
    decreases freq + 1 - p
  {
    if Reaches(pc, freq, p) then p
    else
      assert p <= freq by {
        if p > freq { DivModUnique(freq, p, 0, freq); }
      }
      SearchDivider(pc, freq, p + 1)
  }

  /** The search stops at the latest at any divider the clock reaches. */
  lemma SearchDividerAtMost(pc: nat, freq: nat, k: nat)
    requires k >= 1 && Reaches(pc, freq, k)
    ensures SearchDivider(pc, freq, 1) <= k
  {
  }

  /** The search passes every divider below one the clock does not reach. */
  lemma SearchDividerAbove(pc: nat, freq: nat, k: nat)
    requires k >= 1 && !Reaches(pc, freq, k)
    ensures SearchDivider(pc, freq, 1) > k
  {
    var r := SearchDivider(pc, freq, 1);
    if r <= k {
      DivAntitone(freq, r, k);
    }
  }

  /** The clock range the two up-front checks of anx7625_calculate_m_n let through. */
  predicate InEnvelope(pc: nat)
  {
    PLL_OUT_FREQ_ABS_MIN / POST_DIVIDER_MAX <= pc <= PLL_OUT_FREQ_ABS_MAX / POST_DIVIDER_MIN
  }

  /**
   * The post-divider the search settles on: the smallest that brings the PLL
   * to PLL_OUT_FREQ_MIN, or, when that needs more than POST_DIVIDER_MAX, the
   * smallest that brings it to PLL_OUT_FREQ_ABS_MIN.
   */
  function SearchedDivider(pc: nat): nat
  {
    var p := SearchDivider(pc, PLL_OUT_FREQ_MIN, 1);
    if p > POST_DIVIDER_MAX then SearchDivider(pc, PLL_OUT_FREQ_ABS_MIN, 1) else p
  }

  /** The patch that moves the divider off values 27 MHz is not a multiple of. */
  function PatchedDivider(p: nat): (r: nat)
    ensures p <= r <= p + 2
    ensures r != 7 && r != 11 && r != 13 && r != 14
    ensures p != 7 && p != 11 && p != 13 && p != 14 ==> r == p
  {
    if p == 7 then 8
    else if p == 11 then 12
    else if p == 13 || p == 14 then 15
    else p
  }

  /** The post-divider anx7625_calculate_m_n hands back. */
  function Divider(pc: nat): nat
  {
    PatchedDivider(SearchedDivider(pc))
  }

  /** anx7625_calculate_m_n succeeds for this clock. */
  predicate Solvable(pc: nat)
  {
    InEnvelope(pc) && SearchedDivider(pc) <= POST_DIVIDER_MAX &&
    Wrap32(pc * Divider(pc)) <= PLL_OUT_FREQ_ABS_MAX
  }

  /** Past the first few dividers the patch costs at most a third more than the divider below. */
  lemma PatchedDividerBound(p: nat)
    requires p >= 4
    ensures 3 * PatchedDivider(p) <= 4 * (p - 1)
  {
  }

  /** A constant factor moves out of a product. */
  lemma MulConstant(x: nat, k: nat, y: nat)
    ensures x * (k * y) == k * (x * y)
  {
  }

  /** From 520 MHz up the first search stops at the divider 1. */
  lemma HighRange(pc: nat)
    requires pc >= PLL_OUT_FREQ_MIN
    ensures SearchedDivider(pc) == 1 && Divider(pc) == 1
  {
    SearchDividerAtMost(pc, PLL_OUT_FREQ_MIN, 1);
  }

  /** Between 260 MHz and 520 MHz the first search stops at the divider 2. */
  lemma PairRange(pc: nat)
    requires PLL_OUT_FREQ_MIN / 2 <= pc < PLL_OUT_FREQ_MIN
    ensures SearchedDivider(pc) == 2 && Divider(pc) == 2
  {
    SearchDividerAbove(pc, PLL_OUT_FREQ_MIN, 1);
    SearchDividerAtMost(pc, PLL_OUT_FREQ_MIN, 2);
  }

  /** Between 32.5 MHz and 260 MHz the first search lands on 3..16 and the PLL stays below the maximum. */
  lemma MiddleRange(pc: nat)
    requires 32500000 <= pc < 260000000
    ensures 3 <= SearchDivider(pc, PLL_OUT_FREQ_MIN, 1) <= POST_DIVIDER_MAX
    ensures pc * Divider(pc) <= PLL_OUT_FREQ_ABS_MAX
  {
    SearchDividerAbove(pc, PLL_OUT_FREQ_MIN, 2);
    SearchDividerAtMost(pc, PLL_OUT_FREQ_MIN, 16);
    var p := SearchDivider(pc, PLL_OUT_FREQ_MIN, 1);
    assert !Reaches(pc, PLL_OUT_FREQ_MIN, p - 1);
    BelowQuotient(pc, PLL_OUT_FREQ_MIN, p - 1);
    if p == 3 {
      assert pc * Divider(pc) == pc * 3;
    } else {
      var sp := PatchedDivider(p);
      PatchedDividerBound(p);
      MulMonotone(pc, 3 * sp, 4 * (p - 1));
      MulConstant(pc, 3, sp);
      MulConstant(pc, 4, p - 1);
    }
  }

  /** Below 32.5 MHz the fallback search lands on at most POST_DIVIDER_MAX. */
  lemma LowRange(pc: nat)
    requires PLL_OUT_FREQ_ABS_MIN / POST_DIVIDER_MAX <= pc < 32500000
    ensures SearchDivider(pc, PLL_OUT_FREQ_MIN, 1) > POST_DIVIDER_MAX
    ensures SearchedDivider(pc) <= POST_DIVIDER_MAX
    ensures pc * Divider(pc) < PLL_OUT_FREQ_MIN
  {
    SearchDividerAbove(pc, PLL_OUT_FREQ_MIN, 16);
    SearchDividerAtMost(pc, PLL_OUT_FREQ_ABS_MIN, 16);
    var p := SearchedDivider(pc);
    MulMonotone(pc, PatchedDivider(p), 16);
  }

  /**
   * The clocks anx7625_calculate_m_n accepts: 18.75 MHz up to 400 MHz and
   * 520 MHz up to 800 MHz.  Between 400 and 520 MHz the search picks the
   * divider 2 and the PLL would run above PLL_OUT_FREQ_ABS_MAX.
   */
  lemma SolvableRanges(pc: nat)
    ensures Solvable(pc) <==> 18750000 <= pc <= 400000000 || 520000000 <= pc <= 800000000
  {
    if InEnvelope(pc) {
      NoWrap(pc);
      if pc >= 520000000 {
        HighRange(pc);
      } else if pc >= 260000000 {
        PairRange(pc);
      }
    }
  }

  /**
   * Within the envelope the search succeeds and the 32-bit product
   * pixelclock * post_divider does not wrap, so the final range check
   * compares the true PLL frequency.
   */
  lemma NoWrap(pc: nat)
    requires InEnvelope(pc)
    ensures SearchedDivider(pc) <= POST_DIVIDER_MAX
    ensures pc * Divider(pc) < 0x1_0000_0000
    ensures Wrap32(pc * Divider(pc)) == pc * Divider(pc)
    ensures pc < 260000000 ==> pc * Divider(pc) <= PLL_OUT_FREQ_ABS_MAX
  {
    var w := pc * Divider(pc);
    if pc >= 520000000 {
      HighRange(pc);
    } else if pc >= 260000000 {
      PairRange(pc);
    } else if pc >= 32500000 {
      MiddleRange(pc);
    } else {
      LowRange(pc);
    }
    assert 0 <= w < 0x1_0000_0000;
    DivModUnique(w, 0x1_0000_0000, 0, w);
  }

  /**
   * For an accepted clock the post-divider is one of the values the patch
   * allows, 27 MHz is an exact multiple of it, and the PLL frequency
   * pc * pd lies between PLL_OUT_FREQ_ABS_MIN (up to the rounding of the
   * search's division) and PLL_OUT_FREQ_ABS_MAX.
   */
  lemma DividerSpec(pc: nat)
    requires Solvable(pc)
    ensures var pd := Divider(pc);
      && POST_DIVIDER_MIN <= pd <= POST_DIVIDER_MAX
      && XTAL_FRQ % pd == 0
      && PLL_OUT_FREQ_ABS_MIN < (pc + 1) * pd
      && pc * pd <= PLL_OUT_FREQ_ABS_MAX
  {
    NoWrap(pc);
    var s := SearchedDivider(pc);
    SearchedReaches(pc);
    MulOrdered(pc + 1, PatchedDivider(s), s);
    XtalMultiple(PatchedDivider(s));
  }

  /** The searched divider brings pc, rounded up, past PLL_OUT_FREQ_ABS_MIN. */
  lemma SearchedReaches(pc: nat)
    ensures (pc + 1) * SearchedDivider(pc) > PLL_OUT_FREQ_ABS_MIN
  {
    var p := SearchDivider(pc, PLL_OUT_FREQ_MIN, 1);
    if p > POST_DIVIDER_MAX {
      ReachesQuotient(pc, PLL_OUT_FREQ_ABS_MIN, SearchedDivider(pc));
    } else {
      ReachesQuotient(pc, PLL_OUT_FREQ_MIN, p);
    }
  }

  /** Every divider the patch lets through divides the 27 MHz crystal. */
  lemma XtalMultiple(pd: nat)
    requires 1 <= pd <= POST_DIVIDER_MAX && pd != 7 && pd != 11 && pd != 13 && pd != 14
    ensures XTAL_FRQ % pd == 0
  {
    assert pd in {1, 2, 3, 4, 5, 6, 8, 9, 10, 12, 15, 16};
  }

  /** One more round of the search loop when the divider does not reach yet. */
  lemma SearchDividerStep(pc: nat, freq: nat, p: nat)
    requires p >= 1 && !Reaches(pc, freq, p)
    ensures SearchDivider(pc, freq, p + 1) == SearchDivider(pc, freq, p)
  {
  }

  /** `for (post_divider = 1; pixelclock < freq / post_divider; post_divider++);` */
  method SearchPostDivider(pixelclock: u32, freq: nat) returns (p: byte)
    requires SearchDivider(pixelclock, freq, 1) < 0x100
    ensures p as nat == SearchDivider(pixelclock, freq, 1)
  {
    p := 1;
    while (pixelclock as nat) < freq / p as nat
      invariant 1 <= p as nat <= SearchDivider(pixelclock, freq, 1)
      invariant SearchDivider(pixelclock, freq, p) == SearchDivider(pixelclock, freq, 1)
      decreases 0x100 - p
    {
      SearchDividerStep(pixelclock, freq, p);
      p := p + 1;
    }
  }

  /**
   * anx7625_calculate_m_n: choose the ODFC post-divider for the pixel clock
   * and the M/N fraction pixelclock / (XTAL_FRQ / post_divider), reduced to
   * 24 bits.  It returns 1, leaving *m, *n and *pd alone, when the clock is
   * out of range or the PLL would run above its maximum.
   */
  method CalculateMN(pixelclock: u32, m0: u32, n0: u32, pd0: byte) returns (ret: i32, m: u32, n: u32, pd: byte)
    ensures ret == 0 || ret == 1
    ensures ret == 0 <==> Solvable(pixelclock)
    ensures ret != 0 ==> m == m0 && n == n0 && pd == pd0
    ensures ret == 0 ==> pd as nat == Divider(pixelclock) &&
                         (m as nat, n as nat) == ReducedPair(pixelclock, XTAL_FRQ / pd as nat)
  {
    m, n, pd := m0, n0, pd0;
    ret := 1;
    if pixelclock as nat > PLL_OUT_FREQ_ABS_MAX / POST_DIVIDER_MIN {
      return;
    }
    if (pixelclock as nat) < PLL_OUT_FREQ_ABS_MIN / POST_DIVIDER_MAX {
      return;
    }
    SearchDividerAtMost(pixelclock, PLL_OUT_FREQ_MIN, 28);
    var postDivider := SearchPostDivider(pixelclock, PLL_OUT_FREQ_MIN);
    if postDivider as nat > POST_DIVIDER_MAX {
      SearchDividerAtMost(pixelclock, PLL_OUT_FREQ_ABS_MIN, POST_DIVIDER_MAX);
      postDivider := SearchPostDivider(pixelclock, PLL_OUT_FREQ_ABS_MIN);
      if postDivider as nat > POST_DIVIDER_MAX {
        return;
      }
    }
    assert postDivider as nat == SearchedDivider(pixelclock) <= POST_DIVIDER_MAX;
    if postDivider == 7 {
      postDivider := 8;
    } else if postDivider == 11 {
      postDivider := 12;
    } else if postDivider == 13 || postDivider == 14 {
      postDivider := 15;
    }
    assert postDivider as nat == Divider(pixelclock);
    if Wrap32(pixelclock as nat * postDivider as nat) > PLL_OUT_FREQ_ABS_MAX {
      return;
    }
    m := pixelclock;
    DivNonNegative(XTAL_FRQ, postDivider as nat);
    n := (XTAL_FRQ / postDivider as nat) as u32;
    pd := postDivider;
    m, n := Reduction(m, n);
    ret := 0;
  }
}
