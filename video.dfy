/*
 * Programming the MIPI-DSI receiver: the ODFC post divider, the video
 * timing registers, the PLL's M/N ratio from the solver, and the DSI
 * bring-up sequence around them.
 */
module Video {
  import opened CTypes
  import opened Registers
  import opened I2c
  import opened Pll

  /** A one-bit bitfield. */
  type Bit = b: nat | b < 2

  /**
   * struct display_timing; its declaration is not part of this model, and
   * every field is taken to be an unsigned int (pixelclock in kHz).
   */
  datatype Timing = Timing(pixelclock: u32, hactive: u32, hbackPorch: u32, hfrontPorch: u32, hsyncLen: u32,
                           vactive: u32, vbackPorch: u32, vfrontPorch: u32, vsyncLen: u32,
                           hpol: Bit, vpol: Bit)

  const PLL8_KEY: Key := (RX_P1_ADDR, MIPI_DIGITAL_PLL_8)
  const PLL7_KEY: Key := (RX_P1_ADDR, MIPI_DIGITAL_PLL_7)
  const PLL16_KEY: Key := (RX_P1_ADDR, MIPI_DIGITAL_PLL_16)
  /** REF_CLK_27000kHz << MIPI_FREF_D_IND */
  const REF_CLK_27MHZ: byte := 0x04

  /** The clock handed to the PLL solver: pixelclock * 1000 in 32-bit arithmetic. */
  function ClockHz(dt: Timing): u32
  {
    Wrap32(dt.pixelclock as nat * 1000)
  }

  /** `x & 0xFF`, or `x` passed where a uint8_t is expected. */
  function Lo(x: nat): byte
  {
    LowByte(x)
  }

  /** `x >> 8` passed where a uint8_t is expected. */
  function Hi(x: nat): byte
  {
    LowByte(x / 0x100)
  }

  /** A low and a high register byte together hold the value's low 16 bits. */
  lemma HiLo(x: nat)
    ensures Lo(x) as nat + 0x100 * Hi(x) as nat == x % 0x10000
  {
    var y := x / 0x100;
    assert x == 0x100 * y + Lo(x);
    assert y == 0x100 * (y / 0x100) + Hi(x);
    DivModUnique(x, 0x10000, y / 0x100, 0x100 * Hi(x) + Lo(x));
  }

  /** The three register bytes of a 24-bit PLL value, most significant first. */
  function PllBytes(x: nat): seq<byte>
  {
    [LowByte(x / 0x10000), Hi(x), Lo(x)]
  }

  /** The three bytes reassemble to the value when it fits in 24 bits. */
  lemma PllBytesRoundTrip(x: nat)
    requires x <= MAX_UNSIGNED_24BIT
    ensures 0x10000 * PllBytes(x)[0] as nat + 0x100 * PllBytes(x)[1] as nat + PllBytes(x)[2] as nat == x
  {
    HiLo(x);
    var q := x / 0x10000;
    assert x == 0x10000 * q + x % 0x10000;
    assert q < 0x100;
    assert LowByte(q) == q;
  }

  /** The register writes of the M and N values. */
  function MnWrites(m: nat, n: nat): seq<Access>
  {
    [Set(P1(MIPI_PLL_M_NUM_23_16), PllBytes(m)[0]), Set(P1(MIPI_PLL_M_NUM_15_8), PllBytes(m)[1]),
     Set(P1(MIPI_PLL_M_NUM_7_0), PllBytes(m)[2]),
     Set(P1(MIPI_PLL_N_NUM_23_16), PllBytes(n)[0]), Set(P1(MIPI_PLL_N_NUM_15_8), PllBytes(n)[1]),
     Set(P1(MIPI_PLL_N_NUM_7_0), PllBytes(n)[2])]
  }

  /** Reading the six M/N registers back gives M and N. */
  lemma MnWritesDecode(m: nat, n: nat)
    requires m <= MAX_UNSIGNED_24BIT && n <= MAX_UNSIGNED_24BIT
    ensures var w := MnWrites(m, n);
      && 0x10000 * w[0].val as nat + 0x100 * w[1].val as nat + w[2].val as nat == m
      && 0x10000 * w[3].val as nat + 0x100 * w[4].val as nat + w[5].val as nat == n
  {
    PllBytesRoundTrip(m);
    PllBytesRoundTrip(n);
  }

  /** The pixel clock in MHz, low byte then high byte. */
  function PixelClockWrites(pixelclock: u32): seq<Access>
  {
    [Set(P0(PIXEL_CLOCK_L), Lo(pixelclock as nat / 1000)), Set(P0(PIXEL_CLOCK_H), Hi(pixelclock as nat / 1000))]
  }

  /** The 16-bit horizontal total, kept in the u16 htotal. */
  function HTotal(dt: Timing): nat
  {
    (dt.hactive as nat + dt.hfrontPorch as nat + dt.hbackPorch as nat + dt.hsyncLen as nat) % 0x10000
  }

  /** The horizontal timing registers, in the order they are written. */
  function HorizontalWrites(dt: Timing): seq<Access>
  {
    [Set(P2(HORIZONTAL_TOTAL_PIXELS_L), Lo(HTotal(dt))), Set(P2(HORIZONTAL_TOTAL_PIXELS_H), Hi(HTotal(dt))),
     Set(P2(HORIZONTAL_ACTIVE_PIXELS_L), Lo(dt.hactive as nat)), Set(P2(HORIZONTAL_ACTIVE_PIXELS_H), Hi(dt.hactive as nat)),
     Set(P2(HORIZONTAL_FRONT_PORCH_L), Lo(dt.hfrontPorch as nat)), Set(P2(HORIZONTAL_FRONT_PORCH_H), Hi(dt.hfrontPorch as nat)),
     Set(P2(HORIZONTAL_SYNC_WIDTH_L), Lo(dt.hsyncLen as nat)), Set(P2(HORIZONTAL_SYNC_WIDTH_H), Hi(dt.hsyncLen as nat)),
     Set(P2(HORIZONTAL_BACK_PORCH_L), Lo(dt.hbackPorch as nat)), Set(P2(HORIZONTAL_BACK_PORCH_H), Hi(dt.hbackPorch as nat))]
  }

  /** The vertical timing registers; the porches and sync width get one byte each. */
  function VerticalWrites(dt: Timing): seq<Access>
  {
    [Set(P2(ACTIVE_LINES_L), Lo(dt.vactive as nat)), Set(P2(ACTIVE_LINES_H), Hi(dt.vactive as nat)),
     Set(P2(VERTICAL_FRONT_PORCH), Lo(dt.vfrontPorch as nat)), Set(P2(VERTICAL_SYNC_WIDTH), Lo(dt.vsyncLen as nat)),
     Set(P2(VERTICAL_BACK_PORCH), Lo(dt.vbackPorch as nat))]
  }

  /**
   * What the timing registers hold: each low/high pair is the field's low
   * 16 bits (the total being the sum of the four horizontal fields, modulo
   * 2^16), the one-byte vertical registers the field's low 8 bits, and the
   * pixel-clock pair the clock in MHz modulo 2^16.
   */
  lemma TimingWritesDecode(dt: Timing)
    ensures var w := HorizontalWrites(dt);
      && w[0].val as nat + 0x100 * w[1].val as nat == HTotal(dt)
      && w[2].val as nat + 0x100 * w[3].val as nat == dt.hactive as nat % 0x10000
      && w[4].val as nat + 0x100 * w[5].val as nat == dt.hfrontPorch as nat % 0x10000
      && w[6].val as nat + 0x100 * w[7].val as nat == dt.hsyncLen as nat % 0x10000
      && w[8].val as nat + 0x100 * w[9].val as nat == dt.hbackPorch as nat % 0x10000
    ensures var w := VerticalWrites(dt);
      && w[0].val as nat + 0x100 * w[1].val as nat == dt.vactive as nat % 0x10000
      && w[2].val as nat == dt.vfrontPorch as nat % 0x100
      && w[3].val as nat == dt.vsyncLen as nat % 0x100
      && w[4].val as nat == dt.vbackPorch as nat % 0x100
    ensures var w := PixelClockWrites(dt.pixelclock);
      w[0].val as nat + 0x100 * w[1].val as nat == (dt.pixelclock as nat / 1000) % 0x10000
  {
    HiLo(HTotal(dt));
    HiLo(dt.hactive as nat);
    HiLo(dt.hfrontPorch as nat);
    HiLo(dt.hsyncLen as nat);
    HiLo(dt.hbackPorch as nat);
    HiLo(dt.vactive as nat);
    HiLo(dt.pixelclock as nat / 1000);
    var h := HTotal(dt);
    assert h % 0x10000 == h;
  }

  /**
   * `ret |= r` on two statuses that are 0 or a negative error code: the
   * result is again one, and is 0 exactly when both are.
   */
  method OrStatus(ret0: i32, r: i32) returns (ret: i32)
    requires ret0 <= 0 && r <= 0
    ensures ret <= 0 && (ret == 0 <==> ret0 == 0 && r == 0)
  {
    Or32NonPositive(ret0, r);
    ret := Or32(ret0, r);
  }

  /** anx7625_reg_write, with what it means for the bus log and the register. */
  method Put(c: Chip, saddr: byte, offset: byte, val: byte) returns (ret: i32)
    modifies c
    ensures Outcome(c.State(), ret) == RegWriteEffect(c.oracle, old(c.State()), saddr, offset, val)
    ensures ret <= 0
    ensures c.log == old(c.log) + [Set((saddr, offset), val)]
    ensures ret == 0 ==> (saddr, offset) in c.regs && c.regs[(saddr, offset)] == val
  {
    RegWriteSpec(c.oracle, c.State(), saddr, offset, val);
    ret := c.RegWrite(saddr, offset, val);
  }

  /** anx7625_reg_read into a local that starts at 0, with what it means for the bus log and the value. */
  method Fetch(c: Chip, saddr: byte, offset: byte) returns (ret: i32, val: byte)
    modifies c
    ensures ReadOutcome(c.State(), ret, val) == RegReadEffect(c.oracle, old(c.State()), saddr, offset, 0)
    ensures ret < 0 || ret == val
    ensures c.log == old(c.log) + [Get((saddr, offset))]
    ensures (saddr, offset) in old(c.regs) && !Volatile(saddr, offset) && offset != ReservedOffset(saddr) && ret >= 0 ==>
              val == old(c.regs)[(saddr, offset)]
  {
    RegReadSpec(c.oracle, c.State(), saddr, offset, 0);
    ret, val := c.RegRead(saddr, offset, 0);
  }

  /** `(a + b)` holds `b` right after `a`. */
  lemma AppendedSlice(a: seq<Access>, b: seq<Access>)
    ensures (a + b)[|a|..|a| + |b|] == b
  {
  }

  /** A slice of a log stays the same as the log grows. */
  lemma GrownSlice(a: seq<Access>, b: seq<Access>, i: nat, j: nat)
    requires a <= b && i <= j <= |a|
    ensures b[i..j] == a[i..j]
  {
  }

  /**
   * `ret |= anx7625_reg_write(...)`, where the write is entry `|done|` of
   * the writes `want` the caller is making, after the entries `done` before it.
   */
  method PutOr(c: Chip, saddr: byte, offset: byte, val: byte, ret0: i32,
               ghost base: seq<Access>, ghost want: seq<Access>, ghost k: nat)
    returns (ret: i32)
    requires ret0 <= 0
    requires k < |want| && want[k] == Set((saddr, offset), val)
    requires c.log == base + want[..k]
    modifies c
    ensures ret <= 0 && (ret0 < 0 ==> ret < 0)
    ensures c.log == base + want[..k + 1]
  {
    var r := Put(c, saddr, offset, val);
    assert want[..k + 1] == want[..k] + [want[k]];
    Or32NonPositive(ret0, r);
    ret := Or32(ret0, r);
  }

  /** A low/high register pair holding the low 16 bits of `x`, low byte first. */
  method PutPairOr(c: Chip, saddr: byte, offsetL: byte, offsetH: byte, x: nat, ret0: i32,
                   ghost base: seq<Access>, ghost want: seq<Access>, ghost k: nat)
    returns (ret: i32)
    requires ret0 <= 0
    requires k + 1 < |want|
    requires want[k] == Set((saddr, offsetL), Lo(x)) && want[k + 1] == Set((saddr, offsetH), Hi(x))
    requires c.log == base + want[..k]
    modifies c
    ensures ret <= 0 && (ret0 < 0 ==> ret < 0)
    ensures c.log == base + want[..k + 2]
  {
    ret := PutOr(c, saddr, offsetL, Lo(x), ret0, base, want, k);
    ret := PutOr(c, saddr, offsetH, Hi(x), ret, base, want, k + 1);
  }

  /** Write the pixel clock registers, the clock in MHz. */
  method WritePixelClock(c: Chip, pixelclock: u32) returns (ret: i32)
    modifies c
    ensures ret <= 0
    ensures c.log == old(c.log) + PixelClockWrites(pixelclock)
  {
    ghost var base, want := c.log, PixelClockWrites(pixelclock);
    ret := PutPairOr(c, RX_P0_ADDR, PIXEL_CLOCK_L, PIXEL_CLOCK_H, pixelclock as nat / 1000, 0, base, want, 0);
  }

  /** Write the ten horizontal timing registers. */
  method WriteHorizontal(c: Chip, dt: Timing) returns (ret: i32)
    modifies c
    ensures ret <= 0
    ensures c.log == old(c.log) + HorizontalWrites(dt)
  {
    var htotal := HTotal(dt);
    ghost var base, want := c.log, HorizontalWrites(dt);
    ret := PutPairOr(c, RX_P2_ADDR, HORIZONTAL_TOTAL_PIXELS_L, HORIZONTAL_TOTAL_PIXELS_H, htotal, 0, base, want, 0);
    ret := PutPairOr(c, RX_P2_ADDR, HORIZONTAL_ACTIVE_PIXELS_L, HORIZONTAL_ACTIVE_PIXELS_H, dt.hactive as nat, ret, base, want, 2);
    ret := PutPairOr(c, RX_P2_ADDR, HORIZONTAL_FRONT_PORCH_L, HORIZONTAL_FRONT_PORCH_H, dt.hfrontPorch as nat, ret, base, want, 4);
    ret := PutPairOr(c, RX_P2_ADDR, HORIZONTAL_SYNC_WIDTH_L, HORIZONTAL_SYNC_WIDTH_H, dt.hsyncLen as nat, ret, base, want, 6);
    ret := PutPairOr(c, RX_P2_ADDR, HORIZONTAL_BACK_PORCH_L, HORIZONTAL_BACK_PORCH_H, dt.hbackPorch as nat, ret, base, want, 8);
  }

  /** Write the five vertical timing registers. */
  method WriteVertical(c: Chip, dt: Timing) returns (ret: i32)
    modifies c
    ensures ret <= 0
    ensures c.log == old(c.log) + VerticalWrites(dt)
  {
    ghost var base, want := c.log, VerticalWrites(dt);
    ret := PutPairOr(c, RX_P2_ADDR, ACTIVE_LINES_L, ACTIVE_LINES_H, dt.vactive as nat, 0, base, want, 0);
    ret := PutOr(c, RX_P2_ADDR, VERTICAL_FRONT_PORCH, Lo(dt.vfrontPorch as nat), ret, base, want, 2);
    ret := PutOr(c, RX_P2_ADDR, VERTICAL_SYNC_WIDTH, Lo(dt.vsyncLen as nat), ret, base, want, 3);
    ret := PutOr(c, RX_P2_ADDR, VERTICAL_BACK_PORCH, Lo(dt.vbackPorch as nat), ret, base, want, 4);
  }

  /** Write M and N, three bytes each, most significant first. */
  method WriteMn(c: Chip, m: u32, n: u32) returns (ret: i32)
    modifies c
    ensures ret <= 0
    ensures c.log == old(c.log) + MnWrites(m as nat, n as nat)
  {
    ghost var base, want := c.log, MnWrites(m as nat, n as nat);
    ret := PutOr(c, RX_P1_ADDR, MIPI_PLL_M_NUM_23_16, LowByte(m as nat / 0x10000), 0, base, want, 0);
    ret := PutOr(c, RX_P1_ADDR, MIPI_PLL_M_NUM_15_8, Hi(m as nat), ret, base, want, 1);
    ret := PutOr(c, RX_P1_ADDR, MIPI_PLL_M_NUM_7_0, Lo(m as nat), ret, base, want, 2);
    ret := PutOr(c, RX_P1_ADDR, MIPI_PLL_N_NUM_23_16, LowByte(n as nat / 0x10000), ret, base, want, 3);
    ret := PutOr(c, RX_P1_ADDR, MIPI_PLL_N_NUM_15_8, Hi(n as nat), ret, base, want, 4);
    ret := PutOr(c, RX_P1_ADDR, MIPI_PLL_N_NUM_7_0, Lo(n as nat), ret, base, want, 5);
  }

  /**
   * anx7625_write_or, with what it means for the register it changes;
   * `read` is the value its read delivered.
   */
  method SetBits(c: Chip, saddr: byte, offset: byte, mask: byte) returns (ret: i32, ghost read: byte)
    modifies c
    ensures read == RegReadEffect(c.oracle, old(c.State()), saddr, offset, 0).val
    ensures ret <= 0
    ensures ret == 0 ==> (saddr, offset) in c.regs && c.regs[(saddr, offset)] == Or8(read, mask)
    ensures (saddr, offset) in old(c.regs) && !Volatile(saddr, offset) && offset != ReservedOffset(saddr) && ret == 0 ==>
              read == old(c.regs)[(saddr, offset)]
    ensures Agree(old(c.regs), c.regs, {(saddr, offset), (saddr, ReservedOffset(saddr))})
    ensures old(c.log) <= c.log
  {
    ghost var b := c.State();
    read := RegReadEffect(c.oracle, b, saddr, offset, 0).val;
    WriteOrSpec(c.oracle, b, saddr, offset, mask);
    RegReadSpec(c.oracle, b, saddr, offset, 0);
    ret := c.WriteOr(saddr, offset, mask);
  }

  /**
   * anx7625_write_and, with what it means for the register it changes;
   * `read` is the value its read delivered.
   */
  method ClearBits(c: Chip, saddr: byte, offset: byte, mask: byte) returns (ret: i32, ghost read: byte)
    modifies c
    ensures read == RegReadEffect(c.oracle, old(c.State()), saddr, offset, 0).val
    ensures ret <= 0
    ensures ret == 0 ==> (saddr, offset) in c.regs && c.regs[(saddr, offset)] == And8(read, mask)
    ensures (saddr, offset) in old(c.regs) && !Volatile(saddr, offset) && offset != ReservedOffset(saddr) && ret == 0 ==>
              read == old(c.regs)[(saddr, offset)]
    ensures Agree(old(c.regs), c.regs, {(saddr, offset), (saddr, ReservedOffset(saddr))})
    ensures old(c.log) <= c.log
  {
    ghost var b := c.State();
    read := RegReadEffect(c.oracle, b, saddr, offset, 0).val;
    WriteAndSpec(c.oracle, b, saddr, offset, mask);
    RegReadSpec(c.oracle, b, saddr, offset, 0);
    ret := c.WriteAnd(saddr, offset, mask);
  }

  /**
   * The post-divider half of anx7625_odfc_config: clear the upper nibble of
   * MIPI_DIGITAL_PLL_8, then OR in `postDivider << 4` (as a uint8_t).  When
   * both steps succeed the register holds the divider in its upper nibble
   * and keeps the lower nibble of `low`, the value first read, which is the
   * value last written when the host wrote the register before.
   */
  method SetPostDivider(c: Chip, postDivider: byte) returns (ret: i32, ghost low: byte)
    modifies c
    ensures low == RegReadEffect(c.oracle, old(c.State()), RX_P1_ADDR, MIPI_DIGITAL_PLL_8, 0).val
    ensures ret <= 0
    ensures ret == 0 ==> PLL8_KEY in c.regs
    ensures ret == 0 && postDivider < 0x10 ==> c.regs[PLL8_KEY] as nat == postDivider as nat * 0x10 + low as nat % 0x10
    ensures ret == 0 && PLL8_KEY in old(c.regs) ==> low == old(c.regs)[PLL8_KEY]
    ensures Agree(old(c.regs), c.regs, {PLL8_KEY, P1(ReservedOffset(RX_P1_ADDR))})
    ensures old(c.log) <= c.log
  {
    ret, low := ClearBits(c, RX_P1_ADDR, MIPI_DIGITAL_PLL_8, 0x0F);
    var r;
    ghost var read;
    r, read := SetBits(c, RX_P1_ADDR, MIPI_DIGITAL_PLL_8, LowByte(postDivider as nat * 0x10));
    ret := OrStatus(ret, r);
    if ret == 0 && postDivider < 0x10 {
      NibbleShift(postDivider as nat);
      assert read == And8(low, 0x0F);
      Or8Nibbles(low, postDivider as nat);
    }
  }

  /** The upper and lower nibble of a byte made of the two. */
  lemma Nibbles(x: nat, hi: nat, lo: nat)
    requires lo < 0x10 && x == hi * 0x10 + lo
    ensures x / 0x10 == hi && x % 0x10 == lo
  {
    DivModUnique(x, 0x10, hi, lo);
  }

  /** `p << 4` fits a uint8_t when p is a nibble. */
  lemma NibbleShift(p: nat)
    requires p < 0x10
    ensures LowByte(p * 0x10) == p * 0x10
  {
    DivModUnique(p * 0x10, 0x100, 0, p * 0x10);
  }

  /**
   * anx7625_odfc_config: select the 27 MHz reference clock, set the post
   * divider (see SetPostDivider), apply the VCO tuning patch and pulse the
   * PLL reset.  A success leaves the reference-clock bit of
   * MIPI_DIGITAL_PLL_16 set, the post divider in the upper nibble of
   * MIPI_DIGITAL_PLL_8 over the lower nibble of a register the host wrote
   * before, and MIPI_DIGITAL_PLL_7 with its VCO tuning bits clear and its
   * reset bit set.
   */
  method OdfcConfig(c: Chip, postDivider: byte) returns (ret: i32)
    modifies c
    ensures ret <= 0
    ensures ret == 0 ==> PLL16_KEY in c.regs && And8(c.regs[PLL16_KEY], REF_CLK_27MHZ) == REF_CLK_27MHZ
    ensures ret == 0 ==> PLL8_KEY in c.regs && PLL7_KEY in c.regs
    ensures ret == 0 && postDivider < 0x10 ==> c.regs[PLL8_KEY] as nat / 0x10 == postDivider as nat
    ensures ret == 0 && postDivider < 0x10 && PLL8_KEY in old(c.regs) ==> c.regs[PLL8_KEY] % 0x10 == old(c.regs)[PLL8_KEY] % 0x10
    ensures ret == 0 ==> And8(c.regs[PLL7_KEY], MIPI_PLL_VCO_TUNE_REG_VAL) == 0
    ensures ret == 0 ==> And8(c.regs[PLL7_KEY], MIPI_PLL_RESET_N) == MIPI_PLL_RESET_N
    ensures old(c.log) <= c.log
  {
    ghost var before := c.regs;
    ghost var r;
    ret, r := SelectRefClock(c);
    ghost var before1 := c.regs;
    var s;
    ghost var low;
    s, low := SetPostDivider(c, postDivider);
    ret := OrStatus(ret, s);
    ghost var after := c.regs;
    s, r := ResetPll(c);
    ret := OrStatus(ret, s);
    if ret == 0 {
      PllPatchBits(r);
      assert PLL16_KEY in after && after[PLL16_KEY] == before1[PLL16_KEY];
      assert PLL8_KEY in c.regs && c.regs[PLL8_KEY] == after[PLL8_KEY];
      if postDivider < 0x10 {
        Nibbles(after[PLL8_KEY] as nat, postDivider as nat, low as nat % 0x10);
        if PLL8_KEY in before {
          assert PLL8_KEY in before1 && before1[PLL8_KEY] == before[PLL8_KEY];
        }
      }
    }
  }

  /**
   * The reference-clock steps of anx7625_odfc_config: clear, then set, bit
   * REF_CLK_27000kHz << MIPI_FREF_D_IND of MIPI_DIGITAL_PLL_16, keeping the
   * register's other bits as `r`, the value first read, had them.
   */
  method SelectRefClock(c: Chip) returns (ret: i32, ghost r: byte)
    modifies c
    ensures r == RegReadEffect(c.oracle, old(c.State()), RX_P1_ADDR, MIPI_DIGITAL_PLL_16, 0).val
    ensures ret <= 0
    ensures ret == 0 ==> PLL16_KEY in c.regs && c.regs[PLL16_KEY] == Or8(And8(r, Not8(REF_CLK_27MHZ)), REF_CLK_27MHZ)
    ensures ret == 0 ==> And8(c.regs[PLL16_KEY], REF_CLK_27MHZ) == REF_CLK_27MHZ
    ensures ret == 0 && PLL16_KEY in old(c.regs) ==> r == old(c.regs)[PLL16_KEY]
    ensures Agree(old(c.regs), c.regs, {PLL16_KEY, P1(ReservedOffset(RX_P1_ADDR))})
    ensures old(c.log) <= c.log
  {
    ret, r := ClearBits(c, RX_P1_ADDR, MIPI_DIGITAL_PLL_16, Not8(REF_CLK_27MHZ));
    var s;
    ghost var v;
    s, v := SetBits(c, RX_P1_ADDR, MIPI_DIGITAL_PLL_16, REF_CLK_27MHZ);
    ret := OrStatus(ret, s);
    if ret == 0 {
      Or8SetsMask(v, REF_CLK_27MHZ);
    }
  }

  /**
   * The PLL steps of anx7625_odfc_config: the MIS2-125 patch clears the VCO
   * tuning bits of MIPI_DIGITAL_PLL_7, then its reset bit is cleared and set
   * again; the other bits stay as `r`, the value first read, had them.
   */
  method ResetPll(c: Chip) returns (ret: i32, ghost r: byte)
    modifies c
    ensures r == RegReadEffect(c.oracle, old(c.State()), RX_P1_ADDR, MIPI_DIGITAL_PLL_7, 0).val
    ensures ret <= 0
    ensures ret == 0 ==> PLL7_KEY in c.regs && c.regs[PLL7_KEY] == PllPatched(r)
    ensures ret == 0 && PLL7_KEY in old(c.regs) ==> r == old(c.regs)[PLL7_KEY]
    ensures Agree(old(c.regs), c.regs, {PLL7_KEY, P1(ReservedOffset(RX_P1_ADDR))})
    ensures old(c.log) <= c.log
  {
    ret, r := ClearBits(c, RX_P1_ADDR, MIPI_DIGITAL_PLL_7, Not8(MIPI_PLL_VCO_TUNE_REG_VAL));
    var s;
    ghost var v;
    s, v := ClearBits(c, RX_P1_ADDR, MIPI_DIGITAL_PLL_7, Not8(MIPI_PLL_RESET_N));
    ret := OrStatus(ret, s);
    ghost var w;
    s, w := SetBits(c, RX_P1_ADDR, MIPI_DIGITAL_PLL_7, MIPI_PLL_RESET_N);
    ret := OrStatus(ret, s);
  }

  /** MIPI_DIGITAL_PLL_7 after the patch and the reset pulse, from the value `r` first read. */
  function PllPatched(r: byte): byte
  {
    Or8(And8(And8(r, Not8(MIPI_PLL_VCO_TUNE_REG_VAL)), Not8(MIPI_PLL_RESET_N)), MIPI_PLL_RESET_N)
  }

  /** After the patch and the reset pulse the VCO tuning bits are clear and the reset bit is set, whatever was read. */
  lemma PllPatchBits(r: byte)
    ensures And8(PllPatched(r), MIPI_PLL_VCO_TUNE_REG_VAL) == 0
    ensures And8(PllPatched(r), MIPI_PLL_RESET_N) == MIPI_PLL_RESET_N
  {
    var cleared := And8(r, Not8(MIPI_PLL_VCO_TUNE_REG_VAL));
    And8ClearsMask(r, MIPI_PLL_VCO_TUNE_REG_VAL);
    BitAndKeepsClear(cleared, Not8(MIPI_PLL_RESET_N), MIPI_PLL_VCO_TUNE_REG_VAL);
    assert BitAnd(MIPI_PLL_RESET_N, MIPI_PLL_VCO_TUNE_REG_VAL) == 0;
    BitOrKeepsClear(And8(cleared, Not8(MIPI_PLL_RESET_N)), MIPI_PLL_RESET_N, MIPI_PLL_VCO_TUNE_REG_VAL);
    Or8SetsMask(And8(cleared, Not8(MIPI_PLL_RESET_N)), MIPI_PLL_RESET_N);
  }

  /** The registers written in one run from the horizontal timing to MIPI_DIGITAL_ADJ_1. */
  function VideoWrites(dt: Timing, m: nat, n: nat): (w: seq<Access>)
    ensures |w| == 22
    ensures forall i :: 0 <= i < |w| ==> w[i].Set?
  {
    HorizontalWrites(dt) + VerticalWrites(dt) + MnWrites(m, n) + [Set(P1(MIPI_DIGITAL_ADJ_1), 0x37)]
  }

  /** The timing, M/N and MIPI_DIGITAL_ADJ_1 writes of anx7625_dsi_video_config. */
  method WriteVideo(c: Chip, dt: Timing, m: u32, n: u32) returns (ret: i32)
    modifies c
    ensures ret <= 0
    ensures c.log == old(c.log) + VideoWrites(dt, m as nat, n as nat)
  {
    ret := WriteHorizontal(c, dt);
    var r := WriteVertical(c, dt);
    ret := OrStatus(ret, r);
    r := WriteMn(c, m, n);
    ret := OrStatus(ret, r);
    r := Put(c, RX_P1_ADDR, MIPI_DIGITAL_ADJ_1, 0x37);
    ret := OrStatus(ret, r);
  }

  /**
   * What a successful solve programs: the six M/N registers read back as
   * the reduced ratio, which fits 24 bits with the most precision left,
   * followed by 0x37 in MIPI_DIGITAL_ADJ_1.
   */
  lemma ProgrammedRatio(dt: Timing)
    requires Solvable(ClockHz(dt))
    ensures var pc := ClockHz(dt) as nat;
      var mn := ReducedPair(pc, XTAL_FRQ / Divider(pc));
      var w := VideoWrites(dt, mn.0, mn.1);
      && 0x10000 * w[15].val as nat + 0x100 * w[16].val as nat + w[17].val as nat == mn.0
      && 0x10000 * w[18].val as nat + 0x100 * w[19].val as nat + w[20].val as nat == mn.1
      && (2 * mn.0 >= MAX_UNSIGNED_24BIT || 2 * mn.1 >= MAX_UNSIGNED_24BIT)
      && w[21] == Set(P1(MIPI_DIGITAL_ADJ_1), 0x37)
  {
    var pc := ClockHz(dt) as nat;
    DividerSpec(pc);
    var mn := ReducedPair(pc, XTAL_FRQ / Divider(pc));
    ReductionSpec(pc, XTAL_FRQ / Divider(pc));
    MnWritesDecode(mn.0, mn.1);
    var w := VideoWrites(dt, mn.0, mn.1);
    assert w[15..21] == MnWrites(mn.0, mn.1);
  }

  /**
   * The register writes of anx7625_dsi_video_config once the PLL solver has
   * produced M, N and the post divider: the pixel clock, the lane count,
   * the timing registers, M and N, MIPI_DIGITAL_ADJ_1, and the ODFC with
   * the post divider less one.  `at` is where the timing writes start in
   * the log.
   */
  method ProgramVideo(c: Chip, dt: Timing, m: u32, n: u32, pd: byte) returns (ret: i32, ghost at: nat)
    requires POST_DIVIDER_MIN <= pd as nat <= POST_DIVIDER_MAX
    modifies c
    ensures ret <= 0
    ensures |old(c.log)| + 2 <= at && at + 22 <= |c.log|
    ensures c.log[|old(c.log)|..|old(c.log)| + 2] == PixelClockWrites(dt.pixelclock)
    ensures c.log[at..at + 22] == VideoWrites(dt, m as nat, n as nat)
    ensures ret == 0 ==> PLL8_KEY in c.regs && c.regs[PLL8_KEY] as nat / 0x10 == pd as nat - 1
    ensures old(c.log) <= c.log
  {
    ghost var log0 := c.log;
    ret := WritePixelClock(c, dt.pixelclock);
    ghost var log1 := c.log;
    var r;
    ghost var v;
    r, v := ClearBits(c, RX_P1_ADDR, MIPI_LANE_CTRL_0, 0xFC);
    ret := OrStatus(ret, r);
    r, v := SetBits(c, RX_P1_ADDR, MIPI_LANE_CTRL_0, 0x01);
    ret := OrStatus(ret, r);
    ghost var logA := c.log;
    at := |logA|;
    r := WriteVideo(c, dt, m, n);
    ret := OrStatus(ret, r);
    ghost var log2 := c.log;
    r := OdfcConfig(c, pd - 1);
    ret := OrStatus(ret, r);
    AppendedSlice(log0, PixelClockWrites(dt.pixelclock));
    GrownSlice(log1, c.log, |log0|, |log0| + 2);
    AppendedSlice(logA, VideoWrites(dt, m as nat, n as nat));
    GrownSlice(log2, c.log, at, at + 22);
  }

  /**
   * anx7625_dsi_video_config: solve the PLL for the pixel clock (in Hz,
   * 32-bit), and give up with -1, writing nothing, when there is no
   * solution; otherwise program the receiver with the solver's M, N and
   * post divider (see ProgramVideo).
   */
  method DsiVideoConfig(c: Chip, dt: Timing) returns (ret: i32, ghost at: nat)
    modifies c
    ensures ret <= 0
    ensures !Solvable(ClockHz(dt)) ==> ret == -1 && c.log == old(c.log) && c.regs == old(c.regs)
    ensures Solvable(ClockHz(dt)) ==>
      var pd := Divider(ClockHz(dt));
      var mn := ReducedPair(ClockHz(dt), XTAL_FRQ / pd);
      && |old(c.log)| + 2 <= at && at + 22 <= |c.log|
      && c.log[|old(c.log)|..|old(c.log)| + 2] == PixelClockWrites(dt.pixelclock)
      && c.log[at..at + 22] == VideoWrites(dt, mn.0, mn.1)
    ensures ret == 0 ==>
      && Solvable(ClockHz(dt))
      && PLL8_KEY in c.regs
      && c.regs[PLL8_KEY] as nat / 0x10 == Divider(ClockHz(dt)) - 1
    ensures old(c.log) <= c.log
  {
    var solved, m, n, pd := CalculateMN(ClockHz(dt), 0, 0, 0);
    if solved != 0 {
      ret, at := -1, 0;
      return;
    }
    DividerSpec(ClockHz(dt));
    ret, at := ProgramVideo(c, dt, m, n, pd);
  }

  /**
   * anx7625_swap_dsi_lane3 on a bus: read MIPI_SWAP, give up with -1 when
   * that fails, otherwise write it back with bit MIPI_SWAP_CH3 set and
   * return the status of that write.
   */
  ghost function SwapEffect(o: Oracle, b: Bus): Outcome
  {
    var rd := RegReadEffect(o, b, RX_P1_ADDR, MIPI_SWAP, 0);
    if rd.ret < 0 then Outcome(rd.bus, -1)
    else RegWriteEffect(o, rd.bus, RX_P1_ADDR, MIPI_SWAP, Or8(rd.val, 0x10))
  }

  /** anx7625_swap_dsi_lane3: set bit MIPI_SWAP_CH3 of MIPI_SWAP, unless reading it fails. */
  method SwapDsiLane3(c: Chip) returns (ret: i32)
    modifies c
    ensures Outcome(c.State(), ret) == SwapEffect(c.oracle, old(c.State()))
    ensures ret <= 0
    ensures |c.log| > |old(c.log)| && c.log[..|old(c.log)| + 1] == old(c.log) + [Get(P1(MIPI_SWAP))]
    ensures ret == 0 ==>
      && P1(MIPI_SWAP) in c.regs
      && And8(c.regs[P1(MIPI_SWAP)], 0x10) == 0x10
      && (P1(MIPI_SWAP) in old(c.regs) ==> c.regs[P1(MIPI_SWAP)] == Or8(old(c.regs)[P1(MIPI_SWAP)], 0x10))
    ensures Agree(old(c.regs), c.regs, {P1(MIPI_SWAP), P1(ReservedOffset(RX_P1_ADDR))})
    ensures old(c.log) <= c.log
  {
    ghost var b0 := c.State();
    var r, val := Fetch(c, RX_P1_ADDR, MIPI_SWAP);
    assert Agree(b0.regs, c.regs, {P1(ReservedOffset(RX_P1_ADDR))}) by {
      RegReadSpec(c.oracle, b0, RX_P1_ADDR, MIPI_SWAP, 0);
    }
    if r < 0 {
      return -1;
    }
    // val |= 1 << MIPI_SWAP_CH3
    ghost var b1 := c.State();
    ret := Put(c, RX_P1_ADDR, MIPI_SWAP, Or8(val, 0x10));
    assert Agree(b1.regs, c.regs, {P1(MIPI_SWAP), P1(ReservedOffset(RX_P1_ADDR))}) by {
      RegWriteSpec(c.oracle, b1, RX_P1_ADDR, MIPI_SWAP, Or8(val, 0x10));
    }
    GrownSlice(b1.log, c.log, 0, |b1.log|);
    Or8SetsMask(val, 0x10);
  }

  /**
   * The end of anx7625_api_dsi_config: toggle the M/N ready bits (the
   * one-millisecond delay between the two is not modelled), set the
   * integer stable count and power on the MIPI receiver.
   */
  method EnableMipiRx(c: Chip) returns (ret: i32)
    modifies c
    ensures ret <= 0
    ensures ret == 0 ==> P1(MIPI_LANE_CTRL_10) in c.regs && c.regs[P1(MIPI_LANE_CTRL_10)] == 0x80
    ensures old(c.log) <= c.log
  {
    ghost var v;
    ret, v := ClearBits(c, RX_P1_ADDR, MIPI_DIGITAL_PLL_6, Not8(MIPI_M_NUM_READY + MIPI_N_NUM_READY));
    var r;
    r, v := SetBits(c, RX_P1_ADDR, MIPI_DIGITAL_PLL_6, MIPI_M_NUM_READY + MIPI_N_NUM_READY);
    ret := OrStatus(ret, r);
    r := Put(c, RX_P1_ADDR, MIPI_VIDEO_STABLE_CNT, 0x02);
    ret := OrStatus(ret, r);
    r := Put(c, RX_P1_ADDR, MIPI_LANE_CTRL_10, 0x00);
    ret := OrStatus(ret, r);
    r := Put(c, RX_P1_ADDR, MIPI_LANE_CTRL_10, 0x80);
    ret := OrStatus(ret, r);
  }

  /**
   * anx7625_api_dsi_config: swap lane 3, set the DSI clock controls, select
   * DSI, configure the video path, then toggle the M/N ready bits, set the
   * stable count and power on the MIPI receiver.  Only a failed lane swap
   * (status `swap`) stops it before the video configuration, so after a
   * successful swap an accepted clock is always programmed; nothing after
   * the video configuration is done when it fails, so a pixel clock the
   * PLL cannot reach always fails.
   */
  method ApiDsiConfig(c: Chip, dt: Timing) returns (ret: i32, ghost swap: i32, ghost at0: nat, ghost at: nat)
    modifies c
    ensures swap == SwapEffect(c.oracle, old(c.State())).ret
    ensures ret <= 0
    ensures !Solvable(ClockHz(dt)) ==> ret < 0
    ensures swap == 0 && Solvable(ClockHz(dt)) ==> Programmed(dt, old(c.log), c.log, at0, at)
    ensures ret == 0 ==> swap == 0 && Solvable(ClockHz(dt)) && P1(MIPI_LANE_CTRL_10) in c.regs && c.regs[P1(MIPI_LANE_CTRL_10)] == 0x80
    ensures old(c.log) <= c.log
  {
    at0, at := 0, 0;
    var stop;
    ret, stop, swap := SelectDsi(c);
    if stop {
      return;
    }
    var r;
    ghost var log0 := c.log;
    r, at := DsiVideoConfig(c, dt);
    at0 := |log0|;
    ret := OrStatus(ret, r);
    if ret < 0 {
      return;
    }
    ghost var log1 := c.log;
    ret := EnableMipiRx(c);
    ProgrammedGrown(dt, old(c.log), log1, c.log, at0, at);
  }

  /**
   * The first steps of anx7625_api_dsi_config: swap lane 3, whose status is
   * `swap`, and stop there with that status when it fails; otherwise set
   * the DSI clock controls (MIPI_CLK_RT_MANUAL_PD_EN and
   * MIPI_CLK_HS_MANUAL_PD_EN, 0x18) in MIPI_PHY_CONTROL_3 and select DSI
   * (SELECT_DSI << MIPI_DPI_SELECT, 0x20) in MIPI_DIGITAL_PLL_18.
   */
  method SelectDsi(c: Chip) returns (ret: i32, stop: bool, ghost swap: i32)
    modifies c
    ensures swap == SwapEffect(c.oracle, old(c.State())).ret
    ensures swap <= 0 && (stop <==> swap < 0)
    ensures stop ==> ret == swap
    ensures ret <= 0
    ensures !stop ==> P1(MIPI_SWAP) in c.regs && And8(c.regs[P1(MIPI_SWAP)], 0x10) == 0x10
    ensures ret == 0 ==> && P1(MIPI_PHY_CONTROL_3) in c.regs && c.regs[P1(MIPI_PHY_CONTROL_3)] == 0x18
                         && P1(MIPI_DIGITAL_PLL_18) in c.regs && And8(c.regs[P1(MIPI_DIGITAL_PLL_18)], 0x20) == 0x20
    ensures Agree(old(c.regs), c.regs, {P1(MIPI_SWAP), P1(MIPI_PHY_CONTROL_3), P1(MIPI_DIGITAL_PLL_18), P1(ReservedOffset(RX_P1_ADDR))})
    ensures old(c.log) <= c.log
  {
    ret := SwapDsiLane3(c);
    swap := ret;
    stop := ret < 0;
    if stop {
      return;
    }
    ghost var swapped := c.regs;
    ret := SetDsiMode(c);
    assert c.regs[P1(MIPI_SWAP)] == swapped[P1(MIPI_SWAP)];
  }

  /** The DSI clock controls and the selection of DSI, the steps after the lane swap. */
  method SetDsiMode(c: Chip) returns (ret: i32)
    modifies c
    ensures ret <= 0
    ensures ret == 0 ==> && P1(MIPI_PHY_CONTROL_3) in c.regs && c.regs[P1(MIPI_PHY_CONTROL_3)] == 0x18
                         && P1(MIPI_DIGITAL_PLL_18) in c.regs && And8(c.regs[P1(MIPI_DIGITAL_PLL_18)], 0x20) == 0x20
    ensures Agree(old(c.regs), c.regs, {P1(MIPI_PHY_CONTROL_3), P1(MIPI_DIGITAL_PLL_18), P1(ReservedOffset(RX_P1_ADDR))})
    ensures old(c.log) <= c.log
  {
    ghost var b0 := c.State();
    ret := Put(c, RX_P1_ADDR, MIPI_PHY_CONTROL_3, 0x18);
    assert Agree(b0.regs, c.regs, {P1(MIPI_PHY_CONTROL_3), P1(ReservedOffset(RX_P1_ADDR))}) by {
      RegWriteSpec(c.oracle, b0, RX_P1_ADDR, MIPI_PHY_CONTROL_3, 0x18);
    }
    ghost var clocked := c.regs;
    var r;
    ghost var v;
    r, v := SetBits(c, RX_P1_ADDR, MIPI_DIGITAL_PLL_18, 0x20);
    ret := OrStatus(ret, r);
    if ret == 0 {
      Or8SetsMask(v, 0x20);
      assert c.regs[P1(MIPI_PHY_CONTROL_3)] == clocked[P1(MIPI_PHY_CONTROL_3)];
    }
  }

  /**
   * The log from `before` to `log` holds, from entry `at0`, the pixel clock
   * of `dt` and, from entry `at`, its timing with the M/N pair the solver
   * picks for it.
   */
  ghost predicate Programmed(dt: Timing, before: seq<Access>, log: seq<Access>, at0: nat, at: nat)
  {
    && Solvable(ClockHz(dt))
    && var mn := ReducedPair(ClockHz(dt), XTAL_FRQ / Divider(ClockHz(dt)));
    && |before| <= at0 && at0 + 2 <= at && at + 22 <= |log|
    && log[at0..at0 + 2] == PixelClockWrites(dt.pixelclock)
    && log[at..at + 22] == VideoWrites(dt, mn.0, mn.1)
  }

  /** What a log records stays recorded as it grows. */
  lemma ProgrammedGrown(dt: Timing, before: seq<Access>, log: seq<Access>, log': seq<Access>, at0: nat, at: nat)
    requires Programmed(dt, before, log, at0, at) && log <= log'
    ensures Programmed(dt, before, log', at0, at)
  {
    GrownSlice(log, log', at0, at0 + 2);
    GrownSlice(log, log', at, at + 22);
  }

  /** The bus after the DSC disable that opens anx7625_dsi_config. */
  ghost function DscOff(o: Oracle, b: Bus): Bus
  {
    WriteAndEffect(o, b, RX_P0_ADDR, R_DSC_CTRL_0, Not8(DSC_EN)).bus
  }

  /**
   * anx7625_dsi_config: disable DSC and configure the DSI receiver, which
   * happens whatever the DSC write returned; on success enable MIPI RX and
   * clear the mute flag in AP_AV_STATUS.  `swap` is the lane swap's status.
   */
  method DsiConfig(c: Chip, dt: Timing) returns (ret: i32, ghost swap: i32, ghost at0: nat, ghost at: nat)
    modifies c
    ensures swap == SwapEffect(c.oracle, DscOff(c.oracle, old(c.State()))).ret
    ensures ret <= 0
    ensures !Solvable(ClockHz(dt)) ==> ret < 0
    ensures swap == 0 && Solvable(ClockHz(dt)) ==> Programmed(dt, old(c.log), c.log, at0, at)
    ensures ret == 0 ==> swap == 0 && Solvable(ClockHz(dt)) && P0(AP_AV_STATUS) in c.regs && And8(c.regs[P0(AP_AV_STATUS)], AP_MIPI_MUTE) == 0
    ensures old(c.log) <= c.log
  {
    ghost var b0 := c.State();
    ret := c.WriteAnd(RX_P0_ADDR, R_DSC_CTRL_0, Not8(DSC_EN));
    assert ret <= 0 && b0.log <= c.log by {
      WriteAndSpec(c.oracle, b0, RX_P0_ADDR, R_DSC_CTRL_0, Not8(DSC_EN));
    }
    ghost var log0 := c.log;
    var r;
    r, swap, at0, at := ApiDsiConfig(c, dt);
    ret := OrStatus(ret, r);
    ghost var log1 := c.log;
    if swap == 0 && Solvable(ClockHz(dt)) {
      ProgrammedWider(dt, old(c.log), log0, log1, at0, at);
    }
    if ret < 0 {
      return;
    }
    ghost var v;
    ret, v := SetBits(c, RX_P0_ADDR, AP_AV_STATUS, AP_MIPI_RX_EN);
    r, v := ClearBits(c, RX_P0_ADDR, AP_AV_STATUS, Not8(AP_MIPI_MUTE));
    ret := OrStatus(ret, r);
    if ret == 0 {
      And8ClearsMask(v, AP_MIPI_MUTE);
    }
    ProgrammedGrown(dt, old(c.log), log1, c.log, at0, at);
  }

  /** A record made after `later` is one made after any earlier log. */
  lemma ProgrammedWider(dt: Timing, before: seq<Access>, later: seq<Access>, log: seq<Access>, at0: nat, at: nat)
    requires Programmed(dt, later, log, at0, at) && before <= later
    ensures Programmed(dt, before, log, at0, at)
  {
  }
}
