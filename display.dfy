/*
 * Starting the display path: the timing taken from the sink's EDID or from
 * the driver's table of known modes, the pixel clock snapped to what the
 * LTDC's PLL3 can produce, and the DSI configuration that follows.
 */
module Display {
  import opened CTypes
  import opened Registers
  import opened I2c
  import opened Pll
  import opened Video

  /** The detailed timing of struct edid_mode; every field is an unsigned int. */
  datatype EdidMode = EdidMode(pixelClock: u32, ha: u32, hbl: u32, hso: u32, hspw: u32, hborder: u32,
                               va: u32, vbl: u32, vso: u32, vspw: u32, vborder: u32)

  /** An entry of the driver's table of known modes (its name and refresh rate are only printed). */
  datatype KnownMode = KnownMode(pixelClock: u32, hactive: u32, hbackPorch: u32, hfrontPorch: u32, hsyncLen: u32,
                                 hpol: Bit, vactive: u32, vbackPorch: u32, vfrontPorch: u32, vsyncLen: u32,
                                 vpol: Bit)

  // enum edid_modes
  const EDID_MODE_1920x1080_60Hz: nat := 6
  const NUM_KNOWN_MODES: nat := 7
  const EDID_MODE_AUTO: nat := 8

  /**
   * anx7625_parse_edid: the porches follow from the blanking interval, the
   * sync offset and pulse width and the border, all subtracted in unsigned
   * 32-bit arithmetic.  The polarities are not set; they keep whatever
   * `dt0` held.
   */
  function ParseEdid(m: EdidMode, dt0: Timing): Timing
  {
    dt0.(pixelclock := m.pixelClock,
         hactive := m.ha, hsyncLen := m.hspw,
         hbackPorch := Wrap32(m.hbl - m.hso - m.hborder - m.hspw),
         hfrontPorch := Wrap32(m.hso - m.hborder),
         vactive := m.va, vsyncLen := m.vspw,
         vfrontPorch := Wrap32(m.vso - m.vborder),
         vbackPorch := Wrap32(m.vbl - m.vso - m.vspw - m.vborder))
  }

  /** Adding a multiple of 2^32 does not change a value converted to uint32_t. */
  lemma WrapShift(x: int, k: int)
    ensures Wrap32(x + k * 0x1_0000_0000) == Wrap32(x)
  {
    DivModUnique(x + k * 0x1_0000_0000, 0x1_0000_0000, x / 0x1_0000_0000 + k, Wrap32(x));
  }

  /** The horizontal blanking without its two borders, modulo 2^32, whatever the EDID holds. */
  lemma HorizontalBlankingWraps(m: EdidMode, dt0: Timing)
    ensures var dt := ParseEdid(m, dt0);
      Wrap32(dt.hfrontPorch + dt.hsyncLen + dt.hbackPorch) == Wrap32(m.hbl - 2 * m.hborder)
  {
    var dt := ParseEdid(m, dt0);
    var f := m.hso - m.hborder;
    var k := m.hbl - m.hso - m.hborder - m.hspw;
    assert dt.hfrontPorch == f - (f / 0x1_0000_0000) * 0x1_0000_0000;
    assert dt.hbackPorch == k - (k / 0x1_0000_0000) * 0x1_0000_0000;
    WrapShift(m.hbl - 2 * m.hborder, -(f / 0x1_0000_0000 + k / 0x1_0000_0000));
  }

  /** The vertical blanking without its two borders, modulo 2^32, whatever the EDID holds. */
  lemma VerticalBlankingWraps(m: EdidMode, dt0: Timing)
    ensures var dt := ParseEdid(m, dt0);
      Wrap32(dt.vfrontPorch + dt.vsyncLen + dt.vbackPorch) == Wrap32(m.vbl - 2 * m.vborder)
  {
    var dt := ParseEdid(m, dt0);
    var f := m.vso - m.vborder;
    var k := m.vbl - m.vso - m.vspw - m.vborder;
    assert dt.vfrontPorch == f - (f / 0x1_0000_0000) * 0x1_0000_0000;
    assert dt.vbackPorch == k - (k / 0x1_0000_0000) * 0x1_0000_0000;
    WrapShift(m.vbl - 2 * m.vborder, -(f / 0x1_0000_0000 + k / 0x1_0000_0000));
  }

  /**
   * A well-formed detailed timing (the sync pulse inside the blanking, after
   * the border) parses without wrap-around: the front porch ends where the
   * sync starts, and front porch, sync and back porch fill the blanking.
   */
  lemma ParseEdidExact(m: EdidMode, dt0: Timing)
    requires m.hborder <= m.hso && m.hso + m.hborder + m.hspw <= m.hbl
    requires m.vborder <= m.vso && m.vso + m.vspw + m.vborder <= m.vbl
    ensures var dt := ParseEdid(m, dt0);
      && dt.hfrontPorch + m.hborder == m.hso
      && dt.hfrontPorch + dt.hsyncLen + dt.hbackPorch + 2 * m.hborder == m.hbl
      && dt.vfrontPorch + m.vborder == m.vso
      && dt.vfrontPorch + dt.vsyncLen + dt.vbackPorch + 2 * m.vborder == m.vbl
      && dt.hpol == dt0.hpol && dt.vpol == dt0.vpol
  {
  }

  /** envie_known_modes; the 1920x1080 entry is left all zero. */
  function KnownModes(): (t: seq<KnownMode>)
    ensures |t| == NUM_KNOWN_MODES
  {
    [KnownMode(29400, 640, 160, 16, 96, 0, 480, 45, 10, 2, 0),
     KnownMode(27800, 720, 60, 16, 62, 0, 480, 45, 9, 6, 0),
     KnownMode(37800, 800, 104, 24, 80, 0, 600, 17, 3, 4, 0),
     KnownMode(57800, 1024, 80, 24, 68, 0, 768, 29, 3, 6, 0),
     KnownMode(68300, 1280, 120, 32, 20, 0, 768, 10, 45, 12, 0),
     KnownMode(74300, 1280, 370, 110, 40, 0, 720, 30, 5, 20, 0),
     KnownMode(0, 0, 0, 0, 0, 0, 0, 0, 0, 0, 0)]
  }

  /** The modes anx7625_dp_start accepts without indexing past the table. */
  predicate ValidMode(mode: nat)
  {
    mode < NUM_KNOWN_MODES || mode == EDID_MODE_AUTO
  }

  /** A known mode replaces every timing field the driver programs, polarities included. */
  function SelectTiming(mode: nat, dt: Timing): (r: Timing)
    requires ValidMode(mode)
    ensures mode == EDID_MODE_AUTO ==> r == dt
  {
    if mode == EDID_MODE_AUTO then dt
    else
      var k := KnownModes()[mode];
      Timing(k.pixelClock, k.hactive, k.hbackPorch, k.hfrontPorch, k.hsyncLen,
             k.vactive, k.vbackPorch, k.vfrontPorch, k.vsyncLen, k.hpol, k.vpol)
  }

  /** A known mode's timing does not depend on the EDID at all. */
  lemma KnownModeIgnoresEdid(mode: nat, dt1: Timing, dt2: Timing)
    requires mode < NUM_KNOWN_MODES
    ensures SelectTiming(mode, dt1) == SelectTiming(mode, dt2)
    ensures SelectTiming(mode, dt1).pixelclock == KnownModes()[mode].pixelClock
  {
  }

  // ---------------------------------------------------------------------
  // The pixel-clock snap of config()
  // ---------------------------------------------------------------------

  /** The frequency step after a clock of `pc` kHz: 200 kHz once PLL3N would pass 512, sticky. */
  function NextStep(pc: u32, step: u32): (s: u32)
    requires step == 100 || step == 200
    ensures s == 100 || s == 200
    ensures step == 200 ==> s == 200
    ensures s == 200 <==> step == 200 || pc / 100 > 512
  {
    if pc / step > 512 then 200 else step
  }

  /** PLL3N * step: the clock rounded down to a multiple of the step. */
  function Snapped(pc: u32, step: u32): (r: u32)
    requires step > 0
    ensures r <= pc < r + step
    ensures r % step == 0
  {
    FloorMultiple(pc, step);
    pc / step * step
  }

  /** Snapping is idempotent: a clock on the grid stays where it is. */
  lemma SnappedIdempotent(pc: u32, step: u32)
    requires step > 0
    ensures Snapped(Snapped(pc, step), step) == Snapped(pc, step)
  {
    var r := Snapped(pc, step);
    DivModUnique(r, step, pc / step, 0);
  }

  /**
   * The static LTDC_FREQ_STEP of config(): it starts at 100 kHz and, once a
   * clock has needed the coarser step, stays at 200 kHz.
   */
  class LtdcClock {
    var step: u32

    ghost predicate Valid()
      reads this
    {
      step == 100 || step == 200
    }

    constructor ()
      ensures Valid() && step == 100
    {
      step := 100;
    }

    /** Update the step for `dt`'s clock, then snap the clock down onto its grid. */
    method Snap(dt: Timing) returns (r: Timing)
      requires Valid()
      modifies this
      ensures Valid()
      ensures step == NextStep(dt.pixelclock, old(step))
      ensures r == dt.(pixelclock := Snapped(dt.pixelclock, step))
    {
      if dt.pixelclock / step > 512 {
        step := 200;
      }
      var pll3n := dt.pixelclock / step;
      r := dt.(pixelclock := pll3n * step);
    }
  }

  /**
   * The known modes' clocks after the snap.  Every clock above 51.2 MHz
   * (57.8, 68.3 and 74.3 MHz here) forces the 200 kHz step.
   */
  const SNAPPED_CLOCKS: seq<u32> := [29400, 27800, 37800, 57800, 68200, 74200, 0]

  /** Snapping a known mode's clock, whatever the step before, gives SNAPPED_CLOCKS. */
  lemma SnappedKnownClock(mode: nat, step: u32)
    requires mode < NUM_KNOWN_MODES
    requires step == 100 || step == 200
    ensures var pc := KnownModes()[mode].pixelClock;
      Snapped(pc, NextStep(pc, step)) == SNAPPED_CLOCKS[mode]
  {
    var pc := KnownModes()[mode].pixelClock;
    var s := NextStep(pc, step);
    if mode == 4 || mode == 5 {
      assert s == 200;
    } else if s == 100 {
      assert Snapped(pc, 100) == pc / 100 * 100;
    } else {
      assert Snapped(pc, 200) == pc / 200 * 200;
    }
  }

  /**
   * Every populated known mode, snapped with either step, is a clock the
   * MIPI PLL solver accepts; the all-zero 1920x1080 entry is not.
   */
  lemma KnownModesSolvable(mode: nat, step: u32)
    requires mode < NUM_KNOWN_MODES
    requires step == 100 || step == 200
    ensures var k := KnownModes()[mode];
      var s := NextStep(k.pixelClock, step);
      Solvable(ClockHz(Timing(Snapped(k.pixelClock, s), 0, 0, 0, 0, 0, 0, 0, 0, 0, 0))) <==> mode != EDID_MODE_1920x1080_60Hz
  {
    var k := KnownModes()[mode];
    var s := NextStep(k.pixelClock, step);
    SnappedKnownClock(mode, step);
    var hz := ClockHz(Timing(Snapped(k.pixelClock, s), 0, 0, 0, 0, 0, 0, 0, 0, 0, 0));
    if mode == EDID_MODE_1920x1080_60Hz {
      assert hz == 0;
      SolvableRanges(0);
    } else {
      var snapped := SNAPPED_CLOCKS[mode];
      assert 27800 <= snapped <= 74200;
      DivModUnique(snapped * 1000, 0x1_0000_0000, 0, snapped * 1000);
      assert hz == snapped * 1000;
      SolvableRanges(hz);
    }
  }

  /** The solver's verdict depends only on the pixel clock. */
  lemma SolvableClockOnly(a: Timing, b: Timing)
    requires a.pixelclock == b.pixelclock
    ensures Solvable(ClockHz(a)) <==> Solvable(ClockHz(b))
  {
  }

  /**
   * anx7625_dp_start: parse the EDID's timing, let a known mode override
   * it, snap the pixel clock for the LTDC, and configure the DSI receiver.
   * `dt0` stands for the uninitialised stack timing whose polarities the
   * EDID path never sets.  The timing programmed is returned as `dt` and
   * the lane swap's status as `swap`; once the swap succeeded and the clock
   * is accepted (as it is for every known mode below 1920x1080) the log
   * records its pixel clock from entry `at0` and its timing, with the
   * solver's M/N pair, from entry `at`.  Of `config`
   * only the pixel-clock snap is modelled: its division by the pixel clock,
   * zero for the 1920x1080 entry, is taken not to trap.
   */
  method DpStart(c: Chip, clock: LtdcClock, edid: EdidMode, mode: nat, dt0: Timing)
    returns (ret: i32, ghost dt: Timing, ghost swap: i32, ghost at0: nat, ghost at: nat)
    requires ValidMode(mode)
    requires clock.Valid()
    modifies c, clock
    ensures clock.Valid()
    ensures dt == (var t := SelectTiming(mode, ParseEdid(edid, dt0));
                   t.(pixelclock := Snapped(t.pixelclock, clock.step)))
    ensures clock.step == NextStep(SelectTiming(mode, ParseEdid(edid, dt0)).pixelclock, old(clock.step))
    ensures ret <= 0
    ensures swap == SwapEffect(c.oracle, DscOff(c.oracle, old(c.State()))).ret
    ensures swap == 0 && Solvable(ClockHz(dt)) ==> Programmed(dt, old(c.log), c.log, at0, at)
    ensures swap == 0 && mode < EDID_MODE_1920x1080_60Hz ==> Programmed(dt, old(c.log), c.log, at0, at)
    ensures ret == 0 ==> swap == 0 && Solvable(ClockHz(dt)) && Programmed(dt, old(c.log), c.log, at0, at)
    ensures mode == EDID_MODE_1920x1080_60Hz ==> ret < 0
    ensures old(c.log) <= c.log
  {
    var t := ParseEdid(edid, dt0);
    t := SelectTiming(mode, t);
    ghost var oldStep := clock.step;
    t := clock.Snap(t);
    dt := t;
    if mode == EDID_MODE_1920x1080_60Hz {
      KnownModesSolvable(mode, oldStep);
      SolvableClockOnly(t, Timing(Snapped(0, clock.step), 0, 0, 0, 0, 0, 0, 0, 0, 0, 0));
    } else if mode < EDID_MODE_1920x1080_60Hz {
      KnownModeClockAccepted(mode, edid, dt0, oldStep);
    }
    ret, swap, at0, at := DsiConfig(c, t);
  }

  /** With a populated known mode the PLL solver never rejects the clock dp_start programs. */
  lemma KnownModeClockAccepted(mode: nat, edid: EdidMode, dt0: Timing, step: u32)
    requires mode < EDID_MODE_1920x1080_60Hz
    requires step == 100 || step == 200
    ensures var t := SelectTiming(mode, ParseEdid(edid, dt0));
      Solvable(ClockHz(t.(pixelclock := Snapped(t.pixelclock, NextStep(t.pixelclock, step)))))
  {
    var t := SelectTiming(mode, ParseEdid(edid, dt0));
    var k := KnownModes()[mode];
    KnownModesSolvable(mode, step);
    SolvableClockOnly(t.(pixelclock := Snapped(t.pixelclock, NextStep(t.pixelclock, step))),
                      Timing(Snapped(k.pixelClock, NextStep(k.pixelClock, step)), 0, 0, 0, 0, 0, 0, 0, 0, 0, 0));
  }
}
