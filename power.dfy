/*
 * Bringing the chip up and watching the sink: the power-on handshake with
 * the on-chip firmware, the hot-plug poll that starts DisplayPort work, and
 * the power-role query.  GPIO toggling and delays are not modelled.
 *
 * As in the register layer, each operation is a pure `...Effect` function
 * of the bus state, about which the lemmas are stated, and a method on the
 * chip written as the driver is, whose contract ties it to that function.
 */
module Power {
  import opened CTypes
  import opened Registers
  import opened I2c

  /** The polls anx7625_wait_hpd_event makes before giving up: `--retry` from 10000. */
  const HPD_POLLS: nat := 9999
  /** The power_on_init attempts anx7625_init makes: `--retry` from 3. */
  const POWER_ON_ATTEMPTS: nat := 2
  /** Bit 3 of SYSTEM_STSTUS: the chip provides VBUS. */
  const VBUS_PROVIDER: byte := 0x08
  /** anx7625_start_dp_work's masks: HDCP off, auth flag, DRM interrupt. */
  const HDCP_OFF_MASK: byte := 0x9F
  const AUTH_FLAG: byte := 0x10
  const DRM_INT: byte := 0x01

  // ---------------------------------------------------------------------
  // anx7625_power_on_init
  // ---------------------------------------------------------------------

  /**
   * One pass of the firmware-loading loop: the bus after it, the status of
   * the FLASH_LOAD_STA read and the byte read, and the version and revision
   * bytes as they stand after the pass.
   */
  datatype FlashPoll = FlashPoll(bus: Bus, ret: i32, load: byte, version: byte, revision: byte)

  /** The flash-load bit is set. */
  predicate Loaded(p: FlashPoll)
  {
    p.ret >= 0 && And8(p.load, FLASH_LOAD_STA_CHK) == FLASH_LOAD_STA_CHK
  }

  /** The firmware is up: the flash is loaded and reports a non-zero version or revision. */
  predicate Ready(p: FlashPoll)
  {
    Loaded(p) && !(p.version == 0 && p.revision == 0)
  }

  /**
   * One pass of the loop: read FLASH_LOAD_STA and, when the flash is
   * loaded, the firmware version and revision, whose read statuses are
   * ignored (a failed read keeps the earlier value).  The destination of
   * the first read is never looked at after a failure, so it starts at 0.
   */
  function PollFlashEffect(o: Oracle, b: Bus, version: byte, revision: byte): FlashPoll
  {
    var rd := RegReadEffect(o, b, RX_P0_ADDR, FLASH_LOAD_STA, 0);
    if rd.ret < 0 || And8(rd.val, FLASH_LOAD_STA_CHK) != FLASH_LOAD_STA_CHK then
      FlashPoll(rd.bus, rd.ret, rd.val, version, revision)
    else
      var v := RegReadEffect(o, rd.bus, RX_P0_ADDR, OCM_FW_VERSION, version);
      var r := RegReadEffect(o, v.bus, RX_P0_ADDR, OCM_FW_REVERSION, revision);
      FlashPoll(r.bus, rd.ret, rd.val, v.val, r.val)
  }

  /** The reads one pass issues. */
  function PollReads(p: FlashPoll): (w: seq<Access>)
    ensures |w| == 1 || |w| == 3
    ensures |w| == 3 <==> Loaded(p)
  {
    [Get(P0(FLASH_LOAD_STA))] + (if Loaded(p) then [Get(P0(OCM_FW_VERSION)), Get(P0(OCM_FW_REVERSION))] else [])
  }

  /** The reads of a sequence of passes, in order. */
  function AllPollReads(ps: seq<FlashPoll>): seq<Access>
  {
    if ps == [] then [] else PollReads(ps[0]) + AllPollReads(ps[1..])
  }

  /** Where power_on_init stands: the bus, the status it returns, and the passes made. */
  datatype Loading = Loading(bus: Bus, ret: i32, polls: seq<FlashPoll>)

  /**
   * The loop of power_on_init with `left` passes to go: a failed
   * FLASH_LOAD_STA read ends it with that status, a ready firmware with 0;
   * running out of passes gives -1.
   */
  function LoadLoop(o: Oracle, b: Bus, version: byte, revision: byte, polls: seq<FlashPoll>, left: nat): Loading
    decreases left
  {
    if left == 0 then Loading(b, -1, polls)
    else
      var p := PollFlashEffect(o, b, version, revision);
      if p.ret < 0 then Loading(p.bus, p.ret, polls + [p])
      else if Ready(p) then Loading(p.bus, 0, polls + [p])
      else LoadLoop(o, p.bus, p.version, p.revision, polls + [p], left - 1)
  }

  /**
   * anx7625_power_on_init: select the 27 MHz crystal (its status is
   * ignored), then poll up to OCM_LOADING_TIME times for the firmware.  The
   * version and revision locals start uninitialised.
   */
  function PowerOnEffect(o: Oracle, b: Bus): Loading
  {
    var w := RegWriteEffect(o, b, RX_P0_ADDR, XTAL_FRQ_SEL, XTAL_FRQ_27M);
    LoadLoop(o, w.bus, Stale(o, b, 0), Stale(o, b, 1), [], OCM_LOADING_TIME)
  }

  /**
   * A pass reads FLASH_LOAD_STA as the chip reports it; only a loaded flash
   * leads to the version and revision reads, each of which yields the byte
   * the chip delivered, or keeps the earlier value when it fails.
   */
  lemma PollFlashSpec(o: Oracle, b: Bus, version: byte, revision: byte)
    ensures var rd := RegReadEffect(o, b, RX_P0_ADDR, FLASH_LOAD_STA, 0);
      var v := RegReadEffect(o, rd.bus, RX_P0_ADDR, OCM_FW_VERSION, version);
      var r := RegReadEffect(o, v.bus, RX_P0_ADDR, OCM_FW_REVERSION, revision);
      var p := PollFlashEffect(o, b, version, revision);
      && p.ret == rd.ret
      && (p.ret >= 0 ==> p.ret == p.load && p.load == o.payload(|rd.bus.trace| - 1, 0))
      && (!Loaded(p) ==> p.bus == rd.bus && p.version == version && p.revision == revision)
      && (Loaded(p) ==> p.bus == r.bus)
      && (Loaded(p) && v.ret >= 0 ==> p.version == o.payload(|v.bus.trace| - 1, 0))
      && (Loaded(p) && v.ret < 0 ==> p.version == version)
      && (Loaded(p) && r.ret >= 0 ==> p.revision == o.payload(|r.bus.trace| - 1, 0))
      && (Loaded(p) && r.ret < 0 ==> p.revision == revision)
      && p.bus.log == b.log + PollReads(p)
  {
    var rd := RegReadEffect(o, b, RX_P0_ADDR, FLASH_LOAD_STA, 0);
    var v := RegReadEffect(o, rd.bus, RX_P0_ADDR, OCM_FW_VERSION, version);
    var r := RegReadEffect(o, v.bus, RX_P0_ADDR, OCM_FW_REVERSION, revision);
    RegReadSpec(o, b, RX_P0_ADDR, FLASH_LOAD_STA, 0);
    RegReadSpec(o, rd.bus, RX_P0_ADDR, OCM_FW_VERSION, version);
    RegReadSpec(o, v.bus, RX_P0_ADDR, OCM_FW_REVERSION, revision);
  }

  /** One pass of the loop, unfolded. */
  lemma LoadLoopStep(o: Oracle, b: Bus, version: byte, revision: byte, polls: seq<FlashPoll>, left: nat)
    requires left > 0
    ensures var p := PollFlashEffect(o, b, version, revision);
      LoadLoop(o, b, version, revision, polls, left)
      == if p.ret < 0 then Loading(p.bus, p.ret, polls + [p])
         else if Ready(p) then Loading(p.bus, 0, polls + [p])
         else LoadLoop(o, p.bus, p.version, p.revision, polls + [p], left - 1)
  {
  }

  /**
   * The passes of the loop: at least one and at most `left` are added; the
   * first reads from `b` with the version and revision given, each later
   * one from where the one before left the bus with the bytes it left; and
   * every pass but the last read a flash that was not ready.
   */
  lemma {:induction false} LoadLoopPolls(o: Oracle, b: Bus, version: byte, revision: byte, polls: seq<FlashPoll>, left: nat)
    requires left > 0
    ensures var l := LoadLoop(o, b, version, revision, polls, left);
      && |polls| < |l.polls| <= |polls| + left
      && l.polls[..|polls|] == polls
      && l.polls[|polls|] == PollFlashEffect(o, b, version, revision)
      && (forall i :: |polls| <= i < |l.polls| - 1 ==> l.polls[i].ret >= 0 && !Ready(l.polls[i]))
      && (forall i :: |polls| <= i < |l.polls| - 1 ==>
            l.polls[i + 1] == PollFlashEffect(o, l.polls[i].bus, l.polls[i].version, l.polls[i].revision))
    decreases left
  {
    var p := PollFlashEffect(o, b, version, revision);
    if p.ret >= 0 && !Ready(p) && left > 1 {
      var l := LoadLoop(o, p.bus, p.version, p.revision, polls + [p], left - 1);
      LoadLoopPolls(o, p.bus, p.version, p.revision, polls + [p], left - 1);
      assert l.polls[..|polls|] == (l.polls[..|polls| + 1])[..|polls|];
    }
  }

  /**
   * How the loop ends: on the bus its last pass left, with 0 exactly when
   * that pass found the firmware ready, with the read's status when that
   * failed, and with -1 after all `left` passes otherwise.
   */
  lemma {:induction false} LoadLoopEnd(o: Oracle, b: Bus, version: byte, revision: byte, polls: seq<FlashPoll>, left: nat)
    requires left > 0
    ensures var l := LoadLoop(o, b, version, revision, polls, left);
      && |polls| < |l.polls|
      && var p := l.polls[|l.polls| - 1];
      && l.bus == p.bus
      && (l.ret == 0 <==> Ready(p))
      && (p.ret < 0 ==> l.ret == p.ret)
      && (p.ret >= 0 && !Ready(p) ==> l.ret == -1 && |l.polls| == |polls| + left)
    decreases left
  {
    var p := PollFlashEffect(o, b, version, revision);
    if p.ret >= 0 && !Ready(p) && left > 1 {
      LoadLoopEnd(o, p.bus, p.version, p.revision, polls + [p], left - 1);
    }
  }

  /** The accesses of one pass, on their own. */
  lemma PollFlashLog(o: Oracle, b: Bus, version: byte, revision: byte)
    ensures var p := PollFlashEffect(o, b, version, revision);
      p.bus.log == b.log + PollReads(p)
  {
    PollFlashSpec(o, b, version, revision);
  }

  /** The reads of a non-empty sequence of passes: those of the first, then the rest. */
  lemma AllPollReadsCons(ps: seq<FlashPoll>)
    requires ps != []
    ensures AllPollReads(ps) == PollReads(ps[0]) + AllPollReads(ps[1..])
  {
  }

  /** Appending two stretches of accesses one after the other. */
  lemma LogJoin(log0: seq<Access>, first: seq<Access>, rest: seq<Access>, log1: seq<Access>, log2: seq<Access>, all: seq<Access>)
    requires log1 == log0 + first && log2 == log1 + rest && all == first + rest
    ensures log2 == log0 + all
  {
  }

  /** The accesses of the loop are the reads of its passes, in order. */
  lemma {:induction false} LoadLoopLog(o: Oracle, b: Bus, version: byte, revision: byte, polls: seq<FlashPoll>, left: nat)
    ensures var l := LoadLoop(o, b, version, revision, polls, left);
      && |polls| <= |l.polls|
      && l.bus.log == b.log + AllPollReads(l.polls[|polls|..])
    decreases left
  {
    var l := LoadLoop(o, b, version, revision, polls, left);
    if left == 0 {
      assert l.polls[|polls|..] == [];
    } else {
      var p := PollFlashEffect(o, b, version, revision);
      PollFlashLog(o, b, version, revision);
      LoadLoopPolls(o, b, version, revision, polls, left);
      var ps := l.polls[|polls|..];
      assert ps[0] == p;
      AllPollReadsCons(ps);
      if p.ret >= 0 && !Ready(p) {
        assert l == LoadLoop(o, p.bus, p.version, p.revision, polls + [p], left - 1);
        LoadLoopLog(o, p.bus, p.version, p.revision, polls + [p], left - 1);
        assert ps[1..] == l.polls[|polls + [p]|..];
        LogJoin(b.log, PollReads(p), AllPollReads(ps[1..]), p.bus.log, l.bus.log, AllPollReads(ps));
      } else {
        assert l.polls == polls + [p] && l.bus == p.bus;
        assert ps[1..] == [];
        LogJoin(b.log, PollReads(p), [], p.bus.log, l.bus.log, AllPollReads(ps));
      }
    }
  }

  /**
   * power_on_init makes between one and OCM_LOADING_TIME passes, the first
   * right after the crystal write with the uninitialised version and
   * revision, each later one carrying on from the one before; every pass
   * but the last read a flash that was not ready.
   */
  lemma PowerOnPolls(o: Oracle, b: Bus)
    ensures var w := RegWriteEffect(o, b, RX_P0_ADDR, XTAL_FRQ_SEL, XTAL_FRQ_27M);
      var ps := PowerOnEffect(o, b).polls;
      && 1 <= |ps| <= OCM_LOADING_TIME
      && ps[0] == PollFlashEffect(o, w.bus, Stale(o, b, 0), Stale(o, b, 1))
      && (forall i :: 0 <= i < |ps| - 1 ==> ps[i].ret >= 0 && !Ready(ps[i]))
      && (forall i :: 0 <= i < |ps| - 1 ==> ps[i + 1] == PollFlashEffect(o, ps[i].bus, ps[i].version, ps[i].revision))
  {
    var w := RegWriteEffect(o, b, RX_P0_ADDR, XTAL_FRQ_SEL, XTAL_FRQ_27M);
    var none: seq<FlashPoll> := [];
    LoadLoopPolls(o, w.bus, Stale(o, b, 0), Stale(o, b, 1), none, OCM_LOADING_TIME);
  }

  /**
   * power_on_init returns 0 exactly when its last pass found the flash
   * loaded with a non-zero version or revision; a failed FLASH_LOAD_STA read
   * is returned as is; otherwise it gives -1 after OCM_LOADING_TIME passes.
   * The crystal write comes first, then the reads of the passes.
   */
  lemma PowerOnSpec(o: Oracle, b: Bus)
    ensures var l := PowerOnEffect(o, b);
      && |l.polls| > 0
      && var p := l.polls[|l.polls| - 1];
      && l.bus == p.bus
      && l.ret <= 0
      && (l.ret == 0 <==> Ready(p))
      && (p.ret < 0 ==> l.ret == p.ret)
      && (p.ret >= 0 && !Ready(p) ==> l.ret == -1 && |l.polls| == OCM_LOADING_TIME)
      && l.bus.log == b.log + [Set(P0(XTAL_FRQ_SEL), XTAL_FRQ_27M)] + AllPollReads(l.polls)
  {
    var w := RegWriteEffect(o, b, RX_P0_ADDR, XTAL_FRQ_SEL, XTAL_FRQ_27M);
    var none: seq<FlashPoll> := [];
    var l := LoadLoop(o, w.bus, Stale(o, b, 0), Stale(o, b, 1), none, OCM_LOADING_TIME);
    LoadLoopEnd(o, w.bus, Stale(o, b, 0), Stale(o, b, 1), none, OCM_LOADING_TIME);
    LoadLoopLog(o, w.bus, Stale(o, b, 0), Stale(o, b, 1), none, OCM_LOADING_TIME);
    RegWriteLog(o, b, RX_P0_ADDR, XTAL_FRQ_SEL, XTAL_FRQ_27M);
    assert l.polls[0..] == l.polls;
  }

  /** One pass on the chip. */
  method PollFlash(c: Chip, version: byte, revision: byte) returns (ret: i32, load: byte, v: byte, r: byte)
    modifies c
    ensures FlashPoll(c.State(), ret, load, v, r) == PollFlashEffect(c.oracle, old(c.State()), version, revision)
  {
    v, r := version, revision;
    ret, load := c.RegRead(RX_P0_ADDR, FLASH_LOAD_STA, 0);
    if ret < 0 || And8(load, FLASH_LOAD_STA_CHK) != FLASH_LOAD_STA_CHK {
      return;
    }
    var ignored;
    ignored, v := c.RegRead(RX_P0_ADDR, OCM_FW_VERSION, version);
    ignored, r := c.RegRead(RX_P0_ADDR, OCM_FW_REVERSION, revision);
  }

  /** anx7625_power_on_init on the chip. */
  method PowerOnInit(c: Chip) returns (ret: i32)
    modifies c
    ensures var l := PowerOnEffect(c.oracle, old(c.State()));
      c.State() == l.bus && ret == l.ret
  {
    // the uninitialised locals
    var version := c.oracle.junk(|c.trace|, 0);
    var revision := c.oracle.junk(|c.trace|, 1);
    ghost var l := PowerOnEffect(c.oracle, c.State());
    var _ := c.RegWrite(RX_P0_ADDR, XTAL_FRQ_SEL, XTAL_FRQ_27M);
    ghost var polls: seq<FlashPoll> := [];
    var i := 0;
    while i < OCM_LOADING_TIME
      invariant 0 <= i <= OCM_LOADING_TIME
      invariant LoadLoop(c.oracle, c.State(), version, revision, polls, OCM_LOADING_TIME - i) == l
    {
      ghost var b := c.State();
      LoadLoopStep(c.oracle, b, version, revision, polls, OCM_LOADING_TIME - i);
      var status, load, v, r := PollFlash(c, version, revision);
      polls := polls + [FlashPoll(c.State(), status, load, v, r)];
      if status < 0 {
        return status;
      }
      version, revision := v, r;
      if And8(load, FLASH_LOAD_STA_CHK) == FLASH_LOAD_STA_CHK && !(version == 0 && revision == 0) {
        return 0;
      }
      i := i + 1;
    }
    ret := -1;
  }

  // ---------------------------------------------------------------------
  // Hot-plug detection
  // ---------------------------------------------------------------------

  /**
   * anx7625_start_dp_work: turn HDCP off, raise the auth flag and enable the
   * DRM interrupt, OR-ing their statuses; only if none failed, read the
   * secure OCM version (which is only logged).
   */
  function StartDpWorkEffect(o: Oracle, b: Bus): Bus
  {
    var hdcp := WriteAndEffect(o, b, RX_P1_ADDR, HDCP_CTRL, HDCP_OFF_MASK);
    var auth := WriteOrEffect(o, hdcp.bus, RX_P1_ADDR, AUTH_CTRL, AUTH_FLAG);
    var drm := WriteOrEffect(o, auth.bus, RX_P1_ADDR, DRM_INT_CTRL, DRM_INT);
    if Or32(Or32(hdcp.ret, auth.ret), drm.ret) < 0 then drm.bus
    else RegReadEffect(o, drm.bus, RX_P1_ADDR, SECURE_OCM_VERSION, 0).bus
  }

  /**
   * start_dp_work: when all three read-modify-writes succeed, HDCP_CTRL has
   * bits 5 and 6 clear, AUTH_CTRL has the auth flag set and DRM_INT_CTRL
   * the DRM interrupt enable set, and the secure OCM version is read last;
   * when one fails, all three still run but nothing follows the three.  No
   * other register changes, save
   * the page's reserved one.
   */
  lemma StartDpWorkSpec(o: Oracle, b: Bus)
    ensures var hdcp := WriteAndEffect(o, b, RX_P1_ADDR, HDCP_CTRL, HDCP_OFF_MASK);
      var auth := WriteOrEffect(o, hdcp.bus, RX_P1_ADDR, AUTH_CTRL, AUTH_FLAG);
      var drm := WriteOrEffect(o, auth.bus, RX_P1_ADDR, DRM_INT_CTRL, DRM_INT);
      var e := StartDpWorkEffect(o, b);
      && (hdcp.ret < 0 || auth.ret < 0 || drm.ret < 0 ==> e == drm.bus)
      && (hdcp.ret == 0 && auth.ret == 0 && drm.ret == 0 ==>
            && P1(HDCP_CTRL) in e.regs && And8(e.regs[P1(HDCP_CTRL)], Not8(HDCP_OFF_MASK)) == 0
            && P1(AUTH_CTRL) in e.regs && And8(e.regs[P1(AUTH_CTRL)], AUTH_FLAG) == AUTH_FLAG
            && P1(DRM_INT_CTRL) in e.regs && And8(e.regs[P1(DRM_INT_CTRL)], DRM_INT) == DRM_INT
            && e.log == drm.bus.log + [Get(P1(SECURE_OCM_VERSION))])
      && Agree(b.regs, e.regs, {P1(HDCP_CTRL), P1(AUTH_CTRL), P1(DRM_INT_CTRL), P1(ReservedOffset(RX_P1_ADDR))})
  {
    var hdcp := WriteAndEffect(o, b, RX_P1_ADDR, HDCP_CTRL, HDCP_OFF_MASK);
    var auth := WriteOrEffect(o, hdcp.bus, RX_P1_ADDR, AUTH_CTRL, AUTH_FLAG);
    var drm := WriteOrEffect(o, auth.bus, RX_P1_ADDR, DRM_INT_CTRL, DRM_INT);
    var e := StartDpWorkEffect(o, b);
    var keys := {P1(HDCP_CTRL), P1(AUTH_CTRL), P1(DRM_INT_CTRL), P1(ReservedOffset(RX_P1_ADDR))};
    WriteAndSpec(o, b, RX_P1_ADDR, HDCP_CTRL, HDCP_OFF_MASK);
    WriteOrSpec(o, hdcp.bus, RX_P1_ADDR, AUTH_CTRL, AUTH_FLAG);
    WriteOrSpec(o, auth.bus, RX_P1_ADDR, DRM_INT_CTRL, DRM_INT);
    Or32NonPositive(hdcp.ret, auth.ret);
    Or32NonPositive(Or32(hdcp.ret, auth.ret), drm.ret);
    var reserved := P1(ReservedOffset(RX_P1_ADDR));
    AgreeChain(b.regs, hdcp.bus.regs, auth.bus.regs, {P1(AUTH_CTRL), reserved}, keys);
    AgreeChain(b.regs, auth.bus.regs, drm.bus.regs, {P1(DRM_INT_CTRL), reserved}, keys);
    RegReadSpec(o, drm.bus, RX_P1_ADDR, SECURE_OCM_VERSION, 0);
    AgreeChain(b.regs, drm.bus.regs, e.regs, {reserved}, keys);
    if hdcp.ret == 0 && auth.ret == 0 && drm.ret == 0 {
      And8ClearsMask(RegReadEffect(o, b, RX_P1_ADDR, HDCP_CTRL, 0).val, Not8(HDCP_OFF_MASK));
      Or8SetsMask(RegReadEffect(o, hdcp.bus, RX_P1_ADDR, AUTH_CTRL, 0).val, AUTH_FLAG);
      Or8SetsMask(RegReadEffect(o, auth.bus, RX_P1_ADDR, DRM_INT_CTRL, 0).val, DRM_INT);
    }
  }

  /** Agreement outside a set of keys composes, when each step's keys lie in it. */
  lemma AgreeChain(r0: map<Key, byte>, r1: map<Key, byte>, r2: map<Key, byte>, step: set<Key>, keys: set<Key>)
    requires Agree(r0, r1, keys)
    requires step <= keys && Agree(r1, r2, step)
    ensures Agree(r0, r2, keys)
  {
  }

  /**
   * anx7625_hpd_change_detect: a failed read of SYSTEM_STSTUS is returned
   * as is; with HPD high DisplayPort work starts and the result is 1,
   * otherwise 0.  The destination is never looked at after a failed read,
   * so it starts at 0.
   */
  function HpdChangeDetectEffect(o: Oracle, b: Bus): Outcome
  {
    var rd := RegReadEffect(o, b, RX_P0_ADDR, SYSTEM_STSTUS, 0);
    if rd.ret < 0 then Outcome(rd.bus, rd.ret)
    else if And8(rd.val, HPD_STATUS) != 0 then Outcome(StartDpWorkEffect(o, rd.bus), 1)
    else Outcome(rd.bus, 0)
  }

  /**
   * hpd_change_detect returns 1 exactly when the status byte the chip
   * delivered has HPD_STATUS set, and only then starts DisplayPort work;
   * 0 when it is clear; otherwise the read's negative code.  Its first
   * access is the status read.
   */
  lemma HpdChangeDetectSpec(o: Oracle, b: Bus)
    ensures var rd := RegReadEffect(o, b, RX_P0_ADDR, SYSTEM_STSTUS, 0);
      var d := HpdChangeDetectEffect(o, b);
      && (rd.ret >= 0 ==> rd.val == o.payload(|rd.bus.trace| - 1, 0))
      && (d.ret == 1 <==> rd.ret >= 0 && And8(rd.val, HPD_STATUS) != 0)
      && (d.ret == 0 <==> rd.ret >= 0 && And8(rd.val, HPD_STATUS) == 0)
      && (d.ret < 0 <==> rd.ret < 0)
      && (d.ret < 0 ==> d.ret == rd.ret)
      && (d.ret == 1 ==> d.bus == StartDpWorkEffect(o, rd.bus))
      && (d.ret != 1 ==> d.bus == rd.bus)
      && rd.bus.log == b.log + [Get(P0(SYSTEM_STSTUS))]
  {
    RegReadSpec(o, b, RX_P0_ADDR, SYSTEM_STSTUS, 0);
  }

  /** Where wait_hpd_event stands: the bus, the status it returns, and the outcome of each poll. */
  datatype Watch = Watch(bus: Bus, ret: i32, polls: seq<Outcome>)

  /**
   * The loop of anx7625_wait_hpd_event with `left` polls to go: a failed
   * poll gives -1, HPD high gives 0, and running out of polls gives -1.
   */
  function HpdLoop(o: Oracle, b: Bus, polls: seq<Outcome>, left: nat): Watch
    decreases left
  {
    if left == 0 then Watch(b, -1, polls)
    else
      var d := HpdChangeDetectEffect(o, b);
      if d.ret < 0 then Watch(d.bus, -1, polls + [d])
      else if d.ret > 0 then Watch(d.bus, 0, polls + [d])
      else HpdLoop(o, d.bus, polls + [d], left - 1)
  }

  /** anx7625_wait_hpd_event: up to HPD_POLLS polls, 10 ms apart. */
  function WaitHpdEffect(o: Oracle, b: Bus): Watch
  {
    HpdLoop(o, b, [], HPD_POLLS)
  }

  /** One poll of the loop, unfolded. */
  lemma HpdLoopStep(o: Oracle, b: Bus, polls: seq<Outcome>, left: nat)
    requires left > 0
    ensures var d := HpdChangeDetectEffect(o, b);
      HpdLoop(o, b, polls, left)
      == if d.ret < 0 then Watch(d.bus, -1, polls + [d])
         else if d.ret > 0 then Watch(d.bus, 0, polls + [d])
         else HpdLoop(o, d.bus, polls + [d], left - 1)
  {
  }

  /**
   * The polls of the loop: at least one and at most `left` are added, the
   * first from `b`, each later one from where the one before left the bus;
   * every poll but the last saw HPD low; the loop ends on the bus the last
   * poll left, with 0 exactly when that poll saw HPD high, and with -1
   * otherwise, having made all `left` polls when none failed.
   */
  lemma {:induction false} HpdLoopSpec(o: Oracle, b: Bus, polls: seq<Outcome>, left: nat)
    requires left > 0
    ensures var w := HpdLoop(o, b, polls, left);
      && |polls| < |w.polls| <= |polls| + left
      && w.polls[..|polls|] == polls
      && w.polls[|polls|] == HpdChangeDetectEffect(o, b)
      && (forall i :: |polls| <= i < |w.polls| - 1 ==> w.polls[i].ret == 0)
      && (forall i :: |polls| <= i < |w.polls| - 1 ==> w.polls[i + 1] == HpdChangeDetectEffect(o, w.polls[i].bus))
      && var d := w.polls[|w.polls| - 1];
      && w.bus == d.bus
      && (w.ret == 0 <==> d.ret > 0)
      && (w.ret == 0 || w.ret == -1)
      && (d.ret == 0 ==> |w.polls| == |polls| + left)
    decreases left
  {
    var d := HpdChangeDetectEffect(o, b);
    if d.ret == 0 && left > 1 {
      var w := HpdLoop(o, d.bus, polls + [d], left - 1);
      HpdLoopSpec(o, d.bus, polls + [d], left - 1);
      assert w.polls[..|polls|] == (w.polls[..|polls| + 1])[..|polls|];
    }
  }

  /**
   * wait_hpd_event succeeds exactly when one of its polls sees HPD high,
   * which is then its last; a failed read, or HPD_POLLS polls that all saw
   * HPD low, give -1.  Each poll is hpd_change_detect on the bus the one
   * before left.
   */
  lemma WaitHpdSpec(o: Oracle, b: Bus)
    ensures var w := WaitHpdEffect(o, b);
      && 1 <= |w.polls| <= HPD_POLLS
      && w.polls[0] == HpdChangeDetectEffect(o, b)
      && (forall i :: 0 <= i < |w.polls| - 1 ==> w.polls[i].ret == 0)
      && (forall i :: 0 <= i < |w.polls| - 1 ==> w.polls[i + 1] == HpdChangeDetectEffect(o, w.polls[i].bus))
      && w.bus == w.polls[|w.polls| - 1].bus
      && (w.ret == 0 <==> w.polls[|w.polls| - 1].ret == 1)
      && (w.ret == 0 || w.ret == -1)
      && (w.polls[|w.polls| - 1].ret == 0 ==> |w.polls| == HPD_POLLS)
  {
    var none: seq<Outcome> := [];
    HpdLoopSpec(o, b, none, HPD_POLLS);
    var w := WaitHpdEffect(o, b);
    var d := w.polls[|w.polls| - 1];
    if |w.polls| == 1 {
      HpdChangeDetectSpec(o, b);
    } else {
      HpdChangeDetectSpec(o, w.polls[|w.polls| - 2].bus);
    }
  }

  /** anx7625_start_dp_work on the chip. */
  method StartDpWork(c: Chip)
    modifies c
    ensures c.State() == StartDpWorkEffect(c.oracle, old(c.State()))
  {
    var ret := c.WriteAnd(RX_P1_ADDR, HDCP_CTRL, HDCP_OFF_MASK);
    var r := c.WriteOr(RX_P1_ADDR, AUTH_CTRL, AUTH_FLAG);
    ret := Or32(ret, r);
    r := c.WriteOr(RX_P1_ADDR, DRM_INT_CTRL, DRM_INT);
    ret := Or32(ret, r);
    if ret < 0 {
      return;
    }
    var val;
    ret, val := c.RegRead(RX_P1_ADDR, SECURE_OCM_VERSION, 0);
  }

  /** anx7625_hpd_change_detect on the chip. */
  method HpdChangeDetect(c: Chip) returns (ret: i32)
    modifies c
    ensures Outcome(c.State(), ret) == HpdChangeDetectEffect(c.oracle, old(c.State()))
  {
    var status;
    ret, status := c.RegRead(RX_P0_ADDR, SYSTEM_STSTUS, 0);
    if ret < 0 {
      return;
    }
    if And8(status, HPD_STATUS) != 0 {
      StartDpWork(c);
      return 1;
    }
    return 0;
  }

  /** anx7625_wait_hpd_event on the chip. */
  method WaitHpdEvent(c: Chip) returns (ret: i32)
    modifies c
    ensures var w := WaitHpdEffect(c.oracle, old(c.State()));
      c.State() == w.bus && ret == w.ret
  {
    ghost var w := WaitHpdEffect(c.oracle, c.State());
    ghost var polls: seq<Outcome> := [];
    var retry := 10000;
    retry := retry - 1;
    while retry != 0
      invariant 0 <= retry <= HPD_POLLS
      invariant HpdLoop(c.oracle, c.State(), polls, retry) == w
    {
      // mdelay(10)
      ghost var b := c.State();
      HpdLoopStep(c.oracle, b, polls, retry);
      var detected := HpdChangeDetect(c);
      polls := polls + [Outcome(c.State(), detected)];
      if detected < 0 {
        return -1;
      }
      if detected > 0 {
        return 0;
      }
      retry := retry - 1;
    }
    ret := -1;
  }

  // ---------------------------------------------------------------------
  // Power role and bring-up
  // ---------------------------------------------------------------------

  /**
   * anx7625_read_system_status: read SYSTEM_STSTUS into `*sys_status`; the
   * decoding of its bits is only logged, so this is the register read
   * itself.
   */
  method ReadSystemStatus(c: Chip, prior: byte) returns (ret: i32, status: byte)
    modifies c
    ensures ReadOutcome(c.State(), ret, status) == RegReadEffect(c.oracle, old(c.State()), RX_P0_ADDR, SYSTEM_STSTUS, prior)
  {
    ret, status := c.RegRead(RX_P0_ADDR, SYSTEM_STSTUS, prior);
    if ret < 0 {
      return;
    }
  }

  /** The bus after a power-role query and its answer. */
  datatype Role = Role(bus: Bus, provider: bool)

  /**
   * anx7625_is_power_provider: bit 3 of the system status, which starts at
   * 0.  The driver tests its own `ret`, which stays 0, so a failed read is
   * not reported as such.
   */
  function IsPowerProviderEffect(o: Oracle, b: Bus): Role
  {
    var rd := RegReadEffect(o, b, RX_P0_ADDR, SYSTEM_STSTUS, 0);
    Role(rd.bus, And8(rd.val, VBUS_PROVIDER) != 0)
  }

  /**
   * is_power_provider answers "provider" exactly when the status read
   * succeeded and the byte the chip delivered has bit 3 set; a failed read
   * leaves the status at 0 and so answers "consumer".  It makes one access,
   * the status read.
   */
  lemma IsPowerProviderSpec(o: Oracle, b: Bus)
    ensures var rd := RegReadEffect(o, b, RX_P0_ADDR, SYSTEM_STSTUS, 0);
      var r := IsPowerProviderEffect(o, b);
      && (r.provider <==> rd.ret >= 0 && And8(o.payload(|rd.bus.trace| - 1, 0), VBUS_PROVIDER) != 0)
      && r.bus == rd.bus
      && r.bus.log == b.log + [Get(P0(SYSTEM_STSTUS))]
  {
    RegReadSpec(o, b, RX_P0_ADDR, SYSTEM_STSTUS, 0);
  }

  /** anx7625_is_power_provider on the chip. */
  method IsPowerProvider(c: Chip) returns (provider: bool)
    modifies c
    ensures Role(c.State(), provider) == IsPowerProviderEffect(c.oracle, old(c.State()))
  {
    var ret := 0;
    var sysStatus: byte := 0;
    var _, status := ReadSystemStatus(c, sysStatus);
    sysStatus := status;
    if ret < 0 {
      provider := false;
    } else {
      provider := And8(sysStatus, VBUS_PROVIDER) != 0;
    }
  }

  /** The power-on attempts of anx7625_init with `left` to go: stop at the first that succeeds. */
  function PowerOnRetries(o: Oracle, b: Bus, left: nat): Outcome
    decreases left
  {
    if left == 0 then Outcome(b, -1)
    else
      var p := PowerOnEffect(o, b);
      if p.ret == 0 then Outcome(p.bus, 0) else PowerOnRetries(o, p.bus, left - 1)
  }

  /**
   * anx7625_init without its GPIO and delays: up to POWER_ON_ATTEMPTS runs
   * of power_on_init; when none succeeds the result is -1.  After success
   * the power role is queried on the same chip (the bus argument is ignored
   * by the register layer); the answer only drives a GPIO, so the result is
   * 0.
   */
  function InitEffect(o: Oracle, b: Bus): Outcome
  {
    var p := PowerOnRetries(o, b, POWER_ON_ATTEMPTS);
    if p.ret != 0 then Outcome(p.bus, -1)
    else Outcome(IsPowerProviderEffect(o, p.bus).bus, 0)
  }

  /**
   * anx7625_init succeeds exactly when the first or, failing that, the
   * second power_on_init succeeds, and then queries the power role right
   * after it, its last access being the status read; otherwise it gives -1
   * after both attempts.
   */
  lemma InitSpec(o: Oracle, b: Bus)
    ensures var p1 := PowerOnEffect(o, b);
      var p2 := PowerOnEffect(o, p1.bus);
      var e := InitEffect(o, b);
      && (e.ret == 0 || e.ret == -1)
      && (e.ret == 0 <==> p1.ret == 0 || p2.ret == 0)
      && (p1.ret == 0 ==> e.bus == IsPowerProviderEffect(o, p1.bus).bus)
      && (p1.ret != 0 && p2.ret == 0 ==> e.bus == IsPowerProviderEffect(o, p2.bus).bus)
      && (e.ret != 0 ==> e.bus == p2.bus)
      && (e.ret == 0 ==> |e.bus.log| > 0 && e.bus.log[|e.bus.log| - 1] == Get(P0(SYSTEM_STSTUS)))
  {
    var p1 := PowerOnEffect(o, b);
    var p2 := PowerOnEffect(o, p1.bus);
    var e := InitEffect(o, b);
    if p1.ret == 0 {
      IsPowerProviderSpec(o, p1.bus);
    } else if p2.ret == 0 {
      IsPowerProviderSpec(o, p2.bus);
    }
  }

  /** One attempt of the retry loop, unfolded. */
  lemma PowerOnRetriesStep(o: Oracle, b: Bus, left: nat)
    requires left > 0
    ensures var p := PowerOnEffect(o, b);
      PowerOnRetries(o, b, left) == if p.ret == 0 then Outcome(p.bus, 0) else PowerOnRetries(o, p.bus, left - 1)
  {
  }

  /** anx7625_init on the chip. */
  method Init(c: Chip) returns (ret: i32)
    modifies c
    ensures Outcome(c.State(), ret) == InitEffect(c.oracle, old(c.State()))
  {
    ghost var target := PowerOnRetries(c.oracle, c.State(), POWER_ON_ATTEMPTS);
    var retry := 3;
    retry := retry - 1;
    while retry != 0
      invariant 0 <= retry <= POWER_ON_ATTEMPTS
      invariant PowerOnRetries(c.oracle, c.State(), retry) == target
    {
      PowerOnRetriesStep(c.oracle, c.State(), retry);
      var r := PowerOnInit(c);
      if r == 0 {
        break;
      }
      retry := retry - 1;
    }
    if retry == 0 {
      return -1;
    }
    // the driver passes bus 0; the register layer talks to the same chip
    var provider := IsPowerProvider(c);
    ret := 0;
  }
}
