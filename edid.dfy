/*
 * Reading the sink's EDID over the AUX channel, sixteen bytes at a time:
 * the extension count at offset 0x7E first, then up to four 128-byte blocks,
 * the first two through plain DDC reads at I2C address 0x50 and the last
 * two through the E-DDC segment pointer at 0x30.
 */
module Edid {
  import opened CTypes
  import opened Registers
  import opened I2c
  import opened AuxChannel

  const ADDR_7_0_KEY: Key := (RX_P0_ADDR, AP_AUX_ADDR_7_0)

  /**
   * The number of extension blocks sp_tx_get_edid_block reports for the
   * byte the sink sent: at most 3, and any larger value counts as 1.
   */
  function ExtensionCount(raw: byte): (n: nat)
    ensures n <= 3
    ensures raw <= 3 ==> n == raw
    ensures raw > 3 ==> n == 1
  {
    if raw > 3 then 1 else raw
  }

  /**
   * sp_tx_get_edid_block: ask the sink for the byte at EDID offset 0x7E (the
   * extension count) with an AUX write and a one-byte AUX read (command
   * 0x01), then read it from the AUX buffer into `val`, which starts at 0.
   */
  function GetEdidBlockEffect(o: Oracle, b: Bus): Outcome
  {
    var wr := AuxWrEffect(o, b, 0x7E);
    var rd := AuxRdEffect(o, wr.bus, 0x01);
    var count := RegReadEffect(o, rd.bus, RX_P0_ADDR, AP_AUX_BUFF_START, 0);
    Outcome(count.bus, if count.ret < 0 then -1 else ExtensionCount(count.val))
  }

  /**
   * sp_tx_get_edid_block ignores the statuses of its two AUX commands: the
   * result is -1 exactly when the read of the AUX buffer failed, and
   * otherwise the extension count of the byte that read delivered.
   */
  lemma GetEdidBlockSpec(o: Oracle, b: Bus)
    ensures var rd := AuxRdEffect(o, AuxWrEffect(o, b, 0x7E).bus, 0x01);
      var count := RegReadEffect(o, rd.bus, RX_P0_ADDR, AP_AUX_BUFF_START, 0);
      var g := GetEdidBlockEffect(o, b);
      && g.bus == count.bus
      && -1 <= g.ret <= 3
      && (g.ret == -1 <==> count.ret < 0)
      && (count.ret >= 0 ==> count.ret == count.val && g.ret == ExtensionCount(count.val))
  {
  }

  /** The first access of sp_tx_get_edid_block puts 0x7E in the AUX buffer, and the last one reads it back. */
  lemma GetEdidBlockLog(o: Oracle, b: Bus)
    ensures var g := GetEdidBlockEffect(o, b);
      && |b.log| < |g.bus.log| && g.bus.log[|b.log|] == Set(BUFF_KEY, 0x7E)
      && g.bus.log[|g.bus.log| - 1] == Get(BUFF_KEY)
  {
    var wr := AuxWrEffect(o, b, 0x7E);
    var rd := AuxRdEffect(o, wr.bus, 0x01);
    var count := RegReadEffect(o, rd.bus, RX_P0_ADDR, AP_AUX_BUFF_START, 0);
    assert GetEdidBlockEffect(o, b).bus == count.bus;
    AuxWrExtends(o, b, 0x7E);
    AuxRdExtends(o, wr.bus, 0x01);
    RegReadSpec(o, rd.bus, RX_P0_ADDR, AP_AUX_BUFF_START, 0);
    EntryKept(b.log, wr.bus.log, count.bus.log, rd.bus.log);
  }

  /** Entry `|a|` of a log that extends `a` survives as the log grows. */
  lemma EntryKept(a: seq<Access>, b: seq<Access>, c: seq<Access>, mid: seq<Access>)
    requires a < b && b < mid && mid <= c
    ensures |a| < |c| && c[|a|] == b[|a|]
  {
    assert c[|a|] == mid[|a|];
  }

  /**
   * The retry test of edid_read and segments_edid_read: the status of
   * sp_tx_aux_rd, truncated to uint8_t, equals 1.
   */
  predicate AuxReadFailed(status: i32)
  {
    LowByte(status) == 1
  }

  /**
   * One read attempt of edid_read and segments_edid_read: write `offset`
   * through the AUX channel, then issue the I2C-over-AUX read of sixteen
   * bytes (command 0xF1); the status is sp_tx_aux_rd's.
   */
  function ReadAttemptEffect(o: Oracle, b: Bus, offset: byte): Outcome
  {
    AuxRdEffect(o, AuxWrEffect(o, b, offset).bus, 0xF1)
  }

  /** The copy of the AUX buffer out of the chip once an attempt is accepted. */
  function FetchBlock(o: Oracle, b: Bus, prior: seq<byte>): BlockOutcome
  {
    RegBlockReadEffect(o, b, RX_P0_ADDR, AP_AUX_BUFF_START, prior)
  }

  /**
   * The attempts of edid_read from loop counter `cnt` on.  An attempt that
   * passes the retry test resets the AUX channel and bumps the counter
   * twice; otherwise the AUX buffer is copied out and the result is 0,
   * whatever that copy returned.  Counter 3 or more ends the loop with 1.
   */
  function EdidReadFrom(o: Oracle, b: Bus, offset: byte, prior: seq<byte>, cnt: nat): BlockOutcome
    requires cnt <= 4
    decreases 4 - cnt
  {
    if cnt >= 3 then BlockOutcome(b, 1, prior)
    else
      var att := ReadAttemptEffect(o, b, offset);
      if AuxReadFailed(att.ret) then EdidReadFrom(o, RstAuxEffect(o, att.bus).bus, offset, prior, cnt + 2)
      else
        var blk := FetchBlock(o, att.bus, prior);
        BlockOutcome(blk.bus, 0, blk.buf)
  }

  /** edid_read: sixteen EDID bytes from `offset` into the bounce buffer `prior`. */
  function EdidReadEffect(o: Oracle, b: Bus, offset: byte, prior: seq<byte>): BlockOutcome
  {
    EdidReadFrom(o, b, offset, prior, 0)
  }

  /**
   * edid_read accepts the first attempt unless it passes the retry test,
   * and otherwise, after an AUX reset, the second one unless it passes it
   * too; an accepted attempt gives 0 and the bytes the copy of the AUX
   * buffer delivered.
   */
  lemma EdidReadSpec(o: Oracle, b: Bus, offset: byte, prior: seq<byte>)
    ensures var first := ReadAttemptEffect(o, b, offset);
      var again := ReadAttemptEffect(o, RstAuxEffect(o, first.bus).bus, offset);
      var e := EdidReadEffect(o, b, offset, prior);
      && (!AuxReadFailed(first.ret) ==> e == BlockOutcome(FetchBlock(o, first.bus, prior).bus, 0, FetchBlock(o, first.bus, prior).buf))
      && (AuxReadFailed(first.ret) && !AuxReadFailed(again.ret) ==>
            e == BlockOutcome(FetchBlock(o, again.bus, prior).bus, 0, FetchBlock(o, again.bus, prior).buf))
  {
  }

  /**
   * edid_read makes at most two attempts (the failure branch bumps the loop
   * counter a second time): the result is 1 exactly when both pass the
   * retry test, and then the bounce buffer is unchanged.  An attempt whose
   * wait timed out has status -1, so it is never retried.
   */
  lemma EdidReadGivesUp(o: Oracle, b: Bus, offset: byte, prior: seq<byte>)
    ensures var first := ReadAttemptEffect(o, b, offset);
      var again := ReadAttemptEffect(o, RstAuxEffect(o, first.bus).bus, offset);
      var e := EdidReadEffect(o, b, offset, prior);
      && (e.ret == 1 <==> AuxReadFailed(first.ret) && AuxReadFailed(again.ret))
      && (e.ret == 1 ==> e.buf == prior)
      && (first.ret == -1 ==> e.ret == 0)
  {
  }

  /** edid_read returns 0 or 1 and leaves a bounce buffer of the same length, unchanged on 1. */
  lemma EdidReadShape(o: Oracle, b: Bus, offset: byte, prior: seq<byte>)
    ensures var e := EdidReadEffect(o, b, offset, prior);
      (e.ret == 0 || e.ret == 1) && |e.buf| == |prior| && (e.ret == 1 ==> e.buf == prior)
  {
    var first := ReadAttemptEffect(o, b, offset);
    FetchBlockShape(o, first.bus, prior);
    if AuxReadFailed(first.ret) {
      var again := ReadAttemptEffect(o, RstAuxEffect(o, first.bus).bus, offset);
      FetchBlockShape(o, again.bus, prior);
    }
  }

  /** A read attempt only appends to the access log, starting with the offset written to the AUX buffer. */
  lemma ReadAttemptShape(o: Oracle, b: Bus, offset: byte)
    ensures var att := ReadAttemptEffect(o, b, offset);
      b.log < att.bus.log && att.bus.log[|b.log|] == Set(BUFF_KEY, offset)
  {
    AuxWrExtends(o, b, offset);
    AuxRdExtends(o, AuxWrEffect(o, b, offset).bus, 0xF1);
  }

  /** The copy of the AUX buffer: a status never positive, a buffer of the same length, one more access. */
  lemma FetchBlockShape(o: Oracle, b: Bus, prior: seq<byte>)
    ensures var f := FetchBlock(o, b, prior);
      && f.ret <= 0 && |f.buf| == |prior| && (f.ret < 0 ==> f.buf == prior)
      && f.bus.log == b.log + [GetBlock(BUFF_KEY, |prior|)]
  {
    RegBlockReadSpec(o, b, RX_P0_ADDR, AP_AUX_BUFF_START, prior);
  }

  /**
   * The "write address only" steps of segments_edid_read: point the AUX
   * engine at I2C address 0x30 (the E-DDC segment pointer), issue command
   * 0x04 and start an address-only transaction, then wait for it.
   */
  function AddressOnlyWriteEffect(o: Oracle, b: Bus): Outcome
  {
    var addr := RegWriteEffect(o, b, RX_P0_ADDR, AP_AUX_ADDR_7_0, 0x30);
    var cmd := RegWriteEffect(o, addr.bus, RX_P0_ADDR, AP_AUX_COMMAND, 0x04);
    var start := RegWriteEffect(o, cmd.bus, RX_P0_ADDR, AP_AUX_CTRL_STATUS, AP_AUX_CTRL_ADDRONLY + AP_AUX_CTRL_OP_EN);
    var wait := WaitAuxEffect(o, start.bus);
    Outcome(wait.bus, Or32(Or32(Or32(addr.ret, cmd.ret), start.ret), wait.ret))
  }

  /**
   * The address-only write fails exactly when one of its three writes or
   * its wait failed.  Its accesses are, in order: 0x30 to the address
   * register, command 0x04, ADDRONLY | OP_EN to the status register, then
   * the wait's status reads.
   */
  lemma AddressOnlyWriteSpec(o: Oracle, b: Bus)
    ensures var addr := RegWriteEffect(o, b, RX_P0_ADDR, AP_AUX_ADDR_7_0, 0x30);
      var cmd := RegWriteEffect(o, addr.bus, RX_P0_ADDR, AP_AUX_COMMAND, 0x04);
      var start := RegWriteEffect(o, cmd.bus, RX_P0_ADDR, AP_AUX_CTRL_STATUS, AP_AUX_CTRL_ADDRONLY + AP_AUX_CTRL_OP_EN);
      var wait := WaitAuxEffect(o, start.bus);
      var w := AddressOnlyWriteEffect(o, b);
      && (w.ret < 0 <==> addr.ret < 0 || cmd.ret < 0 || start.ret < 0 || wait.ret < 0)
      && w.bus.log == b.log + [Set(ADDR_7_0_KEY, 0x30), Set(COMMAND_KEY, 0x04),
                               Set(STATUS_KEY, AP_AUX_CTRL_ADDRONLY + AP_AUX_CTRL_OP_EN)] + WaitLog(o, start.bus)
  {
    var addr := RegWriteEffect(o, b, RX_P0_ADDR, AP_AUX_ADDR_7_0, 0x30);
    var cmd := RegWriteEffect(o, addr.bus, RX_P0_ADDR, AP_AUX_COMMAND, 0x04);
    var start := RegWriteEffect(o, cmd.bus, RX_P0_ADDR, AP_AUX_CTRL_STATUS, AP_AUX_CTRL_ADDRONLY + AP_AUX_CTRL_OP_EN);
    var wait := WaitAuxEffect(o, start.bus);
    assert addr.ret <= 0 && cmd.ret <= 0 && start.ret <= 0
        && start.bus.log == b.log + [Set(ADDR_7_0_KEY, 0x30), Set(COMMAND_KEY, 0x04),
                                     Set(STATUS_KEY, AP_AUX_CTRL_ADDRONLY + AP_AUX_CTRL_OP_EN)] by {
      RegWriteSpec(o, b, RX_P0_ADDR, AP_AUX_ADDR_7_0, 0x30);
      RegWriteSpec(o, addr.bus, RX_P0_ADDR, AP_AUX_COMMAND, 0x04);
      RegWriteSpec(o, cmd.bus, RX_P0_ADDR, AP_AUX_CTRL_STATUS, AP_AUX_CTRL_ADDRONLY + AP_AUX_CTRL_OP_EN);
    }
    assert AuxResult(wait.ret) && wait.bus.log == start.bus.log + WaitLog(o, start.bus) by {
      WaitAuxSpec(o, start.bus);
    }
    AuxWrStatus(addr.ret, cmd.ret, start.ret, wait.ret);
  }

  /**
   * The preamble of segments_edid_read: the address-only write, the segment
   * number written through the segment pointer, and the data address
   * switched back to 0x50, their statuses OR-ed in order.
   */
  function SegmentSetupEffect(o: Oracle, b: Bus, segment: byte): Outcome
  {
    var only := AddressOnlyWriteEffect(o, b);
    var seg := AuxWrEffect(o, only.bus, segment);
    var data := RegWriteEffect(o, seg.bus, RX_P0_ADDR, AP_AUX_ADDR_7_0, 0x50);
    Outcome(data.bus, Or32(Or32(only.ret, seg.ret), data.ret))
  }

  /** The preamble fails exactly when the address-only write, the segment write or the switch back to 0x50 failed. */
  lemma SegmentSetupSpec(o: Oracle, b: Bus, segment: byte)
    ensures var only := AddressOnlyWriteEffect(o, b);
      var seg := AuxWrEffect(o, only.bus, segment);
      var data := RegWriteEffect(o, seg.bus, RX_P0_ADDR, AP_AUX_ADDR_7_0, 0x50);
      var s := SegmentSetupEffect(o, b, segment);
      && s.bus == data.bus
      && (s.ret < 0 <==> only.ret < 0 || seg.ret < 0 || data.ret < 0)
  {
  }

  /** The preamble ends by switching the address register back to 0x50. */
  lemma SegmentSetupLast(o: Oracle, b: Bus, segment: byte)
    ensures var s := SegmentSetupEffect(o, b, segment);
      |s.bus.log| > 0 && s.bus.log[|s.bus.log| - 1] == Set(ADDR_7_0_KEY, 0x50)
  {
    var only := AddressOnlyWriteEffect(o, b);
    var seg := AuxWrEffect(o, only.bus, segment);
    RegWriteSpec(o, seg.bus, RX_P0_ADDR, AP_AUX_ADDR_7_0, 0x50);
  }

  /**
   * The attempts of segments_edid_read from loop counter `cnt` on, `ret`
   * holding the status so far: the same retry loop as edid_read, but an
   * accepted attempt returns the copy's status, and the loop running out
   * returns the last AUX reset's status.
   */
  function SegmentsReadFrom(o: Oracle, b: Bus, offset: byte, prior: seq<byte>, ret: i32, cnt: nat): BlockOutcome
    requires cnt <= 4
    decreases 4 - cnt
  {
    if cnt >= 3 then BlockOutcome(b, ret, prior)
    else
      var att := ReadAttemptEffect(o, b, offset);
      if AuxReadFailed(att.ret) then
        var rst := RstAuxEffect(o, att.bus);
        SegmentsReadFrom(o, rst.bus, offset, prior, rst.ret, cnt + 2)
      else FetchBlock(o, att.bus, prior)
  }

  /** segments_edid_read: a failed preamble is returned as is, before any read. */
  function SegmentsEdidReadEffect(o: Oracle, b: Bus, segment: byte, prior: seq<byte>, offset: byte): BlockOutcome
  {
    var setup := SegmentSetupEffect(o, b, segment);
    if setup.ret < 0 then BlockOutcome(setup.bus, setup.ret, prior)
    else SegmentsReadFrom(o, setup.bus, offset, prior, setup.ret, 0)
  }

  /**
   * segments_edid_read: a failed preamble returns its status with no read
   * made; otherwise the first attempt is accepted unless it passes the retry
   * test, the second, made after an AUX reset, likewise, and the result is
   * the accepted copy of the AUX buffer; when both attempts pass the retry
   * test the buffer is unchanged and the result is the second reset's
   * status.
   */
  lemma SegmentsEdidReadSpec(o: Oracle, b: Bus, segment: byte, prior: seq<byte>, offset: byte)
    ensures var setup := SegmentSetupEffect(o, b, segment);
      var first := ReadAttemptEffect(o, setup.bus, offset);
      var rst1 := RstAuxEffect(o, first.bus);
      var again := ReadAttemptEffect(o, rst1.bus, offset);
      var rst2 := RstAuxEffect(o, again.bus);
      var s := SegmentsEdidReadEffect(o, b, segment, prior, offset);
      && (setup.ret < 0 ==> s == BlockOutcome(setup.bus, setup.ret, prior))
      && (setup.ret >= 0 && !AuxReadFailed(first.ret) ==> s == FetchBlock(o, first.bus, prior))
      && (setup.ret >= 0 && AuxReadFailed(first.ret) && !AuxReadFailed(again.ret) ==> s == FetchBlock(o, again.bus, prior))
      && (setup.ret >= 0 && AuxReadFailed(first.ret) && AuxReadFailed(again.ret) ==>
            s == BlockOutcome(rst2.bus, rst2.ret, prior))
  {
  }

  /** segments_edid_read never returns a positive status and leaves a bounce buffer of the same length. */
  lemma SegmentsEdidReadShape(o: Oracle, b: Bus, segment: byte, prior: seq<byte>, offset: byte)
    ensures var s := SegmentsEdidReadEffect(o, b, segment, prior, offset);
      s.ret <= 0 && |s.buf| == |prior|
  {
    var setup := SegmentSetupEffect(o, b, segment);
    if setup.ret >= 0 {
      SegmentsReadShape(o, setup.bus, offset, prior, setup.ret, 0);
    }
  }

  /**
   * The retry loop of segments_edid_read ends with a status never positive
   * (the status it starts with is only returned when no attempt is left)
   * and a buffer of the same length.
   */
  lemma {:induction false} SegmentsReadShape(o: Oracle, b: Bus, offset: byte, prior: seq<byte>, ret: i32, cnt: nat)
    requires cnt <= 4 && (cnt < 3 || ret <= 0)
    decreases 4 - cnt
    ensures var s := SegmentsReadFrom(o, b, offset, prior, ret, cnt);
      s.ret <= 0 && |s.buf| == |prior|
  {
    if cnt < 3 {
      var att := ReadAttemptEffect(o, b, offset);
      if AuxReadFailed(att.ret) {
        var rst := RstAuxEffect(o, att.bus);
        RstAuxStatus(o, att.bus);
        SegmentsReadShape(o, rst.bus, offset, prior, rst.ret, cnt + 2);
      } else {
        FetchBlockShape(o, att.bus, prior);
      }
    }
  }

  // ---------------------------------------------------------------------
  // The same operations on the chip

  /** sp_tx_get_edid_block on the chip. */
  method GetEdidBlock(c: Chip) returns (ret: i32)
    modifies c
    ensures Outcome(c.State(), ret) == GetEdidBlockEffect(c.oracle, old(c.State()))
  {
    var r := AuxWr(c, 0x7E);
    r := AuxRd(c, 0x01);
    var val: byte := 0;
    ret, val := c.RegRead(RX_P0_ADDR, AP_AUX_BUFF_START, val);
    if ret < 0 {
      ret := -1;
      return;
    }
    if val > 3 {
      val := 1;
    }
    ret := val;
  }

  /** One read attempt on the chip. */
  method ReadAttempt(c: Chip, offset: byte) returns (status: i32)
    modifies c
    ensures Outcome(c.State(), status) == ReadAttemptEffect(c.oracle, old(c.State()), offset)
  {
    var r := AuxWr(c, offset);
    status := AuxRd(c, 0xF1);
  }

  /** edid_read on the chip, the bounce buffer passed in as `prior` and returned as `block`. */
  method EdidRead(c: Chip, offset: byte, prior: seq<byte>) returns (ret: i32, block: seq<byte>)
    modifies c
    ensures BlockOutcome(c.State(), ret, block) == EdidReadEffect(c.oracle, old(c.State()), offset, prior)
  {
    block := prior;
    var cnt: byte := 0;
    while cnt < 3
      invariant cnt <= 4 && block == prior
      invariant EdidReadFrom(c.oracle, c.State(), offset, prior, cnt as nat) == EdidReadEffect(c.oracle, old(c.State()), offset, prior)
    {
      var s := ReadAttempt(c, offset);
      var ch := LowByte(s);
      if ch == 1 {
        var rr := RstAux(c);
        cnt := cnt + 1;
      } else {
        var rb;
        rb, block := c.RegBlockRead(RX_P0_ADDR, AP_AUX_BUFF_START, block);
        return 0, block;
      }
      cnt := cnt + 1;
    }
    ret := 1;
  }

  /** The address-only write on the chip. */
  method AddressOnlyWrite(c: Chip) returns (ret: i32)
    modifies c
    ensures Outcome(c.State(), ret) == AddressOnlyWriteEffect(c.oracle, old(c.State()))
  {
    ret := c.RegWrite(RX_P0_ADDR, AP_AUX_ADDR_7_0, 0x30);
    var r := c.RegWrite(RX_P0_ADDR, AP_AUX_COMMAND, 0x04);
    ret := Or32(ret, r);
    r := c.RegWrite(RX_P0_ADDR, AP_AUX_CTRL_STATUS, AP_AUX_CTRL_ADDRONLY + AP_AUX_CTRL_OP_EN);
    ret := Or32(ret, r);
    r := WaitAuxOpFinish(c);
    ret := Or32(ret, r);
  }

  /** The preamble of segments_edid_read on the chip. */
  method SegmentSetup(c: Chip, segment: byte) returns (ret: i32)
    modifies c
    ensures Outcome(c.State(), ret) == SegmentSetupEffect(c.oracle, old(c.State()), segment)
  {
    ret := AddressOnlyWrite(c);
    var r := AuxWr(c, segment);
    ret := Or32(ret, r);
    r := c.RegWrite(RX_P0_ADDR, AP_AUX_ADDR_7_0, 0x50);
    ret := Or32(ret, r);
  }

  /** segments_edid_read on the chip, the bounce buffer passed in as `prior` and returned as `block`. */
  method SegmentsEdidRead(c: Chip, segment: byte, prior: seq<byte>, offset: byte) returns (ret: i32, block: seq<byte>)
    modifies c
    ensures BlockOutcome(c.State(), ret, block) == SegmentsEdidReadEffect(c.oracle, old(c.State()), segment, prior, offset)
  {
    ret := SegmentSetup(c, segment);
    block := prior;
    if ret < 0 {
      return;
    }
    var cnt: byte := 0;
    while cnt < 3
      invariant cnt <= 4 && block == prior
      invariant SegmentsReadFrom(c.oracle, c.State(), offset, prior, ret, cnt as nat)
                == SegmentsEdidReadEffect(c.oracle, old(c.State()), segment, prior, offset)
    {
      var s := ReadAttempt(c, offset);
      var ch := LowByte(s);
      if ch == 1 {
        ret := RstAux(c);
        cnt := cnt + 1;
      } else {
        ret, block := c.RegBlockRead(RX_P0_ADDR, AP_AUX_BUFF_START, block);
        return;
      }
      cnt := cnt + 1;
    }
  }
}
