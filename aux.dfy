/*
 * The chip's AUX engine, through which the driver talks to the DisplayPort
 * sink: a command is armed by setting AP_AUX_CTRL_OP_EN, and the engine
 * clears that bit when the transaction is over, leaving an error code in the
 * low nibble of the status register.
 */
module AuxChannel {
  import opened CTypes
  import opened Registers
  import opened I2c

  const STATUS_KEY: Key := (RX_P0_ADDR, AP_AUX_CTRL_STATUS)
  const BUFF_KEY: Key := (RX_P0_ADDR, AP_AUX_BUFF_START)
  const COMMAND_KEY: Key := (RX_P0_ADDR, AP_AUX_COMMAND)
  const RST_KEY: Key := (TX_P2_ADDR, RST_CTRL2)

  /** The engine is still busy when it reports this status byte. */
  predicate Busy(status: byte)
  {
    And8(status, AP_AUX_CTRL_OP_EN) != 0
  }

  /** `n` reads of the AUX status register. */
  function StatusPolls(n: nat): (polls: seq<Access>)
    ensures |polls| == n && forall i :: 0 <= i < n ==> polls[i] == Get(STATUS_KEY)
  {
    seq(n, _ => Get(STATUS_KEY))
  }

  /**
   * What wait_aux_op_finish can return: -1, or the re-read status byte,
   * whose error nibble is then clear.
   */
  predicate AuxResult(ret: i32)
  {
    ret == -1 || (0 <= ret < 0x100 && ret % 0x10 == 0)
  }

  /**
   * Where the polling loop of wait_aux_op_finish stands: the bus, whether
   * OP_EN was seen clear, the byte `val` holds, and the bytes polled so far.
   */
  datatype Polled = Polled(bus: Bus, cleared: bool, last: byte, seen: seq<byte>)

  /**
   * The polling loop of wait_aux_op_finish with `left` polls to go, each one
   * 2 ms after the last: read the status register into `val` and stop as
   * soon as OP_EN reads clear.  A failed read leaves `val` as it was.
   */
  function WaitPolls(o: Oracle, b: Bus, val: byte, seen: seq<byte>, left: nat): Polled
    decreases left
  {
    if left == 0 then Polled(b, false, val, seen)
    else
      var rd := RegReadEffect(o, b, RX_P0_ADDR, AP_AUX_CTRL_STATUS, val);
      if !Busy(rd.val) then Polled(rd.bus, true, rd.val, seen + [rd.val])
      else WaitPolls(o, rd.bus, rd.val, seen + [rd.val], left - 1)
  }

  /** The 150 polls of wait_aux_op_finish from state `b`; `val` starts uninitialised. */
  function AuxPolls(o: Oracle, b: Bus): Polled
  {
    WaitPolls(o, b, Stale(o, b, 0), [], 150)
  }

  /**
   * wait_aux_op_finish: -1 when OP_EN never cleared; otherwise the status
   * register is read once more, and the result is that byte, or -1 when
   * the read failed or the byte's error nibble is set.
   */
  function WaitAuxEffect(o: Oracle, b: Bus): Outcome
  {
    var p := AuxPolls(o, b);
    if !p.cleared then Outcome(p.bus, -1)
    else
      var rd := RegReadEffect(o, p.bus, RX_P0_ADDR, AP_AUX_CTRL_STATUS, p.last);
      Outcome(rd.bus, if rd.ret < 0 || And8(rd.val, 0x0F) != 0 then -1 else rd.ret)
  }

  /** The register accesses of wait_aux_op_finish from state `b`: status reads only. */
  function WaitLog(o: Oracle, b: Bus): seq<Access>
  {
    var p := AuxPolls(o, b);
    StatusPolls(|p.seen| + if p.cleared then 1 else 0)
  }

  /**
   * The polling loop reads the status register once per poll; every poll
   * but the last saw OP_EN set; it stops early exactly when a poll saw it
   * clear, and that byte is what `val` then holds.
   */
  lemma {:induction false} WaitPollsSpec(o: Oracle, b: Bus, val: byte, seen: seq<byte>, left: nat)
    ensures var p := WaitPolls(o, b, val, seen, left);
      && |seen| <= |p.seen| <= |seen| + left
      && p.seen[..|seen|] == seen
      && (forall i :: |seen| <= i < |p.seen| - 1 ==> Busy(p.seen[i]))
      && (p.cleared ==> |seen| < |p.seen| && p.last == p.seen[|p.seen| - 1] && !Busy(p.last))
      && (!p.cleared ==> |p.seen| == |seen| + left && (left > 0 ==> Busy(p.seen[|p.seen| - 1])))
      && p.bus.log == b.log + StatusPolls(|p.seen| - |seen|)
    decreases left
  {
    if left > 0 {
      var rd := RegReadEffect(o, b, RX_P0_ADDR, AP_AUX_CTRL_STATUS, val);
      if Busy(rd.val) {
        var p := WaitPolls(o, rd.bus, rd.val, seen + [rd.val], left - 1);
        WaitPollsSpec(o, rd.bus, rd.val, seen + [rd.val], left - 1);
        assert p.seen[..|seen|] == (p.seen[..|seen| + 1])[..|seen|];
        assert b.log + StatusPolls(|p.seen| - |seen|) == rd.bus.log + StatusPolls(|p.seen| - |seen| - 1);
      } else {
        assert StatusPolls(1) == [Get(STATUS_KEY)];
      }
    } else {
      assert StatusPolls(0) == [];
    }
  }

  /**
   * The polls of wait_aux_op_finish: between 1 and 150 reads of the status
   * register, all but the last of which saw OP_EN set.
   */
  lemma AuxPollsSpec(o: Oracle, b: Bus)
    ensures var p := AuxPolls(o, b);
      && 1 <= |p.seen| <= 150
      && (forall i :: 0 <= i < |p.seen| - 1 ==> Busy(p.seen[i]))
  {
    var none: seq<byte> := [];
    WaitPollsSpec(o, b, Stale(o, b, 0), none, 150);
    assert |none| == 0;
  }

  /**
   * The loop of wait_aux_op_finish ends early exactly when the last poll saw
   * OP_EN clear, with `val` holding that byte, and otherwise made all 150.
   */
  lemma AuxPollsEnd(o: Oracle, b: Bus)
    ensures var p := AuxPolls(o, b);
      && |p.seen| > 0
      && (p.cleared <==> !Busy(p.seen[|p.seen| - 1]))
      && (p.cleared ==> p.last == p.seen[|p.seen| - 1])
      && (!p.cleared ==> |p.seen| == 150)
  {
    var none: seq<byte> := [];
    WaitPollsSpec(o, b, Stale(o, b, 0), none, 150);
    assert |none| == 0;
  }

  /** Every access of the polls is a read of the status register, one per poll. */
  lemma AuxPollsLog(o: Oracle, b: Bus)
    ensures var p := AuxPolls(o, b);
      p.bus.log == b.log + StatusPolls(|p.seen|)
  {
    var none: seq<byte> := [];
    WaitPollsSpec(o, b, Stale(o, b, 0), none, 150);
    assert |none| == 0;
  }

  /**
   * wait_aux_op_finish: a timeout returns -1 after the polls; otherwise the
   * result is non-negative exactly when the re-read of the status register
   * succeeded with a clear error nibble, and is then that byte.  Every access
   * is a read of the status register.
   */
  lemma WaitAuxSpec(o: Oracle, b: Bus)
    ensures var p := AuxPolls(o, b);
      var rd := RegReadEffect(o, p.bus, RX_P0_ADDR, AP_AUX_CTRL_STATUS, p.last);
      var w := WaitAuxEffect(o, b);
      && (!p.cleared ==> w == Outcome(p.bus, -1))
      && (p.cleared ==> w.bus == rd.bus)
      && (w.ret >= 0 <==> p.cleared && rd.ret >= 0 && rd.val % 0x10 == 0)
      && (w.ret >= 0 ==> w.ret == rd.val)
      && AuxResult(w.ret)
      && w.bus.log == b.log + WaitLog(o, b)
  {
    var p := AuxPolls(o, b);
    AuxPollsEnd(o, b);
    AuxPollsLog(o, b);
    if p.cleared {
      var rd := RegReadEffect(o, p.bus, RX_P0_ADDR, AP_AUX_CTRL_STATUS, p.last);
      And8LowNibble(rd.val);
      assert StatusPolls(|p.seen|) + [Get(STATUS_KEY)] == StatusPolls(|p.seen| + 1);
    }
  }

  /** The accesses of arming OP_EN from state `b`: the read, and the write-back unless the read failed. */
  function ArmLog(o: Oracle, b: Bus): seq<Access>
  {
    var rd := RegReadEffect(o, b, RX_P0_ADDR, AP_AUX_CTRL_STATUS, 0);
    [Get(STATUS_KEY)] + if rd.ret < 0 then [] else [Set(STATUS_KEY, Or8(rd.val, AP_AUX_CTRL_OP_EN))]
  }

  /** sp_tx_rst_aux: set AUX_RST in RST_CTRL2, then clear it; the status is the OR of the two. */
  function RstAuxEffect(o: Oracle, b: Bus): Outcome
  {
    var raise := WriteOrEffect(o, b, TX_P2_ADDR, RST_CTRL2, AUX_RST);
    var clear := WriteAndEffect(o, raise.bus, TX_P2_ADDR, RST_CTRL2, Not8(AUX_RST));
    Outcome(clear.bus, Or32(raise.ret, clear.ret))
  }

  /** sp_tx_rst_aux never reports a positive status. */
  lemma RstAuxStatus(o: Oracle, b: Bus)
    ensures RstAuxEffect(o, b).ret <= 0
  {
    RstAuxSpec(o, b);
  }

  /**
   * sp_tx_rst_aux pulses AUX_RST: the status is 0 exactly when both
   * read-modify-writes succeeded, and never positive; when the second one
   * succeeds the register is left with AUX_RST clear.  Every access is to
   * RST_CTRL2, and no register but it and the page's reserved one changes.
   */
  lemma RstAuxSpec(o: Oracle, b: Bus)
    ensures var raise := WriteOrEffect(o, b, TX_P2_ADDR, RST_CTRL2, AUX_RST);
      var clear := WriteAndEffect(o, raise.bus, TX_P2_ADDR, RST_CTRL2, Not8(AUX_RST));
      var r := RstAuxEffect(o, b);
      && r.ret <= 0
      && (r.ret == 0 <==> raise.ret == 0 && clear.ret == 0)
      && (clear.ret == 0 ==> RST_KEY in r.bus.regs && And8(r.bus.regs[RST_KEY], AUX_RST) == 0)
      && b.log < r.bus.log
      && OnKey(r.bus.log[|b.log|..], RST_KEY)
      && Agree(b.regs, r.bus.regs, {RST_KEY, (TX_P2_ADDR, ReservedOffset(TX_P2_ADDR))})
  {
    var raise := WriteOrEffect(o, b, TX_P2_ADDR, RST_CTRL2, AUX_RST);
    var clear := WriteAndEffect(o, raise.bus, TX_P2_ADDR, RST_CTRL2, Not8(AUX_RST));
    assert raise.ret <= 0 && b.log < raise.bus.log && OnKey(raise.bus.log[|b.log|..], RST_KEY)
        && Agree(b.regs, raise.bus.regs, {RST_KEY, (TX_P2_ADDR, ReservedOffset(TX_P2_ADDR))}) by {
      WriteOrSpec(o, b, TX_P2_ADDR, RST_CTRL2, AUX_RST);
    }
    assert clear.ret <= 0 && raise.bus.log < clear.bus.log && OnKey(clear.bus.log[|raise.bus.log|..], RST_KEY)
        && Agree(raise.bus.regs, clear.bus.regs, {RST_KEY, (TX_P2_ADDR, ReservedOffset(TX_P2_ADDR))})
        && (clear.ret == 0 ==> RST_KEY in clear.bus.regs && And8(clear.bus.regs[RST_KEY], AUX_RST) == 0) by {
      WriteAndSpec(o, raise.bus, TX_P2_ADDR, RST_CTRL2, Not8(AUX_RST));
      And8ClearsMask(RegReadEffect(o, raise.bus, TX_P2_ADDR, RST_CTRL2, 0).val, AUX_RST);
    }
    Or32NonPositive(raise.ret, clear.ret);
    OnKeyChain(b.log, raise.bus.log, clear.bus.log, RST_KEY);
  }

  /** sp_tx_aux_wr: the buffer, the command, the arming and the wait, their statuses OR-ed in order. */
  function AuxWrEffect(o: Oracle, b: Bus, offset: byte): Outcome
  {
    var buff := RegWriteEffect(o, b, RX_P0_ADDR, AP_AUX_BUFF_START, offset);
    var cmd := RegWriteEffect(o, buff.bus, RX_P0_ADDR, AP_AUX_COMMAND, 0x04);
    var arm := WriteOrEffect(o, cmd.bus, RX_P0_ADDR, AP_AUX_CTRL_STATUS, AP_AUX_CTRL_OP_EN);
    var wait := WaitAuxEffect(o, arm.bus);
    Outcome(wait.bus, Or32(Or32(Or32(buff.ret, cmd.ret), arm.ret), wait.ret))
  }

  /** sp_tx_aux_rd: the command, the arming and the wait, their statuses OR-ed in order. */
  function AuxRdEffect(o: Oracle, b: Bus, lenCmd: byte): Outcome
  {
    var cmd := RegWriteEffect(o, b, RX_P0_ADDR, AP_AUX_COMMAND, lenCmd);
    var arm := WriteOrEffect(o, cmd.bus, RX_P0_ADDR, AP_AUX_CTRL_STATUS, AP_AUX_CTRL_OP_EN);
    var wait := WaitAuxEffect(o, arm.bus);
    Outcome(wait.bus, Or32(Or32(cmd.ret, arm.ret), wait.ret))
  }

  /**
   * sp_tx_aux_wr: the status is negative exactly when one of its four steps
   * failed, and otherwise is the status byte the wait re-read.  The accesses
   * are, in order: `offset` into the AUX buffer, command 0x04, the
   * read-modify-write arming OP_EN, and the wait's status reads.
   */
  lemma AuxWrSpec(o: Oracle, b: Bus, offset: byte)
    ensures var buff := RegWriteEffect(o, b, RX_P0_ADDR, AP_AUX_BUFF_START, offset);
      var cmd := RegWriteEffect(o, buff.bus, RX_P0_ADDR, AP_AUX_COMMAND, 0x04);
      var arm := WriteOrEffect(o, cmd.bus, RX_P0_ADDR, AP_AUX_CTRL_STATUS, AP_AUX_CTRL_OP_EN);
      var wait := WaitAuxEffect(o, arm.bus);
      var w := AuxWrEffect(o, b, offset);
      && buff.ret <= 0 && cmd.ret <= 0 && arm.ret <= 0 && AuxResult(wait.ret)
      && (w.ret < 0 <==> buff.ret < 0 || cmd.ret < 0 || arm.ret < 0 || wait.ret < 0)
      && (w.ret >= 0 ==> w.ret == wait.ret)
      && w.bus.log == b.log + [Set(BUFF_KEY, offset), Set(COMMAND_KEY, 0x04)] + ArmLog(o, cmd.bus) + WaitLog(o, arm.bus)
  {
    var buff := RegWriteEffect(o, b, RX_P0_ADDR, AP_AUX_BUFF_START, offset);
    var cmd := RegWriteEffect(o, buff.bus, RX_P0_ADDR, AP_AUX_COMMAND, 0x04);
    var arm := WriteOrEffect(o, cmd.bus, RX_P0_ADDR, AP_AUX_CTRL_STATUS, AP_AUX_CTRL_OP_EN);
    var wait := WaitAuxEffect(o, arm.bus);
    assert buff.ret <= 0 && cmd.ret <= 0 && buff.bus.log == b.log + [Set(BUFF_KEY, offset)]
        && cmd.bus.log == buff.bus.log + [Set(COMMAND_KEY, 0x04)] by {
      RegWriteSpec(o, b, RX_P0_ADDR, AP_AUX_BUFF_START, offset);
      RegWriteSpec(o, buff.bus, RX_P0_ADDR, AP_AUX_COMMAND, 0x04);
    }
    assert arm.ret <= 0 && arm.bus.log == cmd.bus.log + ArmLog(o, cmd.bus);
    assert AuxResult(wait.ret) && wait.bus.log == arm.bus.log + WaitLog(o, arm.bus) by {
      WaitAuxSpec(o, arm.bus);
    }
    assert b.log + [Set(BUFF_KEY, offset)] + [Set(COMMAND_KEY, 0x04)] == b.log + [Set(BUFF_KEY, offset), Set(COMMAND_KEY, 0x04)];
    AuxWrStatus(buff.ret, cmd.ret, arm.ret, wait.ret);
  }

  /** The OR of sp_tx_aux_wr's four statuses. */
  lemma AuxWrStatus(buff: i32, cmd: i32, arm: i32, wait: i32)
    requires buff <= 0 && cmd <= 0 && arm <= 0 && AuxResult(wait)
    ensures var r := Or32(Or32(Or32(buff, cmd), arm), wait);
      && (r < 0 <==> buff < 0 || cmd < 0 || arm < 0 || wait < 0)
      && (r >= 0 ==> r == wait)
  {
    Or32NonPositive(buff, cmd);
    CleanAuxStatus(Or32(buff, cmd), arm, wait);
  }

  /**
   * sp_tx_aux_rd: the status is negative exactly when one of its three
   * steps failed, -1 when the wait timed out or failed, and otherwise the
   * status byte the wait re-read; the retry test of its callers fires only
   * when the wait succeeded and one of the writes failed.  The accesses are,
   * in order: the command, the read-modify-write arming OP_EN, and the
   * wait's status reads.
   */
  lemma AuxRdSpec(o: Oracle, b: Bus, lenCmd: byte)
    ensures var cmd := RegWriteEffect(o, b, RX_P0_ADDR, AP_AUX_COMMAND, lenCmd);
      var arm := WriteOrEffect(o, cmd.bus, RX_P0_ADDR, AP_AUX_CTRL_STATUS, AP_AUX_CTRL_OP_EN);
      var wait := WaitAuxEffect(o, arm.bus);
      var w := AuxRdEffect(o, b, lenCmd);
      && cmd.ret <= 0 && arm.ret <= 0 && AuxResult(wait.ret)
      && (w.ret < 0 <==> cmd.ret < 0 || arm.ret < 0 || wait.ret < 0)
      && (wait.ret == -1 ==> w.ret == -1)
      && (w.ret >= 0 ==> w.ret == wait.ret)
      && (LowByte(w.ret) == 1 ==> wait.ret >= 0 && (cmd.ret < 0 || arm.ret < 0))
      && w.bus.log == b.log + [Set(COMMAND_KEY, lenCmd)] + ArmLog(o, cmd.bus) + WaitLog(o, arm.bus)
  {
    var cmd := RegWriteEffect(o, b, RX_P0_ADDR, AP_AUX_COMMAND, lenCmd);
    var arm := WriteOrEffect(o, cmd.bus, RX_P0_ADDR, AP_AUX_CTRL_STATUS, AP_AUX_CTRL_OP_EN);
    var wait := WaitAuxEffect(o, arm.bus);
    assert cmd.ret <= 0 && cmd.bus.log == b.log + [Set(COMMAND_KEY, lenCmd)] by {
      RegWriteSpec(o, b, RX_P0_ADDR, AP_AUX_COMMAND, lenCmd);
    }
    assert arm.ret <= 0 && arm.bus.log == cmd.bus.log + ArmLog(o, cmd.bus);
    assert AuxResult(wait.ret) && wait.bus.log == arm.bus.log + WaitLog(o, arm.bus) by {
      WaitAuxSpec(o, arm.bus);
    }
    AuxFailureTest(cmd.ret, arm.ret, wait.ret);
    CleanAuxStatus(cmd.ret, arm.ret, wait.ret);
  }

  /** sp_tx_aux_wr only appends to the access log, starting with the offset written to the AUX buffer. */
  lemma AuxWrExtends(o: Oracle, b: Bus, offset: byte)
    ensures var w := AuxWrEffect(o, b, offset);
      b.log < w.bus.log && w.bus.log[|b.log|] == Set(BUFF_KEY, offset)
  {
    AuxWrSpec(o, b, offset);
  }

  /** sp_tx_aux_rd only appends to the access log, starting with its command. */
  lemma AuxRdExtends(o: Oracle, b: Bus, lenCmd: byte)
    ensures var w := AuxRdEffect(o, b, lenCmd);
      b.log < w.bus.log && w.bus.log[|b.log|] == Set(COMMAND_KEY, lenCmd)
  {
    AuxRdSpec(o, b, lenCmd);
  }

  /** One poll of the loop: stop on OP_EN clear, otherwise go on with one poll fewer. */
  lemma WaitPollsStep(o: Oracle, b: Bus, val: byte, seen: seq<byte>, left: nat)
    requires left > 0
    ensures var rd := RegReadEffect(o, b, RX_P0_ADDR, AP_AUX_CTRL_STATUS, val);
      WaitPolls(o, b, val, seen, left)
      == if Busy(rd.val) then WaitPolls(o, rd.bus, rd.val, seen + [rd.val], left - 1)
         else Polled(rd.bus, true, rd.val, seen + [rd.val])
  {
  }

  /**
   * The polling loop of wait_aux_op_finish on the chip: `val` is the byte
   * the uninitialised local holds after it, and `cleared` tells whether the
   * loop stopped on OP_EN clear.
   */
  method PollAuxStatus(c: Chip) returns (cleared: bool, val: byte)
    modifies c
    ensures var p := AuxPolls(c.oracle, old(c.State()));
      c.State() == p.bus && cleared == p.cleared && val == p.last
  {
    ghost var p := AuxPolls(c.oracle, c.State());
    val := c.oracle.junk(|c.trace|, 0);  // whatever the uninitialised local holds
    cleared := false;
    ghost var seen: seq<byte> := [];
    var loop := 0;
    while loop < 150
      invariant 0 <= loop <= 150 && !cleared
      invariant WaitPolls(c.oracle, c.State(), val, seen, 150 - loop) == p
    {
      // mdelay(2)
      ghost var b := c.State();
      WaitPollsStep(c.oracle, b, val, seen, 150 - loop);
      var r;
      r, val := c.RegRead(RX_P0_ADDR, AP_AUX_CTRL_STATUS, val);
      seen := seen + [val];
      if !Busy(val) {
        cleared := true;
        return;
      }
      loop := loop + 1;
    }
  }

  /** wait_aux_op_finish, polling the chip. */
  method WaitAuxOpFinish(c: Chip) returns (ret: i32)
    modifies c
    ensures Outcome(c.State(), ret) == WaitAuxEffect(c.oracle, old(c.State()))
  {
    var cleared, val := PollAuxStatus(c);
    if !cleared {
      return -1;
    }
    ret, val := c.RegRead(RX_P0_ADDR, AP_AUX_CTRL_STATUS, val);
    if ret < 0 || And8(val, 0x0F) != 0 {
      ret := -1;
    }
  }

  /** sp_tx_rst_aux on the chip. */
  method RstAux(c: Chip) returns (ret: i32)
    modifies c
    ensures Outcome(c.State(), ret) == RstAuxEffect(c.oracle, old(c.State()))
  {
    ret := c.WriteOr(TX_P2_ADDR, RST_CTRL2, AUX_RST);
    var r := c.WriteAnd(TX_P2_ADDR, RST_CTRL2, Not8(AUX_RST));
    ret := Or32(ret, r);
  }

  /** sp_tx_aux_wr on the chip. */
  method AuxWr(c: Chip, offset: byte) returns (ret: i32)
    modifies c
    ensures Outcome(c.State(), ret) == AuxWrEffect(c.oracle, old(c.State()), offset)
  {
    ret := c.RegWrite(RX_P0_ADDR, AP_AUX_BUFF_START, offset);
    var r := c.RegWrite(RX_P0_ADDR, AP_AUX_COMMAND, 0x04);
    ret := Or32(ret, r);
    r := c.WriteOr(RX_P0_ADDR, AP_AUX_CTRL_STATUS, AP_AUX_CTRL_OP_EN);
    ret := Or32(ret, r);
    r := WaitAuxOpFinish(c);
    ret := Or32(ret, r);
  }

  /** sp_tx_aux_rd on the chip. */
  method AuxRd(c: Chip, lenCmd: byte) returns (ret: i32)
    modifies c
    ensures Outcome(c.State(), ret) == AuxRdEffect(c.oracle, old(c.State()), lenCmd)
  {
    ret := c.RegWrite(RX_P0_ADDR, AP_AUX_COMMAND, lenCmd);
    var r;
    r := c.WriteOr(RX_P0_ADDR, AP_AUX_CTRL_STATUS, AP_AUX_CTRL_OP_EN);
    ret := Or32(ret, r);
    r := WaitAuxOpFinish(c);
    ret := Or32(ret, r);
  }

  /**
   * The failure test `c == 1` that edid_read and segments_edid_read apply to
   * the low byte of sp_tx_aux_rd's status: a timed-out or failed wait makes
   * the status -1, whose low byte is 0xFF, and a clean run gives the status
   * byte, whose low nibble is clear; so the test fires only when the wait
   * succeeded and one of the two writes failed with a code whose low byte is
   * 1.
   */
  lemma AuxFailureTest(command: i32, arm: i32, wait: i32)
    requires command <= 0 && arm <= 0 && AuxResult(wait)
    ensures wait == -1 ==> LowByte(Or32(Or32(command, arm), wait)) == 0xFF
    ensures Or32(Or32(command, arm), wait) >= 0 ==> LowByte(Or32(Or32(command, arm), wait)) % 0x10 == 0
    ensures LowByte(Or32(Or32(command, arm), wait)) == 1 ==> wait >= 0 && (command < 0 || arm < 0)
  {
    TimedOutAuxStatus(Or32(command, arm), wait);
    CleanAuxStatus(command, arm, wait);
    FailedWriteAuxStatus(command, arm, wait);
  }

  /** A timed-out or failed wait makes the whole status -1. */
  lemma TimedOutAuxStatus(a: i32, wait: i32)
    ensures wait == -1 ==> Or32(a, wait) == -1 && LowByte(Or32(a, wait)) == 0xFF
  {
    if wait == -1 {
      Or32MinusOne(a);
    }
  }

  /** A non-negative status comes from clean writes and is the wait's status byte. */
  lemma CleanAuxStatus(command: i32, arm: i32, wait: i32)
    requires command <= 0 && arm <= 0 && AuxResult(wait)
    ensures Or32(Or32(command, arm), wait) >= 0 ==> Or32(Or32(command, arm), wait) == wait
    ensures Or32(Or32(command, arm), wait) >= 0 ==> LowByte(Or32(Or32(command, arm), wait)) % 0x10 == 0
  {
    if Or32(Or32(command, arm), wait) >= 0 {
      assert command == 0 && arm == 0 && wait >= 0;
      Or32Zero(0);
      Or32Zero(wait);
      assert LowByte(wait) == wait;
    }
  }

  /** The retry test can only fire on a status whose wait succeeded. */
  lemma FailedWriteAuxStatus(command: i32, arm: i32, wait: i32)
    requires command <= 0 && arm <= 0 && AuxResult(wait)
    ensures LowByte(Or32(Or32(command, arm), wait)) == 1 ==> wait >= 0 && (command < 0 || arm < 0)
  {
    TimedOutAuxStatus(Or32(command, arm), wait);
    CleanAuxStatus(command, arm, wait);
  }

}
