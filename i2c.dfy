/*
 * Register access layer of the ANX7625 driver.
 *
 * The I2C bus itself is abstract: an `Oracle` says what the k-th transfer
 * returns (a byte count, or a negative error code) and which bytes the k-th
 * read transfer delivers.  Every transfer the driver issues is recorded in
 * `trace`.  `regs` holds the last value the host successfully wrote to each
 * register; a successful read of a register the chip does not change on its
 * own returns that value, any other read returns what the oracle delivers.
 * `log` records the register accesses made through the anx7625_reg_*
 * helpers, so the effect of a whole driver operation includes the order of
 * its accesses.
 *
 * Each operation is given twice: as a pure function from the old bus state
 * to the new one (the `...Effect` functions, about which the lemmas below are
 * stated), and as a method of `Chip` written the way the driver is, whose
 * contract ties the new state to that function.
 */
module I2c {
  import opened CTypes
  import opened Registers

  /** One transfer of the bus protocol. */
  datatype Transfer =
    | WriteTo(addr: byte, data: seq<byte>, stop: bool)
    | ReadFrom(addr: byte, len: nat)

  /** A register: its page's I2C sub-address and its offset in the page. */
  type Key = (byte, byte)

  /** Registers of the pages RX_P0, RX_P1 and RX_P2. */
  function P0(offset: byte): Key { (RX_P0_ADDR, offset) }
  function P1(offset: byte): Key { (RX_P1_ADDR, offset) }
  function P2(offset: byte): Key { (RX_P2_ADDR, offset) }

  /** A register access made through the anx7625_reg_* helpers. */
  datatype Access =
    | Get(key: Key)
    | Set(key: Key, val: byte)
    | GetBlock(key: Key, len: nat)

  /**
   * The bus as the driver cannot predict it: whether the device object
   * exists, what each transfer returns, the bytes each read delivers, and
   * what an uninitialised local holds (`junk(k, j)` is its j-th byte when k
   * transfers have been issued).
   */
  datatype Oracle = Oracle(attached: bool, result: nat -> i32, payload: (nat, nat) -> byte, junk: (nat, nat) -> byte)

  /** The observable state of the register layer. */
  datatype Bus = Bus(trace: seq<Transfer>, regs: map<Key, byte>, lastAddr: byte, log: seq<Access>)

  /** The new state and the status an operation returns. */
  datatype Outcome = Outcome(bus: Bus, ret: i32)
  datatype ReadOutcome = ReadOutcome(bus: Bus, ret: i32, val: byte)
  datatype BlockOutcome = BlockOutcome(bus: Bus, ret: i32, buf: seq<byte>)

  /** The status the i2c_* helpers report for transfer k: 0 or its negative code. */
  function Status(o: Oracle, k: nat): (s: i32)
    ensures s == 0 <==> o.result(k) >= 0
    ensures s < 0 ==> s == o.result(k)
  {
    if o.result(k) >= 0 then 0 else o.result(k)
  }

  /** The `len` bytes delivered by read transfer k. */
  function Payload(o: Oracle, k: nat, len: nat): (bs: seq<byte>)
    ensures |bs| == len
  {
    var f := o.payload;
    seq(len, (j: nat) => f(k, j))
  }

  /** Byte j of an uninitialised local declared in state `b`. */
  function Stale(o: Oracle, b: Bus, j: nat): byte
  {
    o.junk(|b.trace|, j)
  }

  /** The first n bytes of an uninitialised local array declared after k transfers. */
  function Uninitialised(o: Oracle, k: nat, n: nat): (r: seq<byte>)
    ensures |r| == n
  {
    seq<byte>(n, (j: int) requires 0 <= j < n => o.junk(k, j))
  }

  /** The byte a successful one-byte read of `key`, issued as transfer k, delivers. */
  function Delivered(o: Oracle, regs: map<Key, byte>, key: Key, k: nat): byte
  {
    if !Volatile(key.0, key.1) && key in regs then regs[key] else o.payload(k, 0)
  }

  // ---------------------------------------------------------------------
  // Memory-address encoding of read_mem_ / write_mem_

  /** `memaddr` as `addrsize / 8` bytes, most significant first (`memaddr >> i` for i = addrsize-8, addrsize-16, ...). */
  function MemAddrBytes(memaddr: u32, addrsize: nat): (bs: seq<byte>)
    ensures |bs| == addrsize / 8
  {
    if addrsize < 8 then []
    else [LowByte(memaddr / Pow2(addrsize - 8))] + MemAddrBytes(memaddr, addrsize - 8)
  }

  /** The number a big-endian byte string stands for. */
  function BigEndian(bs: seq<byte>): nat
  {
    if bs == [] then 0 else bs[0] * Pow2(8 * (|bs| - 1)) + BigEndian(bs[1..])
  }

  /** Splitting x at bit 8(n+1): its low byte-and-below part is byte n times p plus x mod p. */
  lemma ModNextByte(x: nat, p: nat)
    requires p > 0
    ensures x % (0x100 * p) == ((x / p) % 0x100) * p + x % p
  {
    var q := x / p;
    var hi := q / 0x100;
    var lo := q % 0x100;
    var r := x % p;
    assert x == (0x100 * p) * hi + (p * lo + r) by {
      assert x == p * q + r;
      assert q == 0x100 * hi + lo;
      assert p * q == (0x100 * p) * hi + p * lo by {
        assert p * (0x100 * hi + lo) == p * (0x100 * hi) + p * lo;
      }
    }
    assert 0 <= p * lo + r < 0x100 * p by {
      MulMonotone(p, 0, lo);
      MulMonotone(p, lo, 0xFF);
    }
    DivModUnique(x, 0x100 * p, hi, p * lo + r);
    assert lo * p == p * lo;
  }

  /** Reading the address bytes back big-endian gives the address truncated to addrsize bits. */
  lemma {:induction false} MemAddrRoundTrip(memaddr: u32, n: nat)
    ensures BigEndian(MemAddrBytes(memaddr, 8 * n)) == memaddr % Pow2(8 * n)
  {
    if n > 0 {
      var p := Pow2(8 * (n - 1));
      var bs := MemAddrBytes(memaddr, 8 * n);
      assert bs[1..] == MemAddrBytes(memaddr, 8 * (n - 1));
      calc {
        BigEndian(bs);
        bs[0] * p + BigEndian(bs[1..]);
        { MemAddrRoundTrip(memaddr, n - 1); }
        (memaddr / p) % 0x100 * p + memaddr % p;
        { ModNextByte(memaddr, p); }
        memaddr % (0x100 * p);
        { Pow2Add(8, 8 * (n - 1)); Pow2Values(); }
        memaddr % Pow2(8 * n);
      }
    }
  }

  /** A 32-bit address encoded with addrsize 32 reads back unchanged. */
  lemma MemAddr32RoundTrip(memaddr: u32)
    ensures |MemAddrBytes(memaddr, 32)| == 4
    ensures BigEndian(MemAddrBytes(memaddr, 32)) == memaddr
  {
    MemAddrRoundTrip(memaddr, 4);
    Pow2Values();
  }

  /** The address-encoding loop of read_mem_ and write_mem_. */
  method EncodeMemAddr(memaddr: u32, addrsize: byte) returns (buf: seq<byte>)
    requires addrsize / 8 <= 4
    ensures buf == MemAddrBytes(memaddr, addrsize)
  {
    buf := [];
    var i: int := addrsize - 8;
    while i >= 0
      invariant -8 <= i
      invariant buf + MemAddrBytes(memaddr, i + 8) == MemAddrBytes(memaddr, addrsize)
      decreases i + 8
    {
      assert MemAddrBytes(memaddr, i + 8) == [LowByte(memaddr / Pow2(i))] + MemAddrBytes(memaddr, i);
      buf := buf + [LowByte(memaddr / Pow2(i))];
      i := i - 8;
    }
  }

  // ---------------------------------------------------------------------
  // Effects of the register-layer operations on the bus state

  /** read_mem_: address bytes without STOP, then the read; a short address phase ends with a bare STOP. */
  function ReadMemEffect(o: Oracle, b: Bus, addr: byte, memaddr: u32, addrsize: byte, prior: seq<byte>): BlockOutcome
    requires addrsize / 8 <= 4
  {
    var mb := MemAddrBytes(memaddr, addrsize);
    var k := |b.trace|;
    if o.result(k) != |mb| then
      BlockOutcome(b.(trace := b.trace + [WriteTo(addr, mb, false), WriteTo(addr, [], true)]), o.result(k), prior)
    else
      BlockOutcome(b.(trace := b.trace + [WriteTo(addr, mb, false), ReadFrom(addr, |prior|)]), o.result(k + 1),
                   if o.result(k + 1) >= 0 then Payload(o, k + 1, |prior|) else prior)
  }

  /** write_mem_: one transfer carrying the address bytes followed by the data. */
  function WriteMemEffect(o: Oracle, b: Bus, addr: byte, memaddr: u32, addrsize: byte, data: seq<byte>): Outcome
    requires addrsize / 8 <= 4
  {
    Outcome(b.(trace := b.trace + [WriteTo(addr, MemAddrBytes(memaddr, addrsize) + data, true)]), o.result(|b.trace|))
  }

  /** i2c_writeb: one two-byte write (offset, value) with STOP. */
  function WritebEffect(o: Oracle, b: Bus, saddr: byte, offset: byte, val: byte): Outcome
  {
    if !o.attached then Outcome(b, -1)
    else
      var k := |b.trace|;
      var r := Status(o, k);
      Outcome(b.(trace := b.trace + [WriteTo(saddr, [offset, val], true)],
                 regs := if r == 0 then b.regs[(saddr, offset) := val] else b.regs), r)
  }

  /** i2c_readb: write the offset, then read one byte if that succeeded. */
  function ReadbEffect(o: Oracle, b: Bus, saddr: byte, offset: byte, prior: byte): ReadOutcome
  {
    if !o.attached then ReadOutcome(b, -1, prior)
    else
      var k := |b.trace|;
      if o.result(k) < 0 then
        ReadOutcome(b.(trace := b.trace + [WriteTo(saddr, [offset], true)]), o.result(k), prior)
      else
        var r := Status(o, k + 1);
        ReadOutcome(b.(trace := b.trace + [WriteTo(saddr, [offset], true), ReadFrom(saddr, 1)]), r,
                    if r == 0 then Delivered(o, b.regs, (saddr, offset), k + 1) else prior)
  }

  /** i2c_read_bytes: write the offset, then read `|prior|` bytes if that succeeded. */
  function ReadBytesEffect(o: Oracle, b: Bus, saddr: byte, offset: byte, prior: seq<byte>): BlockOutcome
  {
    if !o.attached then BlockOutcome(b, -1, prior)
    else
      var k := |b.trace|;
      if o.result(k) < 0 then
        BlockOutcome(b.(trace := b.trace + [WriteTo(saddr, [offset], true)]), o.result(k), prior)
      else
        var r := Status(o, k + 1);
        BlockOutcome(b.(trace := b.trace + [WriteTo(saddr, [offset], true), ReadFrom(saddr, |prior|)]), r,
                     if r == 0 then Payload(o, k + 1, |prior|) else prior)
  }

  /** i2c_access_workaround: on a change of sub-address, remember it and write 0x00 to its reserved offset. */
  function WorkaroundEffect(o: Oracle, b: Bus, saddr: byte): Outcome
  {
    if saddr == b.lastAddr then Outcome(b, 0)
    else WritebEffect(o, b.(lastAddr := saddr), saddr, ReservedOffset(saddr), 0x00)
  }

  /** anx7625_reg_read: the byte value itself on success, the negative code otherwise. */
  function RegReadEffect(o: Oracle, b: Bus, saddr: byte, offset: byte, prior: byte): ReadOutcome
  {
    var w := WorkaroundEffect(o, b, saddr);
    var rd := ReadbEffect(o, w.bus, saddr, offset, prior);
    var bus := rd.bus.(log := b.log + [Get((saddr, offset))]);
    ReadOutcome(bus, if rd.ret < 0 then rd.ret else rd.val, rd.val)
  }

  /** anx7625_reg_block_read. */
  function RegBlockReadEffect(o: Oracle, b: Bus, saddr: byte, offset: byte, prior: seq<byte>): BlockOutcome
  {
    var rd := ReadBytesEffect(o, WorkaroundEffect(o, b, saddr).bus, saddr, offset, prior);
    rd.(bus := rd.bus.(log := b.log + [GetBlock((saddr, offset), |prior|)]))
  }

  /** anx7625_reg_write. */
  function RegWriteEffect(o: Oracle, b: Bus, saddr: byte, offset: byte, val: byte): Outcome
  {
    var w := WritebEffect(o, WorkaroundEffect(o, b, saddr).bus, saddr, offset, val);
    w.(bus := w.bus.(log := b.log + [Set((saddr, offset), val)]))
  }

  /** anx7625_write_or: read, then write back `val | mask` unless the read failed. */
  function WriteOrEffect(o: Oracle, b: Bus, saddr: byte, offset: byte, mask: byte): Outcome
  {
    var rd := RegReadEffect(o, b, saddr, offset, 0);
    if rd.ret < 0 then Outcome(rd.bus, rd.ret)
    else RegWriteEffect(o, rd.bus, saddr, offset, Or8(rd.val, mask))
  }

  /** anx7625_write_and: read, then write back `val & mask` unless the read failed. */
  function WriteAndEffect(o: Oracle, b: Bus, saddr: byte, offset: byte, mask: byte): Outcome
  {
    var rd := RegReadEffect(o, b, saddr, offset, 0);
    if rd.ret < 0 then Outcome(rd.bus, rd.ret)
    else RegWriteEffect(o, rd.bus, saddr, offset, And8(rd.val, mask))
  }

  // ---------------------------------------------------------------------
  // Properties of the register layer

  /**
   * The address-switch workaround: an access to the sub-address used last
   * issues no transfer; a change issues exactly one write of 0x00 to the
   * new page's reserved offset (RSVD_00_ADDR for pages without one), and the
   * new sub-address is remembered even when that write fails.  Only the
   * reserved register can change.
   */
  lemma WorkaroundTransfers(o: Oracle, b: Bus, saddr: byte)
    ensures var w := WorkaroundEffect(o, b, saddr);
      && w.bus.lastAddr == saddr
      && w.ret <= 0
      && (saddr == b.lastAddr ==> w.bus == b && w.ret == 0)
      && (saddr != b.lastAddr && o.attached ==>
            w.bus.trace == b.trace + [WriteTo(saddr, [ReservedOffset(saddr), 0x00], true)])
      && (saddr != b.lastAddr && !o.attached ==> w.bus.trace == b.trace && w.ret == -1)
      && (forall key :: key != (saddr, ReservedOffset(saddr)) && key in w.bus.regs ==> key in b.regs && w.bus.regs[key] == b.regs[key])
      && (forall key :: key != (saddr, ReservedOffset(saddr)) && key in b.regs ==> key in w.bus.regs)
  {
  }

  /** Two accesses to the same page in a row: the second issues no workaround transfer. */
  lemma WorkaroundIdempotent(o: Oracle, b: Bus, saddr: byte)
    ensures var w := WorkaroundEffect(o, b, saddr);
      WorkaroundEffect(o, w.bus, saddr) == Outcome(w.bus, 0)
  {
  }

  /**
   * anx7625_write_or: when the read fails its negative code is returned and
   * no write follows; otherwise the register is written with the value read
   * OR the mask, which on success is what the register then holds.  No
   * register other than the target and the page's reserved one changes.
   */
  lemma WriteOrSpec(o: Oracle, b: Bus, saddr: byte, offset: byte, mask: byte)
    ensures var rd := RegReadEffect(o, b, saddr, offset, 0);
      var w := WriteOrEffect(o, b, saddr, offset, mask);
      && (rd.ret < 0 ==> w.ret == rd.ret && w.bus == rd.bus)
      && (rd.ret >= 0 && o.attached ==>
            w.bus.trace == rd.bus.trace + [WriteTo(saddr, [offset, Or8(rd.val, mask)], true)])
      && (rd.ret >= 0 && w.ret == 0 ==> (saddr, offset) in w.bus.regs && w.bus.regs[(saddr, offset)] == Or8(rd.val, mask))
      && Agree(b.regs, w.bus.regs, {(saddr, offset), (saddr, ReservedOffset(saddr))})
      && w.ret <= 0
      && w.bus.log == b.log + [Get((saddr, offset))] + (if rd.ret < 0 then [] else [Set((saddr, offset), Or8(rd.val, mask))])
      && OnKey(w.bus.log[|b.log|..], (saddr, offset))
  {
    WorkaroundTransfers(o, b, saddr);
    var w := WriteOrEffect(o, b, saddr, offset, mask);
    assert w.bus.log[|b.log|..] == w.bus.log[|b.log|..|w.bus.log|];
  }

  /** anx7625_write_and: the same shape as write_or, with `val & mask`. */
  lemma WriteAndSpec(o: Oracle, b: Bus, saddr: byte, offset: byte, mask: byte)
    ensures var rd := RegReadEffect(o, b, saddr, offset, 0);
      var w := WriteAndEffect(o, b, saddr, offset, mask);
      && (rd.ret < 0 ==> w.ret == rd.ret && w.bus == rd.bus)
      && (rd.ret >= 0 && o.attached ==>
            w.bus.trace == rd.bus.trace + [WriteTo(saddr, [offset, And8(rd.val, mask)], true)])
      && (rd.ret >= 0 && w.ret == 0 ==> (saddr, offset) in w.bus.regs && w.bus.regs[(saddr, offset)] == And8(rd.val, mask))
      && Agree(b.regs, w.bus.regs, {(saddr, offset), (saddr, ReservedOffset(saddr))})
      && w.ret <= 0
      && w.bus.log == b.log + [Get((saddr, offset))] + (if rd.ret < 0 then [] else [Set((saddr, offset), And8(rd.val, mask))])
      && OnKey(w.bus.log[|b.log|..], (saddr, offset))
  {
    WorkaroundTransfers(o, b, saddr);
    var w := WriteAndEffect(o, b, saddr, offset, mask);
    assert w.bus.log[|b.log|..] == w.bus.log[|b.log|..|w.bus.log|];
  }

  /**
   * anx7625_reg_read returns the byte itself on success (so a value in
   * 0..255) and a negative code otherwise; a register the host wrote and the
   * chip does not change reads back as written, and a register the chip
   * changes on its own reads as the byte the last transfer, a one-byte read,
   * delivered.
   */
  lemma RegReadSpec(o: Oracle, b: Bus, saddr: byte, offset: byte, prior: byte)
    ensures var rd := RegReadEffect(o, b, saddr, offset, prior);
      && (rd.ret >= 0 ==> rd.ret == rd.val)
      && (rd.ret < 0 ==> rd.val == prior)
      && (rd.ret >= 0 ==> |rd.bus.trace| > 0 && rd.bus.trace[|rd.bus.trace| - 1] == ReadFrom(saddr, 1))
      && (rd.ret >= 0 && Volatile(saddr, offset) ==> rd.val == o.payload(|rd.bus.trace| - 1, 0))
      && rd.bus.log == b.log + [Get((saddr, offset))]
      && ((saddr, offset) in b.regs && !Volatile(saddr, offset) && offset != ReservedOffset(saddr) && rd.ret >= 0 ==>
            rd.val == b.regs[(saddr, offset)])
      && Agree(b.regs, rd.bus.regs, {(saddr, ReservedOffset(saddr))})
  {
    WorkaroundTransfers(o, b, saddr);
  }

  /**
   * anx7625_reg_write: the status is 0 or a negative code; on success the
   * register holds the value written; only it and the page's reserved
   * register can change.
   */
  lemma RegWriteSpec(o: Oracle, b: Bus, saddr: byte, offset: byte, val: byte)
    ensures var w := RegWriteEffect(o, b, saddr, offset, val);
      && w.ret <= 0
      && (w.ret == 0 ==> (saddr, offset) in w.bus.regs && w.bus.regs[(saddr, offset)] == val)
      && w.bus.log == b.log + [Set((saddr, offset), val)]
      && Agree(b.regs, w.bus.regs, {(saddr, offset), (saddr, ReservedOffset(saddr))})
  {
    WorkaroundTransfers(o, b, saddr);
  }

  /** The register accesses a write adds to the log, on their own. */
  lemma RegWriteLog(o: Oracle, b: Bus, saddr: byte, offset: byte, val: byte)
    ensures RegWriteEffect(o, b, saddr, offset, val).bus.log == b.log + [Set((saddr, offset), val)]
  {
    RegWriteSpec(o, b, saddr, offset, val);
  }

  /** The register accesses a read-modify-write that clears bits adds to the log, on their own. */
  lemma WriteAndLog(o: Oracle, b: Bus, saddr: byte, offset: byte, mask: byte)
    ensures var rd := RegReadEffect(o, b, saddr, offset, 0);
      WriteAndEffect(o, b, saddr, offset, mask).bus.log
      == b.log + [Get((saddr, offset))] + (if rd.ret < 0 then [] else [Set((saddr, offset), And8(rd.val, mask))])
  {
    WriteAndSpec(o, b, saddr, offset, mask);
  }

  /**
   * anx7625_reg_block_read: the status is 0 or a negative code; a failed
   * read leaves the buffer as it was, and a successful one fills it with
   * the bytes the last transfer, a read of the same length, delivered.
   */
  lemma RegBlockReadSpec(o: Oracle, b: Bus, saddr: byte, offset: byte, prior: seq<byte>)
    ensures var rd := RegBlockReadEffect(o, b, saddr, offset, prior);
      && rd.ret <= 0 && |rd.buf| == |prior|
      && (rd.ret < 0 ==> rd.buf == prior)
      && (rd.ret == 0 ==> |rd.bus.trace| > 0 && rd.bus.trace[|rd.bus.trace| - 1] == ReadFrom(saddr, |prior|)
                          && rd.buf == Payload(o, |rd.bus.trace| - 1, |prior|))
      && rd.bus.log == b.log + [GetBlock((saddr, offset), |prior|)]
  {
  }

  /** `after` holds exactly what `before` held for every register outside `touched`. */
  ghost predicate Agree(before: map<Key, byte>, after: map<Key, byte>, touched: set<Key>)
  {
    forall key :: key !in touched ==> (key in after <==> key in before) && (key in before ==> after[key] == before[key])
  }

  /** Every access in `log` is to register `k`. */
  ghost predicate OnKey(log: seq<Access>, k: Key)
  {
    forall j :: 0 <= j < |log| ==> log[j].key == k
  }

  /** Two stretches of a growing log that are each on `k` make one. */
  lemma OnKeyChain(log0: seq<Access>, log1: seq<Access>, log2: seq<Access>, k: Key)
    requires log0 <= log1 <= log2
    requires OnKey(log1[|log0|..], k) && OnKey(log2[|log1|..], k)
    ensures OnKey(log2[|log0|..], k)
  {
    forall j | 0 <= j < |log2| - |log0|
      ensures log2[|log0|..][j].key == k
    {
      if |log0| + j < |log1| {
        assert log2[|log0| + j] == log1[|log0|..][j];
      } else {
        assert log2[|log0| + j] == log2[|log1|..][|log0| + j - |log1|];
      }
    }
  }

  // ---------------------------------------------------------------------
  // The driver's view of the chip

  class Chip {
    const oracle: Oracle
    /** Every transfer issued so far. */
    var trace: seq<Transfer>
    /** The last value the host successfully wrote to each register. */
    var regs: map<Key, byte>
    /** `saddr_backup` of i2c_access_workaround, a process-wide static that starts at 0. */
    var lastAddr: byte
    /** Register accesses issued through anx7625_reg_read/_write/_block_read. */
    ghost var log: seq<Access>

    ghost function State(): Bus
      reads this
    {
      Bus(trace, regs, lastAddr, log)
    }

    constructor(oracle: Oracle)
      ensures this.oracle == oracle
      ensures State() == Bus([], map[], 0, [])
    {
      this.oracle := oracle;
      trace := [];
      regs := map[];
      lastAddr := 0;
      log := [];
    }

    /** The bus transfer (readfrom_/writeto_): recorded, and answered by the oracle. */
    method Issue(t: Transfer) returns (status: i32)
      modifies this
      ensures trace == old(trace) + [t] && status == oracle.result(|old(trace)|)
      ensures regs == old(regs) && lastAddr == old(lastAddr) && log == old(log)
    {
      status := oracle.result(|trace|);
      trace := trace + [t];
    }

    method ReadMem(addr: byte, memaddr: u32, addrsize: byte, prior: seq<byte>) returns (ret: i32, buf: seq<byte>)
      requires addrsize / 8 <= 4
      modifies this
      ensures BlockOutcome(State(), ret, buf) == ReadMemEffect(oracle, old(State()), addr, memaddr, addrsize, prior)
      ensures log == old(log)
    {
      var mb := EncodeMemAddr(memaddr, addrsize);
      ret := Issue(WriteTo(addr, mb, false));
      if ret != |mb| {
        // must generate STOP
        var _ := Issue(WriteTo(addr, [], true));
        return ret, prior;
      }
      ret := Issue(ReadFrom(addr, |prior|));
      buf := if ret >= 0 then Payload(oracle, |trace| - 1, |prior|) else prior;
    }

    method WriteMem(addr: byte, memaddr: u32, addrsize: byte, data: seq<byte>) returns (ret: i32)
      requires addrsize / 8 <= 4
      modifies this
      ensures Outcome(State(), ret) == WriteMemEffect(oracle, old(State()), addr, memaddr, addrsize, data)
      ensures log == old(log)
    {
      var mb := EncodeMemAddr(memaddr, addrsize);
      ret := Issue(WriteTo(addr, mb + data, true));
    }

    method Writeb(saddr: byte, offset: byte, val: byte) returns (ret: i32)
      modifies this
      ensures Outcome(State(), ret) == WritebEffect(oracle, old(State()), saddr, offset, val)
      ensures log == old(log)
    {
      if !oracle.attached {
        return -1;
      }
      var rstatus := Issue(WriteTo(saddr, [offset, val], true));
      ret := if rstatus >= 0 then 0 else rstatus;
      if ret == 0 {
        regs := regs[(saddr, offset) := val];
      }
    }

    method ReadBytes(saddr: byte, offset: byte, prior: seq<byte>) returns (ret: i32, buf: seq<byte>)
      modifies this
      ensures BlockOutcome(State(), ret, buf) == ReadBytesEffect(oracle, old(State()), saddr, offset, prior)
      ensures log == old(log)
    {
      if !oracle.attached {
        return -1, prior;
      }
      var rstatus := Issue(WriteTo(saddr, [offset], true));
      if rstatus >= 0 {
        rstatus := Issue(ReadFrom(saddr, |prior|));
        ret := if rstatus >= 0 then 0 else rstatus;
        buf := if ret == 0 then Payload(oracle, |trace| - 1, |prior|) else prior;
      } else {
        ret, buf := rstatus, prior;
      }
    }

    method Readb(saddr: byte, offset: byte, prior: byte) returns (ret: i32, val: byte)
      modifies this
      ensures ReadOutcome(State(), ret, val) == ReadbEffect(oracle, old(State()), saddr, offset, prior)
      ensures log == old(log)
    {
      if !oracle.attached {
        return -1, prior;
      }
      var rstatus := Issue(WriteTo(saddr, [offset], true));
      if rstatus >= 0 {
        rstatus := Issue(ReadFrom(saddr, 1));
        ret := if rstatus >= 0 then 0 else rstatus;
        val := if ret == 0 then Delivered(oracle, regs, (saddr, offset), |trace| - 1) else prior;
      } else {
        ret, val := rstatus, prior;
      }
    }

    method AccessWorkaround(saddr: byte) returns (ret: i32)
      modifies this
      ensures Outcome(State(), ret) == WorkaroundEffect(oracle, old(State()), saddr)
      ensures log == old(log)
    {
      ret := 0;
      if saddr == lastAddr {
        return;
      }
      lastAddr := saddr;
      var offset := ReservedOffset(saddr);
      ret := Writeb(saddr, offset, 0x00);
    }

    method RegRead(saddr: byte, offset: byte, prior: byte) returns (ret: i32, val: byte)
      modifies this
      ensures ReadOutcome(State(), ret, val) == RegReadEffect(oracle, old(State()), saddr, offset, prior)
    {
      var _ := AccessWorkaround(saddr);
      ret, val := Readb(saddr, offset, prior);
      log := log + [Get((saddr, offset))];
      if ret < 0 {
        return;
      }
      ret := val;
    }

    method RegBlockRead(saddr: byte, offset: byte, prior: seq<byte>) returns (ret: i32, buf: seq<byte>)
      modifies this
      ensures BlockOutcome(State(), ret, buf) == RegBlockReadEffect(oracle, old(State()), saddr, offset, prior)
    {
      var _ := AccessWorkaround(saddr);
      ret, buf := ReadBytes(saddr, offset, prior);
      log := log + [GetBlock((saddr, offset), |prior|)];
    }

    method RegWrite(saddr: byte, offset: byte, val: byte) returns (ret: i32)
      modifies this
      ensures Outcome(State(), ret) == RegWriteEffect(oracle, old(State()), saddr, offset, val)
    {
      var _ := AccessWorkaround(saddr);
      ret := Writeb(saddr, offset, val);
      log := log + [Set((saddr, offset), val)];
    }

    method WriteOr(saddr: byte, offset: byte, mask: byte) returns (ret: i32)
      modifies this
      ensures Outcome(State(), ret) == WriteOrEffect(oracle, old(State()), saddr, offset, mask)
    {
      var val;
      ret, val := RegRead(saddr, offset, 0);
      if ret < 0 {
        return;
      }
      ret := RegWrite(saddr, offset, Or8(val, mask));
    }

    method WriteAnd(saddr: byte, offset: byte, mask: byte) returns (ret: i32)
      modifies this
      ensures Outcome(State(), ret) == WriteAndEffect(oracle, old(State()), saddr, offset, mask)
    {
      var val;
      ret, val := RegRead(saddr, offset, 0);
      if ret < 0 {
        return;
      }
      ret := RegWrite(saddr, offset, And8(val, mask));
    }
  }
}
