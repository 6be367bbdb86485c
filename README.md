# ANX7625 bridge driver: a verified model

The ANX7625 converts MIPI DSI video into DisplayPort and carries a
USB-C power-delivery controller. Its driver talks to the chip over I2C:
- one sub-address per register page;
- read-modify-write helpers;
- an AUX engine that tunnels I2C-over-AUX transactions to the monitor.

On top of these the driver:
- reads the monitor's EDID 16 bytes at a time;
- solves the PLL's M/N ratio for a pixel clock;
- programs the DSI receiver;
- sequences power-up, hot-plug detection and mode selection.

This project models that driver core in Dafny and proves what each
operation promises.

## How the model is built

- **The bus is an oracle.** `I2c.Oracle` says whether the chip answers
  (`attached`), what status the k-th transfer returns (`result`), what
  bytes a read delivers (`payload`), and what an uninitialised local
  declared after k transfers holds (`junk`). A transfer is appended to the
  bus trace and takes its result from the oracle, so every success and
  failure pattern the hardware could produce is covered by one proof.
- **Every operation appears twice.**
  - A pure `...Effect` function from the oracle and the bus state
    `I2c.Bus(trace, regs, lastAddr, log)` to the new state and the result.
  - A method on the class `I2c.Chip` whose `ensures` says that its new
    state and result are exactly that function's.

  What the operation promises is proved as lemmas about the function
  (`...Spec`, `...Log`, ...). Loops are tail-recursive functions
  (`AuxChannel.WaitPolls`, `Power.LoadLoop`, `Power.HpdLoop`,
  `Edid.EdidReadFrom`) that the methods' loop invariants follow.
- **`lastAddr`** is the `static saddr_backup` of the access workaround.
  It starts at 0 and changes only on a change of sub-address.
- **`regs`** is the register file as far as the host has written it.
  Status, flash and AUX registers (`Registers.Volatile`) read as the
  oracle delivers.
- **The ghost `log`** records every register-level `Get`, `Set` and
  `GetBlock`. Higher layers state their access sequences through it.
- **Status codes and their accumulation.**
  - Int status codes are 32-bit two's complement.
  - `CTypes.Or32` is C's `|` on them.
  - `CTypes.OrAll` is a chain of `ret |= ...`.
- **The PLL solver** is stated over unbounded integers with specification
  functions, e.g. `Pll.GcdOf`, `Pll.ReducedPair`, `Pll.SearchDivider`,
  `Pll.Divider`, `Pll.Solvable`. The C loops (gcd, fraction reduction,
  post-divider search) are methods proved equal to them.
- **The EDID buffer** is an `array<byte>`. `sp_tx_edid_read`'s nested
  loops copy into it, and the copied chunks are recorded as
  `EdidAssembly.Chunk` values, so the final buffer is
  `Apply(old buffer, chunks)`. Each chunk's bytes are what `edid_read` or
  `segments_edid_read` returned on the chip, as `EdidAssembly.EdidReads`
  and `EdidAssembly.SegmentReads` name them.
- **The video registers** are written through small wrappers
  (`Video.Put`, `Video.Fetch`, `Video.SetBits`, `Video.ClearBits`) that
  state the register-level result a caller needs. The DSI configuration
  states its programmed timing as stretches of the log
  (`Video.Programmed`).
- **The pixel-clock step** in `config` is a `static` that only ever
  grows. It is the class `Display.LtdcClock`.

## Where the model follows the code's own counts

The counts below are what the code does. They differ from what the
driver's comments and names suggest.
- **HPD polling:** `anx7625_wait_hpd_event` pre-decrements
  `retry_hpd_change` from 10000, so it polls at most 9999 times
  (`Power.HPD_POLLS`).
- **Power-up:** `anx7625_init` pre-decrements `retry_power_on` from 3, so
  `anx7625_power_on_init` runs at most twice (`Power.POWER_ON_ATTEMPTS`).
- **EDID retries:** `edid_read` and `segments_edid_read` bump `cnt` twice
  on a failure inside a `cnt < 3` loop, so they make at most 2 AUX read
  attempts, not 3.
- **Group 1 after a break:** a break in group 0 stops only group 0, and
  group 1 is still read. Only groups 2 and 3 look at `g_edid_break`,
  which only group 1 leaves behind.
- **Chunk positions:** `edid_pos` is `uint8_t`, so groups 2 and 3 land on
  positions 0x00-0x70 and 0x80-0xF0, the same bytes as groups 0 and 1.
- **Segment chunks are always copied.** A segment chunk is copied even
  when its read failed, because the return value of `segments_edid_read`
  is ignored.
- **`anx7625_is_power_provider`** never takes its error branch: its own
  `ret` stays 0. A failed status read therefore answers "consumer"
  (bit 3 of the status byte, which has stayed 0).
- **The `bus` argument is ignored throughout.** The transfer functions
  use `anx7625_obj->i2c_obj` whatever `bus` says (anx7625.c:68-125), and
  `saddr_backup` is one static (anx7625.c:135). So
  `anx7625_is_power_provider(0)` in `anx7625_init` talks to the same chip,
  with the same workaround state, as the power-on polls, and the model
  has no bus parameter.
- **The 1920x1080 entry** (index 6) of the known-modes table is all
  zeros. `anx7625_dp_start` calls `config` before the DSI configuration
  (anx7625.c:1083-1085), and `config` divides by the zero pixel clock
  (anx7625.c:1374-1376). That is undefined behaviour in C, and a fault on
  a target that traps integer division by zero. When the division does
  not trap, the PLL solver then rejects the zero clock, so the mode always
  fails.

## Model

| member | source | states |
|---|---|---|
| CTypes.Or32 | anx7625.c:634-635 | `a \| b` on int32 is negative exactly when `a` or `b` is negative |
| CTypes.OrAllNegative | anx7625.c:771-775 | a status accumulated with `ret \|= step` is negative exactly when some step returned a negative code |
| CTypes.Or32NonPositive | anx7625.c:641-647 | OR-ing statuses that are 0 or negative gives 0 or a negative value, and 0 only when all are 0 |
| CTypes.Or32MinusOne | anx7625.c:647 | a -1 from `wait_aux_op_finish` makes the accumulated status -1 whatever came before |
| CTypes.Or8SetsMask | anx7625.c:216-222 | `(val \| mask) & mask == mask`: every bit of the mask is set afterwards |
| CTypes.And8ClearsMask | anx7625.c:634-635 | `(val & ~mask) & mask == 0`: every bit of the mask is clear afterwards |
| CTypes.Or8Nibbles | anx7625.c:408-410 | clearing the upper nibble and OR-ing in `n << 4` gives `16*n` plus the old lower nibble |
| Registers.ReservedOffset | anx7625.c:143-163 | any sub-address other than the four TX/RX pages (the TCPC page and unknown ones) uses `RSVD_00_ADDR` |
| I2c.Status | anx7625.c:68-81 | a non-negative transfer result becomes 0 and a negative one is passed through unchanged |
| I2c.MemAddrBytes | anx7625.c:31-34 | the register address is sent as `addrsize/8` bytes |
| I2c.MemAddrRoundTrip | anx7625.c:31-34 | reading the address bytes back big-endian gives `memaddr` modulo 2^(8n): the high byte goes first and nothing is lost below the width |
| I2c.MemAddr32RoundTrip | anx7625.c:52-55 | a 32-bit address is sent as 4 bytes that reassemble, big-endian, to exactly `memaddr` |
| I2c.EncodeMemAddr | anx7625.c:29-34 | the byte-splitting loop produces the big-endian encoding of `memaddr` |
| I2c.WorkaroundTransfers | anx7625.c:132-169 | the same sub-address as last time issues no transfer and returns 0; a new one issues exactly one write of 0x00 to its reserved offset, the new address is remembered even if that write fails, and only the reserved register can change |
| I2c.WorkaroundIdempotent | anx7625.c:138-140 | a second access to the same page issues no workaround transfer |
| I2c.RegReadSpec | anx7625.c:171-184 | on success the result is the byte itself, delivered by a final one-byte read; a volatile register reads as the chip delivered it and a written non-volatile one as written; on failure the destination keeps its old value; one `Get` is logged and only the reserved register can change |
| I2c.RegWriteSpec | anx7625.c:199-210 | the status is 0 or negative; on success the register holds the value; one `Set` is logged; only it and the reserved register can change |
| I2c.RegBlockReadSpec | anx7625.c:186-197 | the status is 0 or negative; a failed read leaves the buffer as it was, a successful one fills it with the bytes the final read of the same length delivered; one `GetBlock` is logged |
| I2c.WriteOrSpec | anx7625.c:212-223 | a failed read returns its negative code with no write; otherwise `old \| mask` is written, the register holds it on success, every logged access is to the target, and no other register (except the page's reserved one) changes |
| I2c.WriteAndSpec | anx7625.c:225-236 | as `write_or` with `old & mask` |
| I2c.Chip.constructor | anx7625.c:135 | a fresh chip has an empty trace and log, no written registers and `saddr_backup` equal to 0 |
| I2c.Chip.Issue | anx7625.c:10-24 | a transfer is appended to the trace and returns the oracle's status for that position |
| I2c.Chip.ReadMem | anx7625.c:26-43 | writes the encoded address without a stop, then reads; the new state and result are `ReadMemEffect`'s |
| I2c.Chip.WriteMem | anx7625.c:45-66 | sends the address bytes followed by the data in one transfer; the new state and result are `WriteMemEffect`'s |
| I2c.Chip.Writeb | anx7625.c:68-81 | one two-byte write of offset and value; the new state and result are `WritebEffect`'s |
| I2c.Chip.ReadBytes | anx7625.c:83-103 | offset write, then block read; the new state, status and buffer are `ReadBytesEffect`'s |
| I2c.Chip.Readb | anx7625.c:105-125 | offset write, then one-byte read; the new state, status and byte are `ReadbEffect`'s |
| I2c.Chip.AccessWorkaround | anx7625.c:132-169 | the new state and result are exactly the workaround's, as stated by WorkaroundTransfers |
| I2c.Chip.RegRead | anx7625.c:171-184 | the new state, result and byte are exactly `RegReadEffect`'s, whose meaning RegReadSpec states |
| I2c.Chip.RegBlockRead | anx7625.c:186-197 | the new state, status and buffer are exactly `RegBlockReadEffect`'s (see RegBlockReadSpec) |
| I2c.Chip.RegWrite | anx7625.c:199-210 | the new state and status are exactly `RegWriteEffect`'s (see RegWriteSpec) |
| I2c.Chip.WriteOr | anx7625.c:212-223 | the new state and status are exactly `WriteOrEffect`'s (see WriteOrSpec) |
| I2c.Chip.WriteAnd | anx7625.c:225-236 | the new state and status are exactly `WriteAndEffect`'s (see WriteAndSpec) |
| AuxChannel.WaitPollsSpec | anx7625.c:244-253 | the polling loop reads the status register once per poll; every poll but the last saw OP_EN set; it stops early exactly when a poll saw it clear, holding that byte, and otherwise makes all its polls |
| AuxChannel.AuxPollsSpec | anx7625.c:244-253 | wait_aux_op_finish makes 1 to 150 polls, all but the last seeing OP_EN set |
| AuxChannel.AuxPollsEnd | anx7625.c:244-259 | the loop ends early exactly when its last poll saw OP_EN clear, and otherwise after all 150 |
| AuxChannel.AuxPollsLog | anx7625.c:244-253 | the polls' accesses are one status read each |
| AuxChannel.WaitAuxSpec | anx7625.c:238-269 | a timeout returns -1 after the polls; otherwise the result is non-negative exactly when the re-read of the status register succeeded with a clear error nibble, and is then that byte; every access is a status read |
| AuxChannel.PollAuxStatus | anx7625.c:240-253 | the loop on the chip ends in the state, `val` and early-exit flag of the polls function, `val` starting uninitialised |
| AuxChannel.WaitAuxOpFinish | anx7625.c:238-269 | the new state and result are exactly `WaitAuxEffect`'s (see WaitAuxSpec) |
| AuxChannel.RstAuxSpec | anx7625.c:630-637 | the status is 0 exactly when both read-modify-writes succeeded, never positive; when the clearing one succeeds `AUX_RST` is clear; every access is to RST_CTRL2 and no other register but the reserved one changes |
| AuxChannel.RstAuxStatus | anx7625.c:630-637 | sp_tx_rst_aux never reports a positive status |
| AuxChannel.RstAux | anx7625.c:630-637 | the new state and status are exactly `RstAuxEffect`'s (see RstAuxSpec) |
| AuxChannel.AuxWrSpec | anx7625.c:639-648 | negative exactly when one of the four steps failed, otherwise the wait's status byte; the accesses are the buffer offset, command 0x04, the arming read-modify-write and the wait's status reads, in that order |
| AuxChannel.AuxWrStatus | anx7625.c:641-647 | the OR of the four statuses is negative exactly when one is, and otherwise the wait's |
| AuxChannel.AuxRdSpec | anx7625.c:650-658 | negative exactly when one of the three steps failed, -1 when the wait failed, otherwise the wait's byte; the `c == 1` retry test fires only when the wait succeeded and a write failed; the accesses are the command, the arming and the wait's reads, in order |
| AuxChannel.AuxWrExtends | anx7625.c:639-642 | sp_tx_aux_wr only appends accesses, the first being the offset put into the AUX buffer |
| AuxChannel.AuxRdExtends | anx7625.c:650-653 | sp_tx_aux_rd only appends accesses, the first being its command |
| AuxChannel.AuxWr | anx7625.c:639-648 | the new state and status are exactly `AuxWrEffect`'s (see AuxWrSpec) |
| AuxChannel.AuxRd | anx7625.c:650-658 | the new state and status are exactly `AuxRdEffect`'s (see AuxRdSpec) |
| AuxChannel.AuxFailureTest | anx7625.c:689-694 | the `c == 1` test on the low byte of the OR can only succeed when the wait succeeded and a command or arm write failed; a timed-out wait gives 0xFF, and a clean status has a clear low nibble |
| AuxChannel.TimedOutAuxStatus | anx7625.c:647 | a -1 from the wait makes the whole status -1, whose low byte is 0xFF |
| AuxChannel.CleanAuxStatus | anx7625.c:650-658 | a non-negative accumulated status is the wait's status byte, with a clear low nibble |
| AuxChannel.FailedWriteAuxStatus | anx7625.c:689-694 | a low byte of 1 means the wait succeeded and one of the writes failed |
| Edid.ExtensionCount | anx7625.c:677-680 | a count byte of at most 3 is kept, anything larger becomes 1 |
| Edid.GetEdidBlockSpec | anx7625.c:660-681 | the AUX statuses are ignored; the result is -1 exactly when the read of the AUX buffer fails, otherwise the clamped count of the byte that read delivered |
| Edid.GetEdidBlockLog | anx7625.c:665-667 | the first access puts 0x7E into the AUX buffer and the last reads the buffer back |
| Edid.GetEdidBlock | anx7625.c:660-681 | the new state and result are exactly `GetEdidBlockEffect`'s |
| Edid.EdidReadSpec | anx7625.c:683-710 | the first attempt is accepted unless it passes the retry test, the second (after an AUX reset) likewise; an accepted attempt gives 0 and the bytes the copy of the AUX buffer delivered |
| Edid.EdidReadGivesUp | anx7625.c:683-710 | the result is 1 exactly when both attempts pass the retry test, and then the bounce buffer is unchanged; a timed-out attempt is never retried |
| Edid.EdidReadShape | anx7625.c:683-710 | the result is 0 or 1 and the bounce buffer keeps its length, unchanged on 1 |
| Edid.ReadAttemptShape | anx7625.c:689-691 | an attempt only appends accesses, the first being the offset into the AUX buffer |
| Edid.FetchBlockShape | anx7625.c:703-705 | the copy of the AUX buffer is never positive, keeps the length, leaves the buffer alone on failure, and is one block read |
| Edid.ReadAttempt | anx7625.c:689-691 | the new state and status are exactly `ReadAttemptEffect`'s |
| Edid.EdidRead | anx7625.c:683-710 | the new state, result and bounce buffer are exactly `EdidReadEffect`'s |
| Edid.AddressOnlyWriteSpec | anx7625.c:719-723 | negative exactly when one of the three writes or the wait failed; the accesses are 0x30 to the address register, command 0x04, ADDRONLY with OP_EN, then the wait's reads |
| Edid.AddressOnlyWrite | anx7625.c:719-723 | the new state and status are exactly `AddressOnlyWriteEffect`'s |
| Edid.SegmentSetupSpec | anx7625.c:717-731 | negative exactly when the address-only write, the segment write or the switch back to 0x50 failed |
| Edid.SegmentSetupLast | anx7625.c:727 | the preamble's last access puts 0x50 in the address register |
| Edid.SegmentSetup | anx7625.c:717-731 | the new state and status are exactly `SegmentSetupEffect`'s |
| Edid.SegmentsEdidReadSpec | anx7625.c:712-758 | a failed preamble is returned with no read; otherwise the first or second attempt is accepted as in edid_read and the result is the accepted copy of the AUX buffer; when both are rejected the buffer is unchanged and the result is the second reset's status |
| Edid.SegmentsEdidReadShape | anx7625.c:712-758 | the result is never positive and the bounce buffer keeps its length |
| Edid.SegmentsReadShape | anx7625.c:736-757 | the retry loop ends with a status never positive and a buffer of the same length |
| Edid.SegmentsEdidRead | anx7625.c:712-758 | the new state, result and bounce buffer are exactly `SegmentsEdidReadEffect`'s |
| EdidAssembly.Paste | anx7625.c:801-803 | the copied bytes land at `pos..pos+len` and every other byte is kept |
| EdidAssembly.ApplyOutside | anx7625.c:801-825 | bytes at or past the bound that every copied chunk respects are never touched |
| EdidAssembly.EdidPosWrap | anx7625.c:815-816 | the `uint8_t` position of chunk `i` in group `count` is `0x10*i + 0x80*(count%2)`, so groups 2 and 3 reuse the positions of groups 0 and 1 |
| EdidAssembly.CopyChunk | anx7625.c:801-803 | the `memcpy` leaves the array equal to `Paste` of its old contents |
| EdidAssembly.CopyWhen | anx7625.c:798-803 | the copy happens exactly when the chunk is marked copied |
| EdidAssembly.DirectBounded | anx7625.c:800 | direct-read chunks stay below both the buffer size and 256 |
| EdidAssembly.SegmentBounded | anx7625.c:823 | segment chunks stay below both the buffer size and 256 |
| EdidAssembly.DirectPassSpec | anx7625.c:790-807 | a direct pass reads at most 8 chunks at offsets `(i+8*count)*16`, each a success copied when it fits, except a last failure that ends the pass, is not copied and keeps the bounce buffer; `g_edid_break` is 1 exactly then and 0 after 8 successes |
| EdidAssembly.DirectPassBlock | anx7625.c:792-803 | after a direct pass the bounce buffer holds its last chunk's bytes |
| EdidAssembly.SegmentPassSpec | anx7625.c:808-829 | a segment pass reads nothing when `g_edid_break` is 1, otherwise 8 chunks at offsets `0x80*(count%2)+0x10*i`, each copied whenever it fits, whatever its status |
| EdidAssembly.GroupPassSpec | anx7625.c:787-838 | one turn of the do-while adds one well-formed group of the kind its switch picks, copied below `min(size, 256)`, and leaves `g_edid_break` telling whether group 1 broke off |
| EdidAssembly.GroupsEach | anx7625.c:787-838 | groups 0 and 1 are direct passes; groups 2 and 3 are empty exactly when group 1 broke off, and have 8 chunks otherwise |
| EdidAssembly.RunFromSpec | anx7625.c:787-838 | the do-while runs exactly `blocks_num+1` groups, and every chunk it copies ends below `size` and 256 |
| EdidAssembly.RecordGroup | anx7625.c:787-838 | adding a finished group keeps the record well formed and bounded |
| EdidAssembly.AddressInitSpec | anx7625.c:770-779 | negative exactly when one of the three writes failed, never positive |
| EdidAssembly.AddressInitLog | anx7625.c:771-773 | 0x50 to bits 7-0, 0 to bits 15-8, then the read of bits 19-16 and, unless it failed, the write-back with the low nibble cleared |
| EdidAssembly.SpTxEdidReadSpec | anx7625.c:760-844 | -1 when the address writes fail, otherwise sp_tx_get_edid_block's result; a negative one comes before any chunk; a count n runs n+1 groups as above; every copied chunk ends below `size` and 256 |
| EdidAssembly.SpTxEdidReadOutside | anx7625.c:760-844 | the destination from `min(size, 256)` on is never touched |
| EdidAssembly.DirectRead | anx7625.c:792-804 | one iteration of cases 0 and 1: edid_read on the chip at offset `(i+8*count)*16`, its status into `g_edid_break`, and the copy unless it gave up |
| EdidAssembly.SegmentRead | anx7625.c:812-825 | one iteration of cases 2 and 3: segments_edid_read on the chip and the copy to the eight-bit position when it fits |
| EdidAssembly.DirectGroup | anx7625.c:790-807 | the loop on the chip follows `DirectPass`, and the buffer is the old one with its chunks applied |
| EdidAssembly.SegmentGroup | anx7625.c:808-829 | the loop on the chip follows `SegmentPass`, and the buffer is the old one with its chunks applied |
| EdidAssembly.RunGroup | anx7625.c:787-838 | one turn of the do-while on the chip follows `GroupPass` |
| EdidAssembly.RunGroups | anx7625.c:787-838 | the do-while on the chip follows `RunFrom`, and the buffer is the old buffer with all chunks applied in order |
| EdidAssembly.AddressInit | anx7625.c:770-779 | the new state and status are exactly `AddressInitEffect`'s |
| EdidAssembly.SpTxEdidRead | anx7625.c:760-844 | the new state, result and groups are exactly `SpTxEdidReadEffect`'s, with `pblock_buf` uninitialised, and the buffer is the old one with the chunks the chip delivered applied |
| EdidAssembly.DpGetEdid | anx7625.c:1094-1115 | the bytes handed to the decoder are the chunks the chip delivered pasted over the stack buffer; 0 exactly when the read succeeded and the decoder accepts the first `(n+1)*128` bytes, -1 otherwise; bytes from 256 on are never written |
| Pll.GcdOfIsGcd | anx7625.c:271-285 | the subtraction gcd divides both inputs and is divisible by every common divisor |
| Pll.Gcd | anx7625.c:271-285 | the C `gcd` (with its swap and subtraction loop) computes that gcd |
| Pll.GcdLoop | anx7625.c:276-284 | the subtraction loop alone computes it |
| Pll.GcdReduced | anx7625.c:294-298 | dividing by the gcd gives a pair that times the gcd is the input, and is not both zero |
| Pll.FirstFit | anx7625.c:300-309 | the divisor the scale-down loop stops at is the first one making both values fit in 24 bits |
| Pll.Fitted | anx7625.c:300-309 | after scaling down both values fit in 24 bits; a pair that already fits is left alone |
| Pll.Doubled | anx7625.c:311-316 | after scaling up both still fit, one more doubling would overflow, and the ratio is unchanged |
| Pll.ReductionSpec | anx7625.c:287-318 | the reduced pair fits in 24 bits and cannot be doubled again; when the gcd-reduced pair already fits, the output ratio equals the input ratio exactly |
| Pll.ScaleDown | anx7625.c:300-309 | the scale-down loop computes `Fitted` |
| Pll.ScaleUp | anx7625.c:311-316 | the doubling loop computes `Doubled` |
| Pll.Reduction | anx7625.c:287-318 | `anx7625_reduction_of_a_fraction` computes `ReducedPair` |
| Pll.SearchDivider | anx7625.c:345-348 | the smallest divider from `p` on that brings the clock to `freq`, and none before it does |
| Pll.SearchDividerAtMost | anx7625.c:345-348 | the search stops no later than any divider that reaches |
| Pll.SearchDividerAbove | anx7625.c:345-348 | the search goes past any divider that does not reach |
| Pll.SearchPostDivider | anx7625.c:345-355 | the `while` loop finds `SearchDivider`'s divider |
| Pll.PatchedDivider | anx7625.c:366-381 | dividers 7, 11, 13 and 14 are moved up by at most 2 and others are kept, so the result is never 7, 11, 13 or 14 |
| Pll.XtalMultiple | anx7625.c:366-381 | every divider the patch can produce divides the 27 MHz crystal |
| Pll.HighRange | anx7625.c:343-348 | a clock at or above 520 MHz needs no division |
| Pll.PairRange | anx7625.c:345-364 | a clock in 260-520 MHz gets divider 2 |
| Pll.MiddleRange | anx7625.c:345-391 | a clock in 32.5-260 MHz finds a divider up to 16 and stays within 800 MHz after multiplication |
| Pll.LowRange | anx7625.c:356-364 | a clock below 32.5 MHz falls back to the 300 MHz floor, finds a divider there, and stays below 520 MHz |
| Pll.SolvableRanges | anx7625.c:320-396 | the solver accepts a pixel clock exactly when it lies in 18.75-400 MHz or 520-800 MHz |
| Pll.NoWrap | anx7625.c:383-387 | within the envelope, `pixelclock * post_divider` fits in 32 bits |
| Pll.DividerSpec | anx7625.c:366-391 | an accepted clock gets a divider in 1..16 that divides the crystal, reaches the 300 MHz floor and stays within 800 MHz |
| Pll.SearchedReaches | anx7625.c:345-364 | the searched divider brings the clock past 300 MHz, rounding up |
| Pll.CalculateMN | anx7625.c:320-396 | returns 0 exactly when the clock is accepted; otherwise returns 1 with `m`, `n` and `pd` untouched; on success `pd` is the patched divider and `(m, n)` the reduced pair for `pixelclock : 27 MHz/pd` |
| Video.HiLo | anx7625.c:447-450 | the low and high bytes of a value reassemble to it modulo 2^16 |
| Video.PllBytesRoundTrip | anx7625.c:498-510 | the three bytes, most significant first, reassemble to any 24-bit value |
| Video.MnWritesDecode | anx7625.c:498-510 | the six M/N register writes reassemble to M and N |
| Video.TimingWritesDecode | anx7625.c:444-496 | the pixel-clock, horizontal and vertical register writes reassemble to the timing fields, truncated to the register widths |
| Video.OrStatus | anx7625.c:447-450 | OR-ing two 0-or-negative statuses is 0 exactly when both are 0 |
| Video.Put | anx7625.c:199-210 | anx7625_reg_write on the chip: exactly `RegWriteEffect`, with the status 0 or negative, one `Set` logged and the value held on success |
| Video.Fetch | anx7625.c:171-184 | anx7625_reg_read on the chip: exactly `RegReadEffect`, with the result the byte or negative, one `Get` logged and a written register read back |
| Video.SetBits | anx7625.c:212-223 | anx7625_write_or on the chip: `read` is the byte `RegReadEffect` delivers; on success the register holds `read \| mask`; a written register is read back; nothing else but the reserved register changes |
| Video.ClearBits | anx7625.c:225-236 | anx7625_write_and on the chip: as SetBits with `read & mask` |
| Video.WritePixelClock | anx7625.c:444-450 | the pixel clock in MHz is written low byte first |
| Video.WriteHorizontal | anx7625.c:456-483 | total, active, front porch, sync width and back porch are written as low/high byte pairs, in that order |
| Video.WriteVertical | anx7625.c:484-496 | active lines as a pair, then front porch, sync width and back porch as single bytes |
| Video.WriteMn | anx7625.c:497-510 | M then N, three bytes each, most significant first |
| Video.SetPostDivider | anx7625.c:407-410 | `low` is the byte the first read delivered, which is the old value of a register the host wrote; on success PLL_8 holds `post_divider` in its upper nibble over the lower nibble of `low` |
| Video.NibbleShift | anx7625.c:409 | a divider below 16 shifted left by 4 fits in a byte |
| Video.SelectRefClock | anx7625.c:402-405 | `r` is the byte the first read delivered, the register's old value when the host wrote it; on success PLL_16 holds `r` with the 27 MHz reference bit cleared and then set, so that bit is set and every other bit kept; no other register but the reserved one changes |
| Video.ResetPll | anx7625.c:412-420 | `r` is the byte the first read delivered, the register's old value when the host wrote it; on success PLL_7 holds `r` with the VCO tuning bits (MIS2-125 patch) and the reset bit cleared and the reset bit set again; no other register but the reserved one changes |
| Video.PllPatchBits | anx7625.c:412-420 | whatever PLL_7 held, after the patch and the reset pulse its VCO tuning bits 0x30 are clear and its reset bit is set |
| Video.OdfcConfig | anx7625.c:398-426 | on success the 27 MHz reference bit of PLL_16 is set, PLL_8 holds `post_divider` in its upper nibble and keeps the lower nibble of a register the host wrote before, and PLL_7 has its VCO tuning bits clear and its reset bit set |
| Video.VideoWrites | anx7625.c:456-512 | the horizontal, vertical and M/N writes plus the DSI adjustment are 22 writes |
| Video.WriteVideo | anx7625.c:456-512 | writes exactly those 22 accesses, in order |
| Video.ProgrammedRatio | anx7625.c:435-520 | for an accepted clock the M and N written to the chip are the solver's reduced pair, which cannot be doubled within 24 bits, and the last write sets DIGITAL_ADJ_1 to 0x37 |
| Video.ProgramVideo | anx7625.c:444-520 | writes the pixel clock, then the 22 timing and M/N writes; on success PLL_8 holds `pd - 1` in its upper nibble |
| Video.DsiVideoConfig | anx7625.c:428-520 | an unaccepted clock returns -1 before any register access; an accepted one writes the pixel clock and then the timing and solver M/N writes; on success PLL_8 holds the divider minus one |
| Video.SwapDsiLane3 | anx7625.c:522-537 | the new state and status are exactly `SwapEffect`'s: -1 when the read of MIPI_SWAP fails, otherwise the status of writing it back with bit 4 set; on success bit 4 is set and every other bit kept; no other register but MIPI_SWAP and the reserved one changes |
| Video.EnableMipiRx | anx7625.c:582-593 | on success MIPI_LANE_CTRL_10 holds 0x80 |
| Video.SelectDsi | anx7625.c:544-567 | `swap` is the status `SwapEffect` gives on the chip; the configuration stops exactly when it is negative, and then with that status; otherwise lane 3 is swapped, and on success MIPI_PHY_CONTROL_3 holds 0x18 and DSI is selected (bit 0x20 of PLL_18); only those registers and the reserved one change |
| Video.SetDsiMode | anx7625.c:553-567 | on success MIPI_PHY_CONTROL_3 holds 0x18 and bit 0x20 of PLL_18 is set; only those two registers and the reserved one change |
| Video.ApiDsiConfig | anx7625.c:539-599 | `swap` is the lane swap's status on the chip; whenever the swap succeeded and the clock is accepted, whatever the other writes return, the log records the pixel clock of `dt` and then its timing with the solver's M/N pair; an unaccepted clock always fails; success means the swap succeeded, the clock was accepted and the MIPI receiver is enabled |
| Video.ProgrammedGrown | anx7625.c:539-599 | writes recorded in the log stay recorded as later accesses are appended |
| Video.DsiConfig | anx7625.c:601-628 | the DSI configuration runs whatever the DSC write returned: `swap` is the lane swap's status on the chip after that write, and when it succeeded and the clock is accepted the log records the programmed timing as ApiDsiConfig states; an unaccepted clock always fails; on success the MIPI mute bit is cleared |
| Display.HorizontalBlankingWraps | anx7625.c:955-959 | front porch + sync + back porch equals `hbl - 2*hborder` in 32-bit arithmetic, even when a field underflows |
| Display.VerticalBlankingWraps | anx7625.c:961-965 | the same vertically |
| Display.ParseEdidExact | anx7625.c:950-973 | when nothing underflows, the front porch is `hso - hborder` and the blanking splits exactly into `hbl - 2*hborder` (likewise vertically); the polarities are kept |
| Display.KnownModes | anx7625.c:975-1056 | the table has exactly seven entries |
| Display.SelectTiming | anx7625.c:1065-1081 | `EDID_MODE_AUTO` keeps the parsed timing |
| Display.KnownModeIgnoresEdid | anx7625.c:1065-1081 | a known mode's timing does not depend on the EDID, and its pixel clock is the table's |
| Display.NextStep | anx7625.c:1280-1284 | the step becomes 200 when the clock divided by 100 exceeds 512, and never returns to 100 |
| Display.Snapped | anx7625.c:1287-1291 | the snapped clock is a multiple of the step, at most the clock, and less than one step below it |
| Display.SnappedIdempotent | anx7625.c:1287-1291 | snapping twice with the same step is snapping once |
| Display.LtdcClock.constructor | anx7625.c:1280 | the step starts at 100 |
| Display.LtdcClock.Snap | anx7625.c:1280-1291 | updates the sticky step first, then replaces only the pixel clock with its snapped value |
| Display.SnappedKnownClock | anx7625.c:1280-1291 | the snapped clocks of the seven table entries, whichever step was in force |
| Display.KnownModesSolvable | anx7625.c:1058-1092 | every snapped table clock is accepted by the PLL solver except the zero 1920x1080 entry |
| Display.SolvableClockOnly | anx7625.c:435-436 | the solver's verdict depends on the pixel clock alone |
| Display.DpStart | anx7625.c:1058-1092 | `dt` is the selected timing with its clock snapped by the sticky step; `swap` is the lane swap's status on the chip; when it succeeded and the clock is accepted, which it always is for a known mode below 1920x1080, the log records `dt`'s pixel clock and then its timing with the solver's M/N pair; success implies both; the 1920x1080 mode always fails (see Left out) |
| Display.KnownModeClockAccepted | anx7625.c:1058-1092 | a known mode below 1920x1080 yields a clock the solver accepts, whatever the EDID |
| Power.PollFlashSpec | anx7625.c:875-894 | a pass reads FLASH_LOAD_STA as the chip delivered it; only a loaded flash leads to the version and revision reads, each yielding the delivered byte or keeping the earlier value on failure |
| Power.PollFlash | anx7625.c:875-894 | the new state, status, load byte, version and revision are exactly `PollFlashEffect`'s |
| Power.LoadLoopPolls | anx7625.c:873-903 | the loop adds 1 to `left` passes, each carrying on from the one before, and every pass but the last read a flash that was not ready |
| Power.LoadLoopEnd | anx7625.c:873-904 | the loop ends with 0 exactly when its last pass found the firmware ready, with a failed read's code, and with -1 after all passes otherwise |
| Power.LoadLoopLog | anx7625.c:873-903 | the loop's accesses are its passes' reads, in order |
| Power.PowerOnPolls | anx7625.c:868-905 | power_on_init makes 1 to OCM_LOADING_TIME passes, the first after the crystal write with the uninitialised version and revision |
| Power.PowerOnSpec | anx7625.c:868-905 | 0 exactly when the last pass found the flash loaded with a non-zero version or revision; a failed FLASH_LOAD_STA read is returned as is; otherwise -1 after OCM_LOADING_TIME passes; the crystal write comes first, then the passes' reads |
| Power.PowerOnInit | anx7625.c:868-905 | the new state and result are exactly `PowerOnEffect`'s |
| Power.StartDpWorkSpec | anx7625.c:907-927 | when all three read-modify-writes succeed the HDCP bits are clear, the auth flag and the DRM interrupt are set, and the secure OCM version is read last; when one fails, all three still run but the version read does not follow; no other register but the reserved one changes |
| Power.AgreeChain | anx7625.c:907-920 | registers outside the touched set keep their values across consecutive steps |
| Power.StartDpWork | anx7625.c:907-927 | the new state is exactly `StartDpWorkEffect`'s |
| Power.HpdChangeDetectSpec | anx7625.c:929-948 | 1 exactly when the delivered status byte has HPD set, and only then is DisplayPort work started; 0 when it is clear; otherwise the read's negative code; the first access is the status read |
| Power.HpdChangeDetect | anx7625.c:929-948 | the new state and result are exactly `HpdChangeDetectEffect`'s |
| Power.HpdLoopSpec | anx7625.c:1168-1176 | the loop adds 1 to `left` polls, each on the bus the one before left, all but the last seeing HPD low; 0 exactly when the last saw HPD, otherwise -1, after all polls when none failed |
| Power.WaitHpdSpec | anx7625.c:1163-1180 | wait_hpd_event makes 1 to 9999 polls and succeeds exactly when one sees HPD, which is then the last; a failed read or 9999 clean polls give -1 |
| Power.WaitHpdEvent | anx7625.c:1163-1180 | the new state and result are exactly `WaitHpdEffect`'s |
| Power.ReadSystemStatus | anx7625.c:1182-1211 | the new state, result and status byte are exactly one `RegReadEffect` of SYSTEM_STSTUS |
| Power.IsPowerProviderSpec | anx7625.c:1215-1232 | provider exactly when the status read succeeded and the delivered byte has bit 3 set; a failed read answers consumer; one status read is the only access |
| Power.IsPowerProvider | anx7625.c:1215-1232 | the new state and answer are exactly `IsPowerProviderEffect`'s |
| Power.InitSpec | anx7625.c:1135-1160 | 0 exactly when the first or, failing that, the second power_on_init succeeds, and then the power role is queried on the same chip right after, its last access the status read; otherwise -1 after both attempts |
| Power.Init | anx7625.c:1117-1161 | the new state and result are exactly `InitEffect`'s |
| Helpers.Max | helpers.h:17-19 | one of the two arguments, and at least both |
| Helpers.Min | helpers.h:20-22 | one of the two arguments, at most both, and at most their MAX |
| Helpers.PowerMasks | helpers.h:26-27 | for `a = 2^k` the mask is `2^k - 1` and its complement is `2^32 - 2^k` |
| Helpers.AlignUpSpec | helpers.h:26-28 | for a power of two `a` and no overflow, ALIGN is the least multiple of `a` not below `x` |
| Helpers.AlignUpWraps | helpers.h:26-27 | past the top of the type it wraps: aligning 2^32-1 up to 2 gives 0 |
| Helpers.AlignDownSpec | helpers.h:29 | for a power of two `a`, ALIGN_DOWN is the greatest multiple of `a` not above `x` |
| Helpers.IsAlignedSpec | helpers.h:30 | IS_ALIGNED holds exactly when ALIGN_DOWN leaves `x` unchanged, that is, exactly for multiples of `a` |
| Helpers.DivRoundUpCeiling | helpers.h:31-35 | absent overflow, DIV_ROUND_UP is the ceiling of `x / y` |
| Helpers.IsUpper | helpers.h:37-40 | true exactly for 'A'..'Z' and 0xC0..0xDD, as 1 or 0 |

## Left out

- The I2C transfer itself (`i2c_p->transfer`) is an oracle (`I2c.Oracle`) that reports attachment, a status per transfer and the bytes delivered.
- The register and PLL constants of anx7625.h are taken from the chip's published register map. anx7625.h is not part of this model, and neither is the declaration of `struct display_timing`: every one of its fields is taken to be an `unsigned int` (`Video.Timing`).
- `decode_edid` is external. It is the parameter `conformant` of `EdidAssembly.DpGetEdid`, and the parsed `struct edid` is the datatype `Display.EdidMode`.
- GPIO toggling, `mdelay` and the log messages (`ANXINFO`/`ANXERROR`/`ANXDEBUG`) have no observable effect on the chip state and are left out. Delays are comments.
- The chip is modelled as keeping what the host wrote. What it does on its own appears only through `Registers.Volatile` (status, flash and AUX registers read through the oracle).
- Uninitialised locals read as the oracle's `junk` for the point where they are declared:
  - `val` of `wait_aux_op_finish` before its first poll;
  - `version` and `revision` of `anx7625_power_on_init` before the first loaded pass;
  - `pblock_buf` of `sp_tx_edid_read`, which a segment chunk whose reads all fail copies as it stands;
  - the timing polarities `parse_edid` never sets (the parameter `dt0`).
  Destinations that are never looked at after a failed read start at 0.
- A failed block read is modelled as leaving the destination untouched. A partial fill by the bus driver is not modelled.
- Lines 1234-1608 of anx7625.c, apart from the pixel-clock snap at 1280-1291, are left out: LTDC, DSI and DMA2D HAL set-up, layers, buffer swapping and the interrupt callback are hardware-library plumbing.
- modanx7625.c (the MicroPython binding) is left out.
- Display.DpStart: the division by the zero pixel clock of the 1920x1080 entry in `config` (anx7625.c:1374-1376) is not modelled; "always fails" assumes that division does not trap. Only the pixel-clock snap of `config` is part of this model.
- Display.ValidMode: `anx7625_dp_start` indexes the known-modes table with the mode it is given, so a mode of 7, or above 8, reads past the table in C. The model accepts only modes 0-6 and `EDID_MODE_AUTO`; the out-of-bounds read is not modelled.
- `anx7625_disable_pd_protocol` is compiled out (`#if 0`), and `die()` expands to nothing. Neither is modelled.
- The status decode at the end of `anx7625_read_system_status` only logs, and is left out.
- Helpers.AlignUpSpec: ALIGN and its companions are modelled for 32-bit `x` only, the target's word size. `ARRAY_SIZE` is not modelled.
- Video.SetBits: the status is stated as 0 or negative, with the register contents on success; the exact status is that of `I2c.Chip.WriteOr`, not repeated here to keep the many callers' proofs small.
- Video.ClearBits: likewise, the exact status is that of `I2c.Chip.WriteAnd`.
- Video.WritePixelClock: the status is stated as 0 or negative, not as the exact OR of the write statuses.
- Video.WriteHorizontal: the status is stated as 0 or negative, not as the exact OR of the write statuses.
- Video.WriteVertical: the status is stated as 0 or negative, not as the exact OR of the write statuses.
- Video.WriteMn: the status is stated as 0 or negative, not as the exact OR of the write statuses.
- Video.WriteVideo: the status is stated as 0 or negative, not as the exact OR of the write statuses.
- Video.SetPostDivider: the status is stated as 0 or negative, and the register contents only on success.
- Video.SelectRefClock: the status is stated as 0 or negative, not as the exact OR of the two statuses.
- Video.ResetPll: the status is stated as 0 or negative, not as the exact OR of the three statuses.
- Video.OdfcConfig: the status is stated as 0 or negative, and the register contents only on success. The full access sequence is not stated.
- Video.SelectDsi: after a successful swap the status is stated as 0 or negative, not as the exact OR; the access sequence is not stated.
- Video.SetDsiMode: the status is stated as 0 or negative, not as the exact OR.
- Video.ProgramVideo: the status is stated as 0 or negative. Apart from the pixel-clock and timing writes, the access sequence is not stated.
- Video.DsiVideoConfig: when the clock is accepted, the status is stated as 0 or negative rather than as the exact OR.
- Video.SwapDsiLane3: after the first read, the access sequence is not stated.
- Video.EnableMipiRx: only the final lane-control value is stated. The access sequence is not.
- Video.ApiDsiConfig: besides the lane swap's status and the programmed timing, only the outcome on the MIPI receiver is stated; the clock and DSI-select writes are stated by Video.SelectDsi, not here.
- Video.DsiConfig: besides the programmed timing, only the solver verdict and the final mute bit are stated. The DSC and RX-enable writes are not.
- Power.StartDpWorkSpec: the register effects are stated only when every step succeeds. The source ignores the status (the function is `void`).
