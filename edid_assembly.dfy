/*
 * sp_tx_edid_read and anx7625_dp_get_edid: assembling the EDID in the
 * caller's buffer from sixteen-byte chunks.  Each chunk read is recorded as a
 * Chunk; the buffer afterwards is the old buffer with the copied chunks
 * pasted in, in order.
 */
module EdidAssembly {
  import opened CTypes
  import opened Registers
  import opened I2c
  import opened AuxChannel
  import opened Edid

  /**
   * One chunk handled by sp_tx_edid_read: the EDID offset it was read from,
   * the buffer position it belongs at, the read's status, the contents of
   * the sixteen-byte bounce buffer after the read, and whether it was
   * copied into the destination.
   */
  datatype Chunk = Chunk(offset: byte, pos: nat, status: int, block: seq<byte>, copied: bool)

  /** `buf` with `block` written over it from `pos` on (memcpy). */
  function Paste(buf: seq<byte>, pos: nat, block: seq<byte>): (r: seq<byte>)
    requires pos + |block| <= |buf|
    ensures |r| == |buf|
    ensures forall j :: 0 <= j < |buf| ==> r[j] == if pos <= j < pos + |block| then block[j - pos] else buf[j]
  {
    buf[..pos] + block + buf[pos + |block|..]
  }

  /** The buffer after one chunk: pasted in when it was copied. */
  function Step(buf: seq<byte>, ch: Chunk): (r: seq<byte>)
    ensures |r| == |buf|
  {
    if ch.copied && ch.pos + |ch.block| <= |buf| then Paste(buf, ch.pos, ch.block) else buf
  }

  /** The buffer after a sequence of chunks, applied first to last. */
  function Apply(buf: seq<byte>, chunks: seq<Chunk>): (r: seq<byte>)
    ensures |r| == |buf|
  {
    if chunks == [] then buf else Step(Apply(buf, chunks[..|chunks| - 1]), chunks[|chunks| - 1])
  }

  /** All chunks of all groups, in the order they were read. */
  function Flatten(groups: seq<seq<Chunk>>): seq<Chunk>
  {
    if groups == [] then [] else Flatten(groups[..|groups| - 1]) + groups[|groups| - 1]
  }

  lemma ApplySnoc(buf: seq<byte>, chunks: seq<Chunk>, ch: Chunk)
    ensures Apply(buf, chunks + [ch]) == Step(Apply(buf, chunks), ch)
  {
    assert (chunks + [ch])[..|chunks|] == chunks;
  }

  lemma {:induction false} ApplyConcat(buf: seq<byte>, a: seq<Chunk>, b: seq<Chunk>)
    ensures Apply(buf, a + b) == Apply(Apply(buf, a), b)
    decreases |b|
  {
    if b == [] {
      assert a + b == a;
    } else {
      var n := |b| - 1;
      ApplyConcat(buf, a, b[..n]);
      assert (a + b)[..|a + b| - 1] == a + b[..n];
    }
  }

  lemma FlattenSnoc(groups: seq<seq<Chunk>>, chunks: seq<Chunk>)
    ensures Flatten(groups + [chunks]) == Flatten(groups) + chunks
  {
    assert (groups + [chunks])[..|groups|] == groups;
  }

  /** Every copied chunk ends at or before `lim`. */
  predicate Bounded(chunks: seq<Chunk>, lim: nat)
  {
    forall k :: 0 <= k < |chunks| && chunks[k].copied ==> chunks[k].pos + |chunks[k].block| <= lim
  }

  /**
   * Chunks whose copies all end at or before `lim` leave the buffer from
   * `lim` on as it was.
   */
  lemma {:induction false} ApplyOutside(buf: seq<byte>, chunks: seq<Chunk>, lim: nat)
    requires Bounded(chunks, lim)
    ensures forall j :: lim <= j < |buf| ==> Apply(buf, chunks)[j] == buf[j]
    decreases |chunks|
  {
    if chunks != [] {
      ApplyOutside(buf, chunks[..|chunks| - 1], lim);
    }
  }

  lemma ApplyOutsideSlice(buf: seq<byte>, chunks: seq<Chunk>, lim: nat)
    requires Bounded(chunks, lim) && lim <= |buf|
    ensures Apply(buf, chunks)[lim..] == buf[lim..]
  {
    ApplyOutside(buf, chunks, lim);
    assert forall j :: 0 <= j < |buf| - lim ==> Apply(buf, chunks)[lim..][j] == Apply(buf, chunks)[lim + j];
  }

  /**
   * The destination position sp_tx_edid_read computes for chunk `i` of
   * group `count`, truncated to the eight bits of `edid_pos`.
   */
  function EdidPos(count: nat, i: nat): nat
  {
    ((i + count * 8) * MAX_DPCD_BUFFER_SIZE) % 0x100
  }

  /**
   * The eight-bit position wraps: groups 2 and 3 land exactly where groups 0
   * and 1 did, at 0x00-0x70 and 0x80-0xF0, so no chunk reaches byte 256.
   */
  lemma EdidPosWrap(count: nat, i: nat)
    requires count <= 3 && i < 8
    ensures EdidPos(count, i) == 0x10 * i + 0x80 * (count % 2)
    ensures count >= 2 ==> EdidPos(count, i) == EdidPos(count - 2, i)
    ensures EdidPos(count, i) + MAX_DPCD_BUFFER_SIZE <= 0x100
  {
    var x := (i + count * 8) * MAX_DPCD_BUFFER_SIZE;
    DivModUnique(x, 0x100, count / 2, 0x10 * i + 0x80 * (count % 2));
    if count >= 2 {
      var y := (i + (count - 2) * 8) * MAX_DPCD_BUFFER_SIZE;
      DivModUnique(y, 0x100, 0, 0x10 * i + 0x80 * (count % 2));
    }
  }

  lemma BoundedConcat(a: seq<Chunk>, b: seq<Chunk>, lim: nat)
    requires Bounded(a, lim) && Bounded(b, lim)
    ensures Bounded(a + b, lim)
  {
    forall k | 0 <= k < |a + b| && (a + b)[k].copied
      ensures (a + b)[k].pos + |(a + b)[k].block| <= lim
    {
      if k >= |a| {
        assert (a + b)[k] == b[k - |a|];
      }
    }
  }

  /** The memcpy of a chunk into the destination. */
  method CopyChunk(buf: array<byte>, pos: nat, block: seq<byte>)
    requires pos + |block| <= buf.Length
    modifies buf
    ensures buf[..] == Paste(old(buf[..]), pos, block)
  {
    forall j | 0 <= j < |block| {
      buf[pos + j] := block[j];
    }
  }

  /** The copy of one chunk into the caller's buffer, done only when the chunk says so. */
  method CopyWhen(buf: array<byte>, copied: bool, pos: nat, block: seq<byte>, ghost ch: Chunk)
    requires ch.copied == copied && ch.pos == pos && ch.block == block
    requires copied ==> pos + |block| <= buf.Length
    modifies buf
    ensures buf[..] == Step(old(buf[..]), ch)
  {
    if copied {
      CopyChunk(buf, pos, block);
    }
  }

  /** The chunks one pass of groups 0 or 1 produced. */
  predicate DirectChunks(count: nat, size: nat, chunks: seq<Chunk>)
  {
    1 <= |chunks| <= 8 &&
    forall k :: 0 <= k < |chunks| ==>
      chunks[k].offset as nat == (k + count * 8) * MAX_DPCD_BUFFER_SIZE &&
      chunks[k].pos == chunks[k].offset as nat &&
      (chunks[k].status == 0 || chunks[k].status == 1) &&
      (k < |chunks| - 1 ==> chunks[k].status == 0) &&
      |chunks[k].block| == MAX_DPCD_BUFFER_SIZE &&
      (0 < k && chunks[k].status == 1 ==> chunks[k].block == chunks[k - 1].block) &&
      (chunks[k].copied <==> chunks[k].status == 0 && chunks[k].pos + MAX_DPCD_BUFFER_SIZE <= size)
  }

  /** One more direct chunk, after chunks that all succeeded, keeps the pass well formed. */
  lemma DirectSnoc(count: nat, size: nat, chunks: seq<Chunk>, ch: Chunk)
    requires chunks != [] ==> DirectChunks(count, size, chunks)
    requires |chunks| < 8 && forall k :: 0 <= k < |chunks| ==> chunks[k].status == 0
    requires ch.offset as nat == (|chunks| + count * 8) * MAX_DPCD_BUFFER_SIZE && ch.pos == ch.offset as nat
    requires (ch.status == 0 || ch.status == 1) && |ch.block| == MAX_DPCD_BUFFER_SIZE
    requires chunks != [] && ch.status == 1 ==> ch.block == chunks[|chunks| - 1].block
    requires ch.copied <==> ch.status == 0 && ch.pos + MAX_DPCD_BUFFER_SIZE <= size
    ensures DirectChunks(count, size, chunks + [ch])
  {
    var cs := chunks + [ch];
    forall k | 0 <= k < |cs|
      ensures cs[k].offset as nat == (k + count * 8) * MAX_DPCD_BUFFER_SIZE
      ensures (k < |cs| - 1 ==> cs[k].status == 0) && |cs[k].block| == MAX_DPCD_BUFFER_SIZE
      ensures 0 < k && cs[k].status == 1 ==> cs[k].block == cs[k - 1].block
    {
      if k < |chunks| {
        assert cs[k] == chunks[k];
      }
    }
  }

  /** The offsets of groups 0 and 1 fit in the eight-bit offset variable. */
  lemma DirectOffset(count: nat, i: nat)
    requires count < 2 && i < 8
    ensures LowByte((i + count * 8) * MAX_DPCD_BUFFER_SIZE) as nat == (i + count * 8) * MAX_DPCD_BUFFER_SIZE
  {
  }

  /** Reads that all succeeded, followed by one more success. */
  lemma SucceededSnoc(acc: seq<Chunk>, ch: Chunk)
    requires forall k :: 0 <= k < |acc| ==> acc[k].status == 0
    requires ch.status == 0
    ensures forall k :: 0 <= k < |acc + [ch]| ==> (acc + [ch])[k].status == 0
  {
    forall k | 0 <= k < |acc + [ch]| ensures (acc + [ch])[k].status == 0 {
      if k < |acc| {
        assert (acc + [ch])[k] == acc[k];
      }
    }
  }

  /** A direct pass stopped at a chunk whose edid_read reported failure. */
  predicate Broke(chunks: seq<Chunk>)
  {
    |chunks| > 0 && chunks[|chunks| - 1].status == 1
  }

  /** Group 2 starts at offset 0x00 and group 3 at 0x80. */
  lemma SegmentStart(count: nat)
    requires count == 2 || count == 3
    ensures (if count == 2 then 0x00 else 0x80) == 0x80 * (count % 2)
  {
  }

  /** The chunks one pass of groups 2 or 3 produced. */
  predicate SegmentChunks(count: nat, size: nat, chunks: seq<Chunk>)
  {
    |chunks| <= 8 &&
    forall k :: 0 <= k < |chunks| ==>
      chunks[k].offset as nat == 0x80 * (count % 2) + 0x10 * k &&
      chunks[k].pos == EdidPos(count, k) &&
      chunks[k].status <= 0 &&
      |chunks[k].block| == MAX_DPCD_BUFFER_SIZE &&
      (chunks[k].copied <==> chunks[k].pos + MAX_DPCD_BUFFER_SIZE <= size)
  }

  /** One more segment chunk, at the next offset and position, keeps the pass well formed. */
  lemma SegmentSnoc(count: nat, size: nat, chunks: seq<Chunk>, ch: Chunk)
    requires SegmentChunks(count, size, chunks) && |chunks| < 8
    requires ch.offset as nat == 0x80 * (count % 2) + 0x10 * |chunks| && ch.pos == EdidPos(count, |chunks|)
    requires ch.status <= 0 && |ch.block| == MAX_DPCD_BUFFER_SIZE
    requires ch.copied <==> ch.pos + MAX_DPCD_BUFFER_SIZE <= size
    ensures SegmentChunks(count, size, chunks + [ch])
  {
    var all := chunks + [ch];
    forall k | 0 <= k < |all|
      ensures all[k].offset as nat == 0x80 * (count % 2) + 0x10 * k && all[k].pos == EdidPos(count, k)
    {
      if k < |chunks| {
        assert all[k] == chunks[k];
      }
    }
  }

  /** Direct chunks are copied below both `size` and 256. */
  lemma DirectBounded(count: nat, size: nat, chunks: seq<Chunk>)
    requires count < 2 && DirectChunks(count, size, chunks)
    ensures Bounded(chunks, if size < 0x100 then size else 0x100)
  {
  }

  /** Segment chunks are copied below both `size` and 256. */
  lemma SegmentBounded(count: nat, size: nat, chunks: seq<Chunk>)
    requires (count == 2 || count == 3) && SegmentChunks(count, size, chunks)
    ensures Bounded(chunks, if size < 0x100 then size else 0x100)
  {
    forall k | 0 <= k < |chunks| ensures chunks[k].pos + MAX_DPCD_BUFFER_SIZE <= 0x100 {
      EdidPosWrap(count, k);
    }
  }

  // ---------------------------------------------------------------------
  // The passes of sp_tx_edid_read as functions of the bus state

  /**
   * A read of sixteen EDID bytes at `offset` into the bounce buffer, from a
   * bus state: edid_read for groups 0 and 1, segments_edid_read through one
   * segment pointer for groups 2 and 3.  The passes below are stated for
   * any such read, so that what they do with its result is told apart from
   * how the read itself talks to the chip.
   */
  type ChunkRead = (Bus, byte, seq<byte>) -> BlockOutcome

  /** edid_read as a chunk read. */
  function EdidReads(o: Oracle): ChunkRead
  {
    (b: Bus, offset: byte, prior: seq<byte>) => EdidReadEffect(o, b, offset, prior)
  }

  /** segments_edid_read through segment pointer `segment` as a chunk read. */
  function SegmentReads(o: Oracle): byte -> ChunkRead
  {
    (segment: byte) => (b: Bus, offset: byte, prior: seq<byte>) => SegmentsEdidReadEffect(o, b, segment, prior, offset)
  }

  /** What edid_read promises of its result: 0 or 1, a bounce buffer of the same length, unchanged on 1. */
  ghost predicate DirectShaped(read: ChunkRead)
  {
    forall b: Bus, offset: byte, prior: seq<byte> {:trigger read(b, offset, prior)} ::
      var e := read(b, offset, prior);
      (e.ret == 0 || e.ret == 1) && |e.buf| == |prior| && (e.ret == 1 ==> e.buf == prior)
  }

  /** What segments_edid_read promises of its result: never positive, a bounce buffer of the same length. */
  ghost predicate SegmentShaped(read: ChunkRead)
  {
    forall b: Bus, offset: byte, prior: seq<byte> {:trigger read(b, offset, prior)} ::
      var e := read(b, offset, prior);
      e.ret <= 0 && |e.buf| == |prior|
  }

  lemma EdidReadsShaped(o: Oracle)
    ensures DirectShaped(EdidReads(o))
  {
    forall b: Bus, offset: byte, prior: seq<byte> {
      EdidReadShape(o, b, offset, prior);
    }
  }

  lemma SegmentReadsShaped(o: Oracle)
    ensures forall segment :: SegmentShaped(SegmentReads(o)(segment))
  {
    forall segment: byte, b: Bus, offset: byte, prior: seq<byte> {
      SegmentsEdidReadShape(o, b, segment, prior, offset);
    }
  }

  /**
   * Where a pass of the do-while leaves things: the bus, g_edid_break, the
   * bounce buffer pblock_buf, and the chunks handled so far.
   */
  datatype Pass = Pass(bus: Bus, brk: byte, pblock: seq<byte>, chunks: seq<Chunk>)

  /**
   * Cases 0 and 1 from iteration `i` on, after the chunks `acc`: the read
   * at offset (i + 8 * count) * 16 (an eight-bit variable), its result kept
   * in the eight-bit g_edid_break; a result of 1 ends the pass before the
   * copy, otherwise the bounce buffer is copied to the offset when it fits
   * below `size`.
   */
  function DirectPass(read: ChunkRead, b: Bus, count: nat, size: nat, i: nat, pblock: seq<byte>, acc: seq<Chunk>): Pass
    decreases 8 - i
  {
    if i >= 8 then Pass(b, 0, pblock, acc)
    else
      var offset := LowByte((i + count * 8) * MAX_DPCD_BUFFER_SIZE);
      var e := read(b, offset, pblock);
      var brk := LowByte(e.ret);
      var ch := Chunk(offset, offset as nat, e.ret, e.buf, brk != 1 && offset as nat + MAX_DPCD_BUFFER_SIZE <= size);
      if brk == 1 then Pass(e.bus, brk, e.buf, acc + [ch])
      else DirectPass(read, e.bus, count, size, i + 1, e.buf, acc + [ch])
  }

  /**
   * Cases 2 and 3 from iteration `i` on, after the chunks `acc`: nothing
   * once g_edid_break is 1; otherwise the read at `offset`, whose status is
   * ignored, the copy of the bounce buffer to the eight-bit edid_pos when it
   * fits below `size`, and the offset moved on by 0x10.
   */
  function SegmentPass(read: ChunkRead, b: Bus, count: nat, size: nat, brk: byte, i: nat, offset: byte,
                       pblock: seq<byte>, acc: seq<Chunk>): Pass
    decreases 8 - i
  {
    if i >= 8 || brk == 1 then Pass(b, brk, pblock, acc)
    else
      var pos := LowByte((i + count * 8) * MAX_DPCD_BUFFER_SIZE);
      var s := read(b, offset, pblock);
      var ch := Chunk(offset, pos as nat, s.ret, s.buf, pos as nat + MAX_DPCD_BUFFER_SIZE <= size);
      SegmentPass(read, s.bus, count, size, brk, i + 1, LowByte(offset + 0x10), s.buf, acc + [ch])
  }

  /**
   * One pass of the do-while, the switch on `count`: a direct pass, or a
   * segment pass through segment pointer count / 2 starting at offset 0x00
   * (group 2) or 0x80 (group 3).
   */
  function GroupPass(direct: ChunkRead, segmented: byte -> ChunkRead, b: Bus, count: nat, size: nat, brk: byte,
                     pblock: seq<byte>): Pass
  {
    if count < 2 then DirectPass(direct, b, count, size, 0, pblock, [])
    else SegmentPass(segmented(LowByte(count / 2)), b, count, size, brk, 0, if count == 2 then 0x00 else 0x80, pblock, [])
  }

  /** One iteration of a direct pass that is not over yet. */
  lemma DirectPassStep(read: ChunkRead, b: Bus, count: nat, size: nat, i: nat, pblock: seq<byte>, acc: seq<Chunk>)
    requires i < 8
    ensures var offset := LowByte((i + count * 8) * MAX_DPCD_BUFFER_SIZE);
      var e := read(b, offset, pblock);
      var brk := LowByte(e.ret);
      var ch := Chunk(offset, offset as nat, e.ret, e.buf, brk != 1 && offset as nat + MAX_DPCD_BUFFER_SIZE <= size);
      DirectPass(read, b, count, size, i, pblock, acc)
      == if brk == 1 then Pass(e.bus, brk, e.buf, acc + [ch])
         else DirectPass(read, e.bus, count, size, i + 1, e.buf, acc + [ch])
  {
  }

  /** One iteration of a segment pass that is not over yet. */
  lemma SegmentPassStep(read: ChunkRead, b: Bus, count: nat, size: nat, brk: byte, i: nat, offset: byte,
                        pblock: seq<byte>, acc: seq<Chunk>)
    requires i < 8 && brk != 1
    ensures var pos := LowByte((i + count * 8) * MAX_DPCD_BUFFER_SIZE);
      var s := read(b, offset, pblock);
      var ch := Chunk(offset, pos as nat, s.ret, s.buf, pos as nat + MAX_DPCD_BUFFER_SIZE <= size);
      SegmentPass(read, b, count, size, brk, i, offset, pblock, acc)
      == SegmentPass(read, s.bus, count, size, brk, i + 1, LowByte(offset + 0x10), s.buf, acc + [ch])
  {
  }

  /** The bus and the chunks of every group once the do-while is over. */
  datatype Run = Run(bus: Bus, groups: seq<seq<Chunk>>)

  /** The do-while from group `count` on, after the groups `groups`, ending once `count` passes `blocksNum`. */
  function RunFrom(direct: ChunkRead, segmented: byte -> ChunkRead, b: Bus, count: nat, blocksNum: nat, size: nat,
                   brk: byte, pblock: seq<byte>, groups: seq<seq<Chunk>>): Run
    decreases blocksNum + 1 - count
  {
    if count > blocksNum then Run(b, groups)
    else
      var p := GroupPass(direct, segmented, b, count, size, brk, pblock);
      RunFrom(direct, segmented, p.bus, count + 1, blocksNum, size, p.brk, p.pblock, groups + [p.chunks])
  }

  /**
   * The "address initial" writes of sp_tx_edid_read: AUX address 0x50, with
   * bits 15-8 cleared and the low nibble of bits 19-16 cleared, the three
   * statuses OR-ed.
   */
  function AddressInitEffect(o: Oracle, b: Bus): Outcome
  {
    var lo := RegWriteEffect(o, b, RX_P0_ADDR, AP_AUX_ADDR_7_0, 0x50);
    var mid := RegWriteEffect(o, lo.bus, RX_P0_ADDR, AP_AUX_ADDR_15_8, 0);
    var hi := WriteAndEffect(o, mid.bus, RX_P0_ADDR, AP_AUX_ADDR_19_16, 0xF0);
    Outcome(hi.bus, Or32(Or32(lo.ret, mid.ret), hi.ret))
  }

  /** What sp_tx_edid_read leaves: the bus, its result, and the chunks of every group it ran. */
  datatype EdidOutcome = EdidOutcome(bus: Bus, ret: i32, groups: seq<seq<Chunk>>)

  /**
   * sp_tx_edid_read: the address writes (-1 when they fail), the extension
   * count (returned as is when negative), groups 0 through that count with
   * pblock_buf starting uninitialised, and a final AUX reset whose status
   * is ignored.
   */
  function SpTxEdidReadEffect(o: Oracle, b: Bus, size: nat): EdidOutcome
  {
    var addr := AddressInitEffect(o, b);
    if addr.ret < 0 then EdidOutcome(addr.bus, -1, [])
    else
      var blocks := GetEdidBlockEffect(o, addr.bus);
      if blocks.ret < 0 then EdidOutcome(blocks.bus, blocks.ret, [])
      else
        var pblock := Uninitialised(o, |b.trace|, MAX_DPCD_BUFFER_SIZE);
        var run := RunFrom(EdidReads(o), SegmentReads(o), blocks.bus, 0, blocks.ret as nat, size, 0, pblock, []);
        EdidOutcome(RstAuxEffect(o, run.bus).bus, blocks.ret, run.groups)
  }

  // ---------------------------------------------------------------------
  // What the passes produce

  /** A direct pass leaves in the bounce buffer the block of its last chunk. */
  lemma {:induction false} DirectPassBlock(read: ChunkRead, b: Bus, count: nat, size: nat, i: nat, pblock: seq<byte>, acc: seq<Chunk>)
    requires DirectShaped(read)
    requires |pblock| == MAX_DPCD_BUFFER_SIZE
    requires acc != [] ==> pblock == acc[|acc| - 1].block
    ensures var p := DirectPass(read, b, count, size, i, pblock, acc);
      && |p.pblock| == MAX_DPCD_BUFFER_SIZE
      && (p.chunks != [] ==> p.pblock == p.chunks[|p.chunks| - 1].block)
    decreases 8 - i
  {
    if i < 8 {
      DirectPassStep(read, b, count, size, i, pblock, acc);
      var offset := LowByte((i + count * 8) * MAX_DPCD_BUFFER_SIZE);
      var e := read(b, offset, pblock);
      var ch := Chunk(offset, offset as nat, e.ret, e.buf, LowByte(e.ret) != 1 && offset as nat + MAX_DPCD_BUFFER_SIZE <= size);
      assert |e.buf| == |pblock|;
      assert (acc + [ch])[|acc|] == ch;
      if LowByte(e.ret) != 1 {
        DirectPassBlock(read, e.bus, count, size, i + 1, e.buf, acc + [ch]);
      }
    }
  }

  /**
   * A direct pass reads at most eight chunks, at offsets (i + 8 * count) *
   * 16, each a success copied when it fits, except that the last may be a
   * failure, which ends the pass, is not copied and leaves the bounce
   * buffer as it was; g_edid_break is 1 exactly then, and 0 after eight
   * successes.
   */
  lemma {:induction false} DirectPassSpec(read: ChunkRead, b: Bus, count: nat, size: nat, i: nat, pblock: seq<byte>, acc: seq<Chunk>)
    requires DirectShaped(read)
    requires count < 2 && i <= 8 && |acc| == i && |pblock| == MAX_DPCD_BUFFER_SIZE
    requires acc != [] ==> DirectChunks(count, size, acc) && pblock == acc[|acc| - 1].block
    requires forall k :: 0 <= k < |acc| ==> acc[k].status == 0
    ensures var p := DirectPass(read, b, count, size, i, pblock, acc);
      && (i < 8 || acc != [] ==> DirectChunks(count, size, p.chunks))
      && (p.brk == 0 || p.brk == 1)
      && (p.brk == 1 <==> Broke(p.chunks))
      && (p.brk == 0 ==> |p.chunks| == 8)
    decreases 8 - i
  {
    if i < 8 {
      var offset := LowByte((i + count * 8) * MAX_DPCD_BUFFER_SIZE);
      DirectOffset(count, i);
      DirectPassStep(read, b, count, size, i, pblock, acc);
      var e := read(b, offset, pblock);
      DivModUnique(e.ret as int, 0x100, 0, e.ret as int);
      var brk := LowByte(e.ret);
      var ch := Chunk(offset, offset as nat, e.ret, e.buf, brk != 1 && offset as nat + MAX_DPCD_BUFFER_SIZE <= size);
      DirectSnoc(count, size, acc, ch);
      var acc' := acc + [ch];
      assert acc'[|acc'| - 1] == ch;
      if brk != 1 {
        SucceededSnoc(acc, ch);
        DirectPassSpec(read, e.bus, count, size, i + 1, e.buf, acc');
      }
    }
  }

  /**
   * A segment pass reads nothing when g_edid_break is 1 and eight chunks
   * otherwise, at offsets 0x80 * (count % 2) + 0x10 * i and eight-bit
   * positions edid_pos, each copied when it fits whatever its status.
   */
  lemma {:induction false} SegmentPassSpec(read: ChunkRead, b: Bus, count: nat, size: nat, brk: byte, i: nat, offset: byte,
                                           pblock: seq<byte>, acc: seq<Chunk>)
    requires SegmentShaped(read)
    requires (count == 2 || count == 3) && i <= 8 && |acc| == i && |pblock| == MAX_DPCD_BUFFER_SIZE
    requires SegmentChunks(count, size, acc) && (brk == 1 ==> acc == [])
    requires i < 8 ==> offset as nat == 0x80 * (count % 2) + 0x10 * i
    ensures var p := SegmentPass(read, b, count, size, brk, i, offset, pblock, acc);
      && SegmentChunks(count, size, p.chunks)
      && p.brk == brk
      && (brk == 1 ==> p.chunks == [])
      && (brk != 1 ==> |p.chunks| == 8)
      && |p.pblock| == MAX_DPCD_BUFFER_SIZE
    decreases 8 - i
  {
    if i < 8 && brk != 1 {
      EdidPosWrap(count, i);
      var pos := LowByte((i + count * 8) * MAX_DPCD_BUFFER_SIZE);
      assert pos as nat == EdidPos(count, i);
      var s := read(b, offset, pblock);
      var ch := Chunk(offset, pos as nat, s.ret, s.buf, pos as nat + MAX_DPCD_BUFFER_SIZE <= size);
      SegmentSnoc(count, size, acc, ch);
      if i < 7 {
        DivModUnique(offset as nat + 0x10, 0x100, 0, offset as nat + 0x10);
      }
      SegmentPassSpec(read, s.bus, count, size, brk, i + 1, LowByte(offset + 0x10), s.buf, acc + [ch]);
    }
  }

  /**
   * The groups sp_tx_edid_read has run, in order: groups 0 and 1 are direct
   * passes, and groups 2 and 3 read nothing exactly when group 1 stopped at
   * a failed edid_read, and all eight chunks otherwise.
   */
  ghost predicate Groups(size: nat, groups: seq<seq<Chunk>>)
    decreases |groups|
  {
    groups == [] ||
    (Groups(size, groups[..|groups| - 1]) &&
     var g := |groups| - 1;
     if g < 2 then DirectChunks(g, size, groups[g])
     else SegmentChunks(g, size, groups[g]) &&
          (groups[g] == [] <==> Broke(groups[1])) &&
          (!Broke(groups[1]) ==> |groups[g]| == 8))
  }

  lemma GroupsSnoc(size: nat, groups: seq<seq<Chunk>>, chunks: seq<Chunk>)
    requires Groups(size, groups)
    requires |groups| < 2 ==> DirectChunks(|groups|, size, chunks)
    requires |groups| >= 2 ==>
      SegmentChunks(|groups|, size, chunks) && (chunks == [] <==> Broke(groups[1])) && (!Broke(groups[1]) ==> |chunks| == 8)
    ensures Groups(size, groups + [chunks])
  {
    assert (groups + [chunks])[..|groups|] == groups;
  }

  /** What Groups says about each group, stated group by group. */
  lemma {:induction false} GroupsEach(size: nat, groups: seq<seq<Chunk>>)
    requires Groups(size, groups)
    ensures forall g :: 0 <= g < |groups| && g < 2 ==> DirectChunks(g, size, groups[g])
    ensures forall g :: 2 <= g < |groups| ==> SegmentChunks(g, size, groups[g])
    ensures forall g :: 2 <= g < |groups| ==> (groups[g] == [] <==> Broke(groups[1]))
    ensures forall g :: 2 <= g < |groups| && !Broke(groups[1]) ==> |groups[g]| == 8
    decreases |groups|
  {
    if groups != [] {
      var init := groups[..|groups| - 1];
      GroupsEach(size, init);
      assert forall g :: 0 <= g < |init| ==> init[g] == groups[g];
    }
  }

  /** One group of a do-while that is not over yet. */
  lemma RunFromStep(direct: ChunkRead, segmented: byte -> ChunkRead, b: Bus, count: nat, blocksNum: nat, size: nat,
                    brk: byte, pblock: seq<byte>, groups: seq<seq<Chunk>>)
    requires count <= blocksNum
    ensures var p := GroupPass(direct, segmented, b, count, size, brk, pblock);
      RunFrom(direct, segmented, b, count, blocksNum, size, brk, pblock, groups)
      == RunFrom(direct, segmented, p.bus, count + 1, blocksNum, size, p.brk, p.pblock, groups + [p.chunks])
  {
  }

  /**
   * One group of the do-while adds well-formed chunks, copied below `lim`,
   * keeps the bounce buffer sixteen bytes long, and leaves g_edid_break
   * telling whether group 1 broke off.
   */
  lemma GroupPassSpec(direct: ChunkRead, segmented: byte -> ChunkRead, b: Bus, count: nat, size: nat, brk: byte,
                      pblock: seq<byte>, groups: seq<seq<Chunk>>, lim: nat)
    requires DirectShaped(direct) && forall segment :: SegmentShaped(segmented(segment))
    requires count <= 3 && |groups| == count && |pblock| == MAX_DPCD_BUFFER_SIZE
    requires lim == if size < 0x100 then size else 0x100
    requires Groups(size, groups) && Bounded(Flatten(groups), lim)
    requires count >= 2 ==> (brk == 1 <==> Broke(groups[1]))
    ensures var p := GroupPass(direct, segmented, b, count, size, brk, pblock);
      && Groups(size, groups + [p.chunks]) && Bounded(Flatten(groups + [p.chunks]), lim)
      && |p.pblock| == MAX_DPCD_BUFFER_SIZE
      && (count == 1 ==> (p.brk == 1 <==> Broke(p.chunks)))
      && (count >= 2 ==> p.brk == brk)
  {
    var p := GroupPass(direct, segmented, b, count, size, brk, pblock);
    if count < 2 {
      DirectPassSpec(direct, b, count, size, 0, pblock, []);
      DirectPassBlock(direct, b, count, size, 0, pblock, []);
      DirectBounded(count, size, p.chunks);
    } else {
      SegmentStart(count);
      SegmentPassSpec(segmented(LowByte(count / 2)), b, count, size, brk, 0, if count == 2 then 0x00 else 0x80, pblock, []);
      SegmentBounded(count, size, p.chunks);
    }
    RecordGroup(size, groups, p.chunks, lim);
  }

  /**
   * The do-while runs one group per value of `count` up to `blocksNum`, of
   * the kind its switch picks, and every chunk it copies ends below both
   * `size` and 256.
   */
  lemma {:induction false} RunFromSpec(direct: ChunkRead, segmented: byte -> ChunkRead, b: Bus, count: nat, blocksNum: nat,
                                       size: nat, brk: byte, pblock: seq<byte>, groups: seq<seq<Chunk>>, lim: nat)
    requires DirectShaped(direct) && forall segment :: SegmentShaped(segmented(segment))
    requires blocksNum <= 3 && count <= blocksNum + 1 && |groups| == count && |pblock| == MAX_DPCD_BUFFER_SIZE
    requires lim == if size < 0x100 then size else 0x100
    requires Groups(size, groups) && Bounded(Flatten(groups), lim)
    requires count >= 2 ==> (brk == 1 <==> Broke(groups[1]))
    ensures var r := RunFrom(direct, segmented, b, count, blocksNum, size, brk, pblock, groups);
      |r.groups| == blocksNum + 1 && Groups(size, r.groups) && Bounded(Flatten(r.groups), lim)
    decreases blocksNum + 1 - count
  {
    if count <= blocksNum {
      var p := GroupPass(direct, segmented, b, count, size, brk, pblock);
      RunFromStep(direct, segmented, b, count, blocksNum, size, brk, pblock, groups);
      GroupPassSpec(direct, segmented, b, count, size, brk, pblock, groups, lim);
      var groups' := groups + [p.chunks];
      assert count + 1 >= 2 ==> groups'[1] == (if count == 1 then p.chunks else groups[1]);
      RunFromSpec(direct, segmented, p.bus, count + 1, blocksNum, size, p.brk, p.pblock, groups', lim);
    }
  }


  /** The facts one more group keeps, carried from `groups0` to `groups0 + [chunks]`. */
  lemma RecordGroup(size: nat, groups0: seq<seq<Chunk>>, chunks: seq<Chunk>, lim: nat)
    requires Groups(size, groups0)
    requires |groups0| < 2 ==> DirectChunks(|groups0|, size, chunks)
    requires |groups0| >= 2 ==>
      SegmentChunks(|groups0|, size, chunks) && (chunks == [] <==> Broke(groups0[1])) && (!Broke(groups0[1]) ==> |chunks| == 8)
    requires Bounded(Flatten(groups0), lim) && Bounded(chunks, lim)
    ensures Groups(size, groups0 + [chunks])
    ensures Bounded(Flatten(groups0 + [chunks]), lim)
  {
    GroupsSnoc(size, groups0, chunks);
    FlattenSnoc(groups0, chunks);
    BoundedConcat(Flatten(groups0), chunks, lim);
  }

  /**
   * The "address initial" writes fail exactly when one of the three does.
   * They are, in order: 0x50 to bits 7-0, 0 to bits 15-8, and the read of
   * bits 19-16 followed, unless it failed, by the write-back of the value
   * with its low nibble cleared.
   */
  lemma AddressInitSpec(o: Oracle, b: Bus)
    ensures var lo := RegWriteEffect(o, b, RX_P0_ADDR, AP_AUX_ADDR_7_0, 0x50);
      var mid := RegWriteEffect(o, lo.bus, RX_P0_ADDR, AP_AUX_ADDR_15_8, 0);
      var hi := WriteAndEffect(o, mid.bus, RX_P0_ADDR, AP_AUX_ADDR_19_16, 0xF0);
      var a := AddressInitEffect(o, b);
      && a.ret <= 0
      && (a.ret < 0 <==> lo.ret < 0 || mid.ret < 0 || hi.ret < 0)
  {
    var lo := RegWriteEffect(o, b, RX_P0_ADDR, AP_AUX_ADDR_7_0, 0x50);
    var mid := RegWriteEffect(o, lo.bus, RX_P0_ADDR, AP_AUX_ADDR_15_8, 0);
    var hi := WriteAndEffect(o, mid.bus, RX_P0_ADDR, AP_AUX_ADDR_19_16, 0xF0);
    RegWriteSpec(o, b, RX_P0_ADDR, AP_AUX_ADDR_7_0, 0x50);
    RegWriteSpec(o, lo.bus, RX_P0_ADDR, AP_AUX_ADDR_15_8, 0);
    WriteAndSpec(o, mid.bus, RX_P0_ADDR, AP_AUX_ADDR_19_16, 0xF0);
    Or32NonPositive(lo.ret, mid.ret);
    Or32NonPositive(Or32(lo.ret, mid.ret), hi.ret);
  }

  /**
   * The address writes put AUX address 0x50 in bits 7:0, 0 in bits 15:8,
   * and clear bits 3:0 of bits 19:16 by a read-modify-write that skips the
   * write when the read fails.
   */
  lemma AddressInitLog(o: Oracle, b: Bus)
    ensures var lo := RegWriteEffect(o, b, RX_P0_ADDR, AP_AUX_ADDR_7_0, 0x50);
      var mid := RegWriteEffect(o, lo.bus, RX_P0_ADDR, AP_AUX_ADDR_15_8, 0);
      var rd := RegReadEffect(o, mid.bus, RX_P0_ADDR, AP_AUX_ADDR_19_16, 0);
      AddressInitEffect(o, b).bus.log
      == b.log + [Set(ADDR_7_0_KEY, 0x50), Set((RX_P0_ADDR, AP_AUX_ADDR_15_8), 0), Get((RX_P0_ADDR, AP_AUX_ADDR_19_16))]
         + (if rd.ret < 0 then [] else [Set((RX_P0_ADDR, AP_AUX_ADDR_19_16), And8(rd.val, 0xF0))])
  {
    var lo := RegWriteEffect(o, b, RX_P0_ADDR, AP_AUX_ADDR_7_0, 0x50);
    var mid := RegWriteEffect(o, lo.bus, RX_P0_ADDR, AP_AUX_ADDR_15_8, 0);
    var rd := RegReadEffect(o, mid.bus, RX_P0_ADDR, AP_AUX_ADDR_19_16, 0);
    RegWriteLog(o, b, RX_P0_ADDR, AP_AUX_ADDR_7_0, 0x50);
    RegWriteLog(o, lo.bus, RX_P0_ADDR, AP_AUX_ADDR_15_8, 0);
    WriteAndLog(o, mid.bus, RX_P0_ADDR, AP_AUX_ADDR_19_16, 0xF0);
    var tail := if rd.ret < 0 then [] else [Set((RX_P0_ADDR, AP_AUX_ADDR_19_16), And8(rd.val, 0xF0))];
    assert b.log + [Set(ADDR_7_0_KEY, 0x50)] + [Set((RX_P0_ADDR, AP_AUX_ADDR_15_8), 0)] + [Get((RX_P0_ADDR, AP_AUX_ADDR_19_16))] + tail
        == b.log + [Set(ADDR_7_0_KEY, 0x50), Set((RX_P0_ADDR, AP_AUX_ADDR_15_8), 0), Get((RX_P0_ADDR, AP_AUX_ADDR_19_16))] + tail;
  }


  /**
   * sp_tx_edid_read returns -1 when the address writes fail, and otherwise
   * the result of sp_tx_get_edid_block (so at most 3); a negative result
   * comes before any chunk is read, and a count n runs n + 1 groups: 0 and 1
   * direct, 2 and 3 segment passes that read nothing exactly when group 1
   * stopped at a failure.  Every copied chunk ends below both `size` and
   * 256.
   */
  lemma SpTxEdidReadSpec(o: Oracle, b: Bus, size: nat)
    ensures var addr := AddressInitEffect(o, b);
      var e := SpTxEdidReadEffect(o, b, size);
      && -1 <= e.ret <= 3
      && (addr.ret < 0 ==> e.ret == -1)
      && (addr.ret >= 0 ==> e.ret == GetEdidBlockEffect(o, addr.bus).ret)
      && (e.ret < 0 ==> e.groups == [])
      && (e.ret >= 0 ==> |e.groups| == e.ret as nat + 1)
      && Groups(size, e.groups)
      && Bounded(Flatten(e.groups), if size < 0x100 then size else 0x100)
  {
    var addr := AddressInitEffect(o, b);
    if addr.ret >= 0 {
      var blocks := GetEdidBlockEffect(o, addr.bus);
      GetEdidBlockSpec(o, addr.bus);
      if blocks.ret >= 0 {
        var pblock := Uninitialised(o, |b.trace|, MAX_DPCD_BUFFER_SIZE);
        var none: seq<seq<Chunk>> := [];
        assert Flatten(none) == [];
        EdidReadsShaped(o);
        SegmentReadsShaped(o);
        RunFromSpec(EdidReads(o), SegmentReads(o), blocks.bus, 0, blocks.ret as nat, size, 0, pblock, none,
                    if size < 0x100 then size else 0x100);
      }
    }
  }

  /** sp_tx_edid_read leaves the destination from min(size, 256) on as it was. */
  lemma SpTxEdidReadOutside(o: Oracle, b: Bus, size: nat, buf: seq<byte>)
    ensures var e := SpTxEdidReadEffect(o, b, size);
      && (forall j :: (if size < 0x100 then size else 0x100) <= j < |buf| ==> Apply(buf, Flatten(e.groups))[j] == buf[j])
      && (0x100 <= size && 0x100 <= |buf| ==> Apply(buf, Flatten(e.groups))[0x100..] == buf[0x100..])
  {
    var e := SpTxEdidReadEffect(o, b, size);
    SpTxEdidReadSpec(o, b, size);
    ApplyOutside(buf, Flatten(e.groups), if size < 0x100 then size else 0x100);
    if 0x100 <= size && 0x100 <= |buf| {
      ApplyOutsideSlice(buf, Flatten(e.groups), 0x100);
    }
  }


  // ---------------------------------------------------------------------
  // The same operations on the chip and the caller's buffer

  /** `read` is edid_read on the chip whose behaviour is `o`. */
  ghost predicate IsEdidRead(o: Oracle, read: ChunkRead)
  {
    forall b: Bus, offset: byte, prior: seq<byte> {:trigger EdidReadEffect(o, b, offset, prior)} ::
      read(b, offset, prior) == EdidReadEffect(o, b, offset, prior)
  }

  /** `read` is segments_edid_read through segment pointer `segment` on the chip whose behaviour is `o`. */
  ghost predicate IsSegmentRead(o: Oracle, segment: byte, read: ChunkRead)
  {
    forall b: Bus, offset: byte, prior: seq<byte> {:trigger SegmentsEdidReadEffect(o, b, segment, prior, offset)} ::
      read(b, offset, prior) == SegmentsEdidReadEffect(o, b, segment, prior, offset)
  }

  /** `segmented` is segments_edid_read through each segment pointer on the chip whose behaviour is `o`. */
  ghost predicate IsSegmentReads(o: Oracle, segmented: byte -> ChunkRead)
  {
    forall segment: byte, b: Bus, offset: byte, prior: seq<byte>
      {:trigger SegmentsEdidReadEffect(o, b, segment, prior, offset)} ::
      segmented(segment)(b, offset, prior) == SegmentsEdidReadEffect(o, b, segment, prior, offset)
  }

  lemma EdidReadsAre(o: Oracle)
    ensures IsEdidRead(o, EdidReads(o)) && IsSegmentReads(o, SegmentReads(o))
  {
  }

  /** edid_read on the chip, through the name `read` given to it. */
  method ReadEdidAs(c: Chip, ghost read: ChunkRead, offset: byte, prior: seq<byte>) returns (ret: i32, block: seq<byte>)
    requires IsEdidRead(c.oracle, read)
    modifies c
    ensures BlockOutcome(c.State(), ret, block) == read(old(c.State()), offset, prior)
    ensures |block| == |prior|
  {
    EdidReadShape(c.oracle, c.State(), offset, prior);
    ret, block := EdidRead(c, offset, prior);
  }

  /** segments_edid_read on the chip, through the name `read` given to it. */
  method ReadSegmentAs(c: Chip, ghost read: ChunkRead, segment: byte, prior: seq<byte>, offset: byte)
    returns (ret: i32, block: seq<byte>)
    requires IsSegmentRead(c.oracle, segment, read)
    modifies c
    ensures BlockOutcome(c.State(), ret, block) == read(old(c.State()), offset, prior)
    ensures |block| == |prior|
  {
    SegmentsEdidReadShape(c.oracle, c.State(), segment, prior, offset);
    ret, block := SegmentsEdidRead(c, segment, prior, offset);
  }

  /**
   * One iteration of cases 0 and 1 on the chip: edid_read at offset
   * (i + 8 * count) * 16 and, unless it gave up, the copy of the bounce
   * buffer when it fits; `ch` records the iteration.
   */
  method DirectRead(c: Chip, ghost read: ChunkRead, buf: array<byte>, size: u32, count: nat, i: byte, pblock0: seq<byte>)
    returns (brk: byte, pblock: seq<byte>, ghost ch: Chunk)
    requires IsEdidRead(c.oracle, read)
    requires size as nat <= buf.Length && |pblock0| == MAX_DPCD_BUFFER_SIZE
    modifies c, buf
    ensures var offset := LowByte((i as nat + count * 8) * MAX_DPCD_BUFFER_SIZE);
      var e := read(old(c.State()), offset, pblock0);
      && c.State() == e.bus && pblock == e.buf && brk == LowByte(e.ret)
      && ch == Chunk(offset, offset as nat, e.ret, e.buf, brk != 1 && offset as nat + MAX_DPCD_BUFFER_SIZE <= size as nat)
    ensures |pblock| == MAX_DPCD_BUFFER_SIZE
    ensures buf[..] == Step(old(buf[..]), ch)
  {
    var offset: byte := LowByte((i as nat + count * 8) * MAX_DPCD_BUFFER_SIZE);
    var r;
    r, pblock := ReadEdidAs(c, read, offset, pblock0);
    brk := LowByte(r);
    var copied := brk != 1 && offset as nat + MAX_DPCD_BUFFER_SIZE <= size as nat;
    ch := Chunk(offset, offset as nat, r, pblock, copied);
    CopyWhen(buf, copied, offset as nat, pblock, ch);
  }

  /**
   * One iteration of cases 2 and 3 on the chip: segments_edid_read at
   * `offset` through segment pointer count / 2 and the copy of the bounce
   * buffer to (i + 8 * count) * 16 when it fits; `ch` records the iteration.
   */
  method SegmentRead(c: Chip, ghost read: ChunkRead, buf: array<byte>, size: u32, count: nat, i: byte, offset: byte,
                     pblock0: seq<byte>)
    returns (pblock: seq<byte>, ghost ch: Chunk)
    requires IsSegmentRead(c.oracle, LowByte(count / 2), read)
    requires size as nat <= buf.Length && |pblock0| == MAX_DPCD_BUFFER_SIZE
    modifies c, buf
    ensures var pos := LowByte((i as nat + count * 8) * MAX_DPCD_BUFFER_SIZE);
      var s := read(old(c.State()), offset, pblock0);
      && c.State() == s.bus && pblock == s.buf
      && ch == Chunk(offset, pos as nat, s.ret, s.buf, pos as nat + MAX_DPCD_BUFFER_SIZE <= size as nat)
    ensures |pblock| == MAX_DPCD_BUFFER_SIZE
    ensures buf[..] == Step(old(buf[..]), ch)
  {
    var edidPos: byte := LowByte((i as nat + count * 8) * MAX_DPCD_BUFFER_SIZE);
    var r;
    r, pblock := ReadSegmentAs(c, read, LowByte(count / 2), pblock0, offset);
    var copied := edidPos as nat + MAX_DPCD_BUFFER_SIZE <= size as nat;
    ch := Chunk(offset, edidPos as nat, r, pblock, copied);
    CopyWhen(buf, copied, edidPos as nat, pblock, ch);
  }

  /**
   * Cases 0 and 1 of sp_tx_edid_read on the chip, copying into `buf`; the
   * ghost `read` names edid_read so that the pass is stated once for any
   * read.
   */
  method DirectGroup(c: Chip, ghost read: ChunkRead, buf: array<byte>, size: u32, count: nat, pblock0: seq<byte>)
    returns (brk: byte, pblock: seq<byte>, ghost chunks: seq<Chunk>)
    requires IsEdidRead(c.oracle, read)
    requires size as nat <= buf.Length && |pblock0| == MAX_DPCD_BUFFER_SIZE
    modifies c, buf
    ensures Pass(c.State(), brk, pblock, chunks) == DirectPass(read, old(c.State()), count, size as nat, 0, pblock0, [])
    ensures |pblock| == MAX_DPCD_BUFFER_SIZE
    ensures buf[..] == Apply(old(buf[..]), chunks)
  {
    chunks := [];
    pblock := pblock0;
    brk := 0;
    var i: byte := 0;
    while i < 8
      invariant i as nat == |chunks| <= 8 && |pblock| == MAX_DPCD_BUFFER_SIZE
      invariant DirectPass(read, c.State(), count, size as nat, i as nat, pblock, chunks)
                == DirectPass(read, old(c.State()), count, size as nat, 0, pblock0, [])
      invariant buf[..] == Apply(old(buf[..]), chunks)
    {
      DirectPassStep(read, c.State(), count, size as nat, i as nat, pblock, chunks);
      ghost var ch;
      brk, pblock, ch := DirectRead(c, read, buf, size, count, i, pblock);
      ApplySnoc(old(buf[..]), chunks, ch);
      chunks := chunks + [ch];
      if brk == 1 {
        return;
      }
      i := i + 1;
    }
    brk := 0;
  }

  /**
   * Cases 2 and 3 of sp_tx_edid_read on the chip, copying into `buf`; the
   * ghost `read` names segments_edid_read through segment pointer count / 2.
   */
  method SegmentGroup(c: Chip, ghost read: ChunkRead, buf: array<byte>, size: u32, count: nat, brk: byte, pblock0: seq<byte>)
    returns (pblock: seq<byte>, ghost chunks: seq<Chunk>)
    requires IsSegmentRead(c.oracle, LowByte(count / 2), read)
    requires size as nat <= buf.Length && |pblock0| == MAX_DPCD_BUFFER_SIZE
    modifies c, buf
    ensures Pass(c.State(), brk, pblock, chunks)
            == SegmentPass(read, old(c.State()), count, size as nat, brk, 0, if count == 2 then 0x00 else 0x80, pblock0, [])
    ensures |pblock| == MAX_DPCD_BUFFER_SIZE
    ensures buf[..] == Apply(old(buf[..]), chunks)
  {
    chunks := [];
    pblock := pblock0;
    var offset: byte := if count == 2 then 0x00 else 0x80;
    var i: byte := 0;
    while i < 8
      invariant i as nat == |chunks| <= 8 && |pblock| == MAX_DPCD_BUFFER_SIZE
      invariant SegmentPass(read, c.State(), count, size as nat, brk, i as nat, offset, pblock, chunks)
                == SegmentPass(read, old(c.State()), count, size as nat, brk, 0, if count == 2 then 0x00 else 0x80, pblock0, [])
      invariant buf[..] == Apply(old(buf[..]), chunks)
    {
      if brk == 1 {
        break;
      }
      SegmentPassStep(read, c.State(), count, size as nat, brk, i as nat, offset, pblock, chunks);
      ghost var ch;
      pblock, ch := SegmentRead(c, read, buf, size, count, i, offset, pblock);
      ApplySnoc(old(buf[..]), chunks, ch);
      chunks := chunks + [ch];
      offset := LowByte(offset as nat + 0x10);
      i := i + 1;
    }
  }

  /** One pass of the do-while on the chip. */
  method RunGroup(c: Chip, ghost direct: ChunkRead, ghost segmented: byte -> ChunkRead, buf: array<byte>, size: u32,
                  count: nat, brk0: byte, pblock0: seq<byte>)
    returns (brk: byte, pblock: seq<byte>, ghost chunks: seq<Chunk>)
    requires IsEdidRead(c.oracle, direct) && IsSegmentReads(c.oracle, segmented)
    requires size as nat <= buf.Length && |pblock0| == MAX_DPCD_BUFFER_SIZE
    modifies c, buf
    ensures Pass(c.State(), brk, pblock, chunks) == GroupPass(direct, segmented, old(c.State()), count, size as nat, brk0, pblock0)
    ensures |pblock| == MAX_DPCD_BUFFER_SIZE
    ensures buf[..] == Apply(old(buf[..]), chunks)
  {
    if count < 2 {
      brk, pblock, chunks := DirectGroup(c, direct, buf, size, count, pblock0);
    } else {
      brk := brk0;
      pblock, chunks := SegmentGroup(c, segmented(LowByte(count / 2)), buf, size, count, brk, pblock0);
    }
  }

  /** The do-while of sp_tx_edid_read on the chip: groups 0 through `blocksNum`. */
  method RunGroups(c: Chip, ghost direct: ChunkRead, ghost segmented: byte -> ChunkRead, buf: array<byte>, size: u32,
                   blocksNum: nat, pblock0: seq<byte>)
    returns (ghost groups: seq<seq<Chunk>>)
    requires IsEdidRead(c.oracle, direct) && IsSegmentReads(c.oracle, segmented)
    requires size as nat <= buf.Length && |pblock0| == MAX_DPCD_BUFFER_SIZE
    modifies c, buf
    ensures Run(c.State(), groups) == RunFrom(direct, segmented, old(c.State()), 0, blocksNum, size as nat, 0, pblock0, [])
    ensures buf[..] == Apply(old(buf[..]), Flatten(groups))
  {
    groups := [];
    assert Flatten(groups) == [];
    var pblock := pblock0;
    var brk: byte := 0;
    // The body runs first with count 0, and 0 <= blocksNum.
    var count := 0;
    while count <= blocksNum
      invariant count <= blocksNum + 1 && |groups| == count && |pblock| == MAX_DPCD_BUFFER_SIZE
      invariant RunFrom(direct, segmented, c.State(), count, blocksNum, size as nat, brk, pblock, groups)
                == RunFrom(direct, segmented, old(c.State()), 0, blocksNum, size as nat, 0, pblock0, [])
      invariant buf[..] == Apply(old(buf[..]), Flatten(groups))
    {
      ghost var chunks;
      brk, pblock, chunks := RunGroup(c, direct, segmented, buf, size, count, brk, pblock);
      FlattenSnoc(groups, chunks);
      ApplyConcat(old(buf[..]), Flatten(groups), chunks);
      groups := groups + [chunks];
      count := count + 1;
    }
  }

  /** The "address initial" writes on the chip. */
  method AddressInit(c: Chip) returns (ret: i32)
    modifies c
    ensures Outcome(c.State(), ret) == AddressInitEffect(c.oracle, old(c.State()))
  {
    ret := c.RegWrite(RX_P0_ADDR, AP_AUX_ADDR_7_0, 0x50);
    var r := c.RegWrite(RX_P0_ADDR, AP_AUX_ADDR_15_8, 0);
    ret := Or32(ret, r);
    r := c.WriteAnd(RX_P0_ADDR, AP_AUX_ADDR_19_16, 0xF0);
    ret := Or32(ret, r);
  }

  /** sp_tx_edid_read on the chip, assembling the EDID in `buf`. */
  method SpTxEdidRead(c: Chip, buf: array<byte>, size: u32) returns (ret: i32, ghost groups: seq<seq<Chunk>>)
    requires MAX_DPCD_BUFFER_SIZE <= size as nat <= buf.Length
    modifies c, buf
    ensures EdidOutcome(c.State(), ret, groups) == SpTxEdidReadEffect(c.oracle, old(c.State()), size as nat)
    ensures buf[..] == Apply(old(buf[..]), Flatten(groups))
  {
    // whatever the uninitialised pblock_buf holds
    var pblock := Uninitialised(c.oracle, |c.trace|, MAX_DPCD_BUFFER_SIZE);
    groups := [];
    assert Flatten(groups) == [];
    ret := AddressInit(c);
    if ret < 0 {
      ret := -1;
      return;
    }
    var blocksNum := GetEdidBlock(c);
    if blocksNum < 0 {
      return blocksNum, groups;
    }
    EdidReadsAre(c.oracle);
    groups := RunGroups(c, EdidReads(c.oracle), SegmentReads(c.oracle), buf, size, blocksNum as nat, pblock);
    var _ := RstAux(c);
    ret := blocksNum;
  }

  /**
   * anx7625_dp_get_edid: read the EDID into a 512-byte local buffer, whose
   * initial contents are whatever `stack` says, and hand the first
   * (blocks + 1) * 128 bytes to decode_edid, which is not part of this model
   * and is given as `conformant`.  The result is 0 exactly when the read
   * succeeded and the decoder accepted those bytes, which are the chunks
   * the chip delivered pasted over `stack`; the bytes from 256 on are never
   * read from the sink.
   */
  method DpGetEdid(c: Chip, stack: seq<byte>, conformant: seq<byte> -> bool) returns (ret: i32, ghost edid: seq<byte>)
    requires |stack| == FOUR_BLOCK_SIZE
    modifies c
    ensures var e := SpTxEdidReadEffect(c.oracle, old(c.State()), FOUR_BLOCK_SIZE);
      && c.State() == e.bus
      && edid == Apply(stack, Flatten(e.groups))
      && (ret == 0 || ret == -1)
      && (ret == 0 <==> e.ret >= 0 && conformant(edid[..(e.ret as nat + 1) * ONE_BLOCK_SIZE]))
      && edid[0x100..] == stack[0x100..]
  {
    var buf := new byte[FOUR_BLOCK_SIZE](i requires 0 <= i < FOUR_BLOCK_SIZE => stack[i]);
    assert buf[..] == stack;
    ghost var e := SpTxEdidReadEffect(c.oracle, c.State(), FOUR_BLOCK_SIZE);
    SpTxEdidReadSpec(c.oracle, c.State(), FOUR_BLOCK_SIZE);
    SpTxEdidReadOutside(c.oracle, c.State(), FOUR_BLOCK_SIZE, stack);
    var blockNum;
    ghost var groups;
    blockNum, groups := SpTxEdidRead(c, buf, FOUR_BLOCK_SIZE as u32);
    edid := buf[..];
    if blockNum < 0 {
      return -1, edid;
    }
    if !conformant(buf[..(blockNum as nat + 1) * ONE_BLOCK_SIZE]) {
      return -1, edid;
    }
    ret := 0;
  }
}
