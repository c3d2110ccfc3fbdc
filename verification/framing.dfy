/** How a payload becomes a header and DMA references: block sends, whole-image loads, and the
    check of a firmware blob before any of it is sent. */
module Framing {
  import opened Indices
  import opened RingModel

  const PAGE := 0x1000
  const FW_LARGE_THRESHOLD := 0x3FFFC
  const FW_MAX_SIZE := 4 * 1024 * 1024
  const FW_REF_MAX := 0xFFFF
  const RING_ENTRIES := 1024
  const LARGE_FLAG := 0x4000_0000

  /** sendblock_chunk: 2048 and 4096 are taken as given, anything else means 1024. */
  function SendblockChunk(param: nat): (chunk: nat)
    ensures IsChunk(chunk)
  {
    if param == 2048 || param == 4096 then param else 1024
  }

  predicate IsChunk(chunk: nat) {
    chunk == 1024 || chunk == 2048 || chunk == 4096
  }

  function DivRoundUp(a: nat, b: nat): nat
    requires b > 0
  {
    (a + b - 1) / b
  }

  function Min(a: nat, b: nat): nat {
    if a < b then a else b
  }

  // ---------- references ----------

  /** References to `left` dwords of a buffer from dword `done` on, at most `max` dwords each:
      the loop of a block send (max = chunk / 4) and of a firmware load (max = 0xFFFF). */
  function Refs(buf: nat, done: nat, left: nat, max: nat): seq<Entry>
    requires max > 0
    decreases left
  {
    if left == 0 then []
    else var n := Min(left, max); [DmaRef(n, buf, 4 * done)] + Refs(buf, done + n, left - n, max)
  }

  /** Contents of coherent buffers, by number, in dwords. */
  type Memory = map<nat, seq<nat>>

  predicate InBuffer(e: Entry, mem: Memory) {
    e.DmaRef? && e.buf in mem && e.at % 4 == 0 && e.at / 4 + e.dwords <= |mem[e.buf]|
  }

  /** The words a device reads through a list of references. */
  ghost function ReadAll(es: seq<Entry>, mem: Memory): seq<nat>
    requires forall e <- es :: InBuffer(e, mem)
  {
    if es == [] then []
    else
      assert InBuffer(es[0], mem);
      mem[es[0].buf][es[0].at / 4..es[0].at / 4 + es[0].dwords] + ReadAll(es[1..], mem)
  }

  predicate GoodRef(e: Entry, buf: nat, max: nat, mem: Memory) {
    InBuffer(e, mem) && e.buf == buf && 0 < e.dwords <= max
  }

  ghost predicate GoodRefs(es: seq<Entry>, buf: nat, max: nat, mem: Memory) {
    forall e <- es :: GoodRef(e, buf, max, mem)
  }

  /** References read back exactly the words they cover, and none is above the limit. */
  lemma {:induction false} RefsCarryWords(buf: nat, done: nat, left: nat, max: nat, mem: Memory)
    requires buf in mem && |mem[buf]| == done + left && max > 0
    ensures GoodRefs(Refs(buf, done, left, max), buf, max, mem)
    ensures ReadAll(Refs(buf, done, left, max), mem) == mem[buf][done..]
    decreases left
  {
    if left > 0 {
      var n := Min(left, max);
      RefsCarryWords(buf, done + n, left - n, max, mem);
      ReadFirst(DmaRef(n, buf, 4 * done), Refs(buf, done + n, left - n, max), mem);
      assert mem[buf][done..] == mem[buf][done..done + n] + mem[buf][done + n..];
      assert Refs(buf, done, left, max) == [DmaRef(n, buf, 4 * done)] + Refs(buf, done + n, left - n, max);
    }
  }

  lemma ReadFirst(e: Entry, rest: seq<Entry>, mem: Memory)
    requires InBuffer(e, mem) && forall x <- rest :: InBuffer(x, mem)
    ensures forall x <- [e] + rest :: InBuffer(x, mem)
    ensures ReadAll([e] + rest, mem) == mem[e.buf][e.at / 4..e.at / 4 + e.dwords] + ReadAll(rest, mem)
  {
    assert ([e] + rest)[1..] == rest;
  }

  lemma {:induction false} RefsCount(buf: nat, done: nat, left: nat, max: nat)
    requires max > 0
    ensures |Refs(buf, done, left, max)| == DivRoundUp(left, max)
    decreases left
  {
    if left == 0 {
      RemainderIsUnique(max - 1, max, 0, max - 1);
    } else {
      ChunkCount(left, max);
      RefsCount(buf, done + Min(left, max), left - Min(left, max), max);
    }
  }

  lemma ChunkCount(a: nat, chunk: nat)
    requires a > 0 && chunk > 0
    ensures DivRoundUp(a, chunk) == 1 + DivRoundUp(a - Min(a, chunk), chunk)
  {
    if a <= chunk {
      RemainderIsUnique(a + chunk - 1, chunk, 1, a - 1);
      RemainderIsUnique(chunk - 1, chunk, 0, chunk - 1);
    } else {
      RemainderIsUnique(a - 1 + chunk, chunk, (a - 1) / chunk + 1, (a - 1) % chunk);
    }
  }

  /** A reference that does not straddle a 4 KiB bus page of its page-aligned buffer. */
  predicate InOnePage(e: Entry) {
    e.DmaRef? && e.dwords > 0 && e.at / PAGE == (e.at + 4 * e.dwords - 1) / PAGE
  }

  predicate Aligned(x: nat, chunk: nat)
    requires IsChunk(chunk)
  {
    if chunk == 1024 then x % 1024 == 0 else if chunk == 2048 then x % 2048 == 0 else x % 4096 == 0
  }

  /** No data reference of a block crosses a page, for every chunk size the module accepts. */
  lemma {:induction false} DataRefsStayInPages(buf: nat, done: nat, left: nat, chunk: nat)
    requires IsChunk(chunk) && Aligned(4 * done, chunk)
    ensures forall e <- Refs(buf, done, left, chunk / 4) :: InOnePage(e)
    decreases left
  {
    if left > 0 {
      var n := Min(left, chunk / 4);
      AlignedPage(4 * done, 4 * n, chunk);
      AlignedNext(4 * done, chunk);
      if n < left { DataRefsStayInPages(buf, done + n, left - n, chunk); }
      forall e <- Refs(buf, done, left, chunk / 4) ensures InOnePage(e) {
        if e != DmaRef(n, buf, 4 * done) { assert e in Refs(buf, done + n, left - n, chunk / 4); }
      }
    }
  }

  lemma AlignedPage(offset: nat, n: nat, chunk: nat)
    requires IsChunk(chunk) && Aligned(offset, chunk) && 0 < n <= chunk
    ensures offset / PAGE == (offset + n - 1) / PAGE
  {
    var q, r := offset / PAGE, offset % PAGE;
    assert offset == q * PAGE + r && r + chunk <= PAGE;
  }

  lemma AlignedNext(offset: nat, chunk: nat)
    requires IsChunk(chunk) && Aligned(offset, chunk)
    ensures Aligned(offset + chunk, chunk)
  {
  }

  /** A block's data references number what the send reserves beside its header slot, and an
      image of the largest accepted size, header included, fits 17 slots. */
  lemma ReservedSlotsSuffice(buf: nat, size: nat, chunk: nat, imageDwords: nat)
    requires IsChunk(chunk) && size % 4 == 0 && imageDwords <= FW_MAX_SIZE / 4 + 2
    ensures |Refs(buf, 0, size / 4, chunk / 4)| == DivRoundUp(size, chunk)
    ensures |Refs(buf, 0, imageDwords, FW_REF_MAX)| <= 17
  {
    RefsCount(buf, 0, size / 4, chunk / 4);
    RefsCount(buf, 0, imageDwords, FW_REF_MAX);
    WordsPerChunk(size / 4, chunk / 4);
    assert 4 * (size / 4) == size && 4 * (chunk / 4) == chunk;
  }

  lemma WordsPerChunk(words: nat, max: nat)
    requires max > 0
    ensures DivRoundUp(words, max) == DivRoundUp(4 * words, 4 * max)
  {
    var q, r := (words + max - 1) / max, (words + max - 1) % max;
    assert words + max - 1 == q * max + r;
    assert 4 * (q * max) == q * (4 * max);
    RemainderIsUnique(4 * words + 4 * max - 1, 4 * max, q, 4 * r + 3);
  }

  // ---------- header ----------

  /** A command word that leaves the length field and the large flag free. */
  predicate PlainCommand(cmd: nat) {
    cmd % 0x1_0000 == 0 && cmd / LARGE_FLAG % 2 == 0
  }

  function Header(cmd: nat, size: nat): seq<nat> {
    if size < FW_LARGE_THRESHOLD then [BitOr(size / 4 + 1, cmd)]
    else [BitOr(LARGE_FLAG, cmd), size / 4 + 2]
  }

  predicate IsLarge(h: seq<nat>)
    requires |h| > 0
  {
    h[0] / LARGE_FLAG % 2 == 1
  }

  /** What a receiver can read off a header: how many payload dwords follow it. */
  function PayloadDwords(h: seq<nat>): int
    requires |h| > 0 && (IsLarge(h) ==> |h| > 1)
  {
    if IsLarge(h) then h[1] as int - 2 else h[0] as int % 0x1_0000 - 1
  }

  /** The receiver sees which form it is, and reads off the payload length. */
  predicate Recoverable(cmd: nat, size: nat) {
    var h := Header(cmd, size);
    (IsLarge(h) <==> size >= FW_LARGE_THRESHOLD) && (IsLarge(h) ==> |h| > 1) && PayloadDwords(h) == size / 4
  }

  predicate Accepted(size: nat) {
    size <= FW_MAX_SIZE && size % 4 == 0
  }

  /** The payload length is recoverable from either header form for every accepted size, if and only
      if the command word leaves the length field and the large flag free. */
  lemma HeaderRoundTrip(cmd: nat)
    ensures PlainCommand(cmd) <==> forall size: nat | Accepted(size) :: Recoverable(cmd, size)
  {
    hide Recoverable, PlainCommand;
    if PlainCommand(cmd) {
      forall size: nat | Accepted(size) ensures Recoverable(cmd, size) { HeaderFields(cmd, size); }
    } else {
      assert Accepted(0) && Accepted(4);
      if Recoverable(cmd, 0) && Recoverable(cmd, 4) { ShortestHeaders(cmd); }
    }
  }

  lemma ShortestHeaders(cmd: nat)
    requires Recoverable(cmd, 0) && Recoverable(cmd, 4)
    ensures PlainCommand(cmd)
  {
    hide BitOr, Header;
    OneAndTwo(cmd);
    LowBits(cmd);
  }

  lemma LowBits(cmd: nat)
    requires (2 * (cmd / 2) + 1) / LARGE_FLAG % 2 == 0 && (2 * (cmd / 2) + 1) % 0x1_0000 == 1
    requires (4 * (cmd / 4) + 2 + cmd % 2) % 0x1_0000 == 2
    ensures PlainCommand(cmd)
  {
    LowHalf(cmd);
    HighHalf(cmd);
  }

  lemma LowHalf(cmd: nat)
    requires (2 * (cmd / 2) + 1) % 0x1_0000 == 1 && (4 * (cmd / 4) + 2 + cmd % 2) % 0x1_0000 == 2
    ensures cmd % 0x1_0000 == 0
  {
    var a, l := cmd / 0x1_0000, cmd % 0x1_0000;
    assert cmd == a * 0x1_0000 + l;
    RemainderIsUnique(2 * (cmd / 2) + 1, 0x1_0000, a, 2 * (l / 2) + 1);
    RemainderIsUnique(4 * (cmd / 4) + 2 + cmd % 2, 0x1_0000, a, 4 * (l / 4) + 2 + l % 2);
  }

  lemma HighHalf(cmd: nat)
    requires cmd % 2 == 0
    ensures (2 * (cmd / 2) + 1) / LARGE_FLAG == cmd / LARGE_FLAG
  {
    var q, l := cmd / LARGE_FLAG, cmd % LARGE_FLAG;
    assert cmd == q * LARGE_FLAG + l;
    RemainderIsUnique(cmd + 1, LARGE_FLAG, q, l + 1);
  }

  /** The headers of an empty and of a one-dword payload. */
  lemma OneAndTwo(cmd: nat)
    ensures Header(cmd, 0) == [2 * (cmd / 2) + 1] && Header(cmd, 4) == [4 * (cmd / 4) + 2 + cmd % 2]
  {
    assert BitOr(1, cmd) == 2 * (cmd / 2) + 1;
    assert BitOr(1, cmd / 2) == 2 * (cmd / 4) + 1;
  }

  /** Beside the length, the command survives in the other bits. */
  lemma HeaderFields(cmd: nat, size: nat)
    requires Accepted(size) && PlainCommand(cmd)
    ensures Recoverable(cmd, size)
    ensures var h := Header(cmd, size);
            && |h| == (if size < FW_LARGE_THRESHOLD then 1 else 2)
            && h[0] - h[0] % 0x1_0000 == (if size < FW_LARGE_THRESHOLD then cmd else LARGE_FLAG + cmd)
  {
    hide BitOr;
    if size < FW_LARGE_THRESHOLD {
      LengthField(size / 4 + 1, cmd);
      SmallFields(size / 4 + 1, cmd);
    } else {
      FlagField(cmd);
      LargeFields(cmd);
    }
  }

  lemma SmallFields(n: nat, cmd: nat)
    requires n < 0x1_0000 && PlainCommand(cmd)
    ensures (n + cmd) % 0x1_0000 == n && (n + cmd) / LARGE_FLAG % 2 == 0
  {
    assert LARGE_FLAG == 0x4000 * 0x1_0000;
  }

  lemma LargeFields(cmd: nat)
    requires PlainCommand(cmd)
    ensures (LARGE_FLAG + cmd) % 0x1_0000 == 0 && (LARGE_FLAG + cmd) / LARGE_FLAG % 2 == 1
  {
    RemainderShift(cmd, 0x4000, 0x1_0000);
    RemainderIsUnique(LARGE_FLAG + cmd, LARGE_FLAG, 1 + cmd / LARGE_FLAG, cmd % LARGE_FLAG);
  }

  lemma LengthField(n: nat, cmd: nat)
    requires n < 0x1_0000 && PlainCommand(cmd)
    ensures BitOr(n, cmd) == n + cmd
  {
    assert IsPowerOfTwo(16);
    ProductOfPowers(16, 16);
    ProductOfPowers(256, 256);
    BitOrAdds(n, cmd, 0x1_0000);
  }

  lemma FlagField(cmd: nat)
    requires PlainCommand(cmd)
    ensures BitOr(LARGE_FLAG, cmd) == LARGE_FLAG + cmd
  {
    assert IsPowerOfTwo(16) && IsPowerOfTwo(64);
    ProductOfPowers(16, 64);
    ProductOfPowers(1024, 1024);
    ProductOfPowers(1024, 1024 * 1024);
    BitOrFreeBit(LARGE_FLAG, cmd);
  }

  // ---------- whole commands ----------

  const FW_CMD := 0x12_0000

  /** The command-ring entries of a block: a header reference, then the payload in chunks. */
  function BlockEntries(cmd: nat, size: nat, chunk: nat, hdr: nat, data: nat): seq<Entry>
    requires IsChunk(chunk)
  {
    [DmaRef(|Header(cmd, size)|, hdr, 0)] + Refs(data, 0, size / 4, chunk / 4)
  }

  /** Through a block's entries the device reads the header and then exactly the payload. */
  lemma BlockDelivers(cmd: nat, size: nat, chunk: nat, hdr: nat, data: nat, mem: Memory)
    requires IsChunk(chunk) && hdr in mem && data in mem
    requires mem[hdr] == Header(cmd, size) && |mem[data]| == size / 4
    ensures var es := BlockEntries(cmd, size, chunk, hdr, data);
            && (forall e <- es :: InBuffer(e, mem))
            && ReadAll(es, mem) == Header(cmd, size) + mem[data]
    ensures |BlockEntries(cmd, size, chunk, hdr, data)| == 1 + DivRoundUp(size / 4, chunk / 4)
  {
    hide BitOr, Refs, Header;
    var refs := Refs(data, 0, size / 4, chunk / 4);
    RefsCarryWords(data, 0, size / 4, chunk / 4, mem);
    RefsCount(data, 0, size / 4, chunk / 4);
    forall e <- refs ensures InBuffer(e, mem) { assert GoodRef(e, data, chunk / 4, mem); }
    ReadFirst(DmaRef(|Header(cmd, size)|, hdr, 0), refs, mem);
    assert mem[data][0..] == mem[data];
  }

  /** An image travels in one buffer, header first. */
  function ImageEntries(size: nat, buf: nat): seq<Entry> {
    Refs(buf, 0, |Header(FW_CMD, size)| + size / 4, FW_REF_MAX)
  }

  lemma ImageDelivers(size: nat, buf: nat, image: seq<nat>, mem: Memory)
    requires size % 4 == 0 && size <= FW_MAX_SIZE && |image| == size / 4
    requires buf in mem && mem[buf] == Header(FW_CMD, size) + image
    ensures GoodRefs(ImageEntries(size, buf), buf, FW_REF_MAX, mem)
    ensures ReadAll(ImageEntries(size, buf), mem) == Header(FW_CMD, size) + image
    ensures |ImageEntries(size, buf)| <= 17
  {
    hide BitOr, Refs;
    RefsCarryWords(buf, 0, |mem[buf]|, FW_REF_MAX, mem);
    RefsCount(buf, 0, |mem[buf]|, FW_REF_MAX);
    assert mem[buf][0..] == mem[buf];
  }

  // ---------- checking a blob before sending it ----------

  const MIXER_MAGIC := 0x5541464D
  const MIXER_VERSION := 1
  const MIXER_HDR_SIZE := 16
  const MIXER_ENTRY_SIZE := 12
  const MIXER_MAX_BLOCKS := 64

  type byte = b: int | 0 <= b < 256

  function Le32(data: seq<byte>, at: nat): nat
    requires at + 4 <= |data|
  {
    var b0: int, b1: int, b2: int, b3: int := data[at], data[at + 1], data[at + 2], data[at + 3];
    b0 + 0x100 * b1 + 0x1_0000 * b2 + 0x100_0000 * b3
  }

  function TableEnd(count: nat): nat {
    MIXER_HDR_SIZE + count * MIXER_ENTRY_SIZE
  }

  datatype Check = Blocks(count: nat) | Invalid | TooBig

  function BlockSize(data: seq<byte>, i: nat): nat
    requires MIXER_HDR_SIZE + (i + 1) * MIXER_ENTRY_SIZE <= |data|
  {
    Le32(data, MIXER_HDR_SIZE + i * MIXER_ENTRY_SIZE + 4)
  }

  function BlockOffset(data: seq<byte>, i: nat): nat
    requires MIXER_HDR_SIZE + (i + 1) * MIXER_ENTRY_SIZE <= |data|
  {
    Le32(data, MIXER_HDR_SIZE + i * MIXER_ENTRY_SIZE + 8)
  }

  /** What a block send demands of size and data before it queues anything. */
  predicate Sendable(size: nat, chunk: nat)
    requires IsChunk(chunk)
  {
    size % 4 == 0 && size <= FW_MAX_SIZE && 1 + DivRoundUp(size, chunk) < RING_ENTRIES
  }

  /** A block's payload, as the dwords a send is given. */
  function BlockWords(data: seq<byte>, i: nat): (words: seq<nat>)
    requires MIXER_HDR_SIZE + (i + 1) * MIXER_ENTRY_SIZE <= |data|
    requires BlockOffset(data, i) + BlockSize(data, i) <= |data|
    ensures |words| == BlockSize(data, i) / 4
  {
    var n, at := BlockSize(data, i) / 4, BlockOffset(data, i);
    seq(n, k requires 0 <= k < n => Le32(data, at + 4 * k))
  }

  predicate GoodBlock(data: seq<byte>, tableEnd: nat, i: nat, chunk: nat)
    requires TableEnd(i + 1) <= |data| && IsChunk(chunk)
  {
    && BlockOffset(data, i) + BlockSize(data, i) <= |data|
    && (BlockSize(data, i) > 0 ==> tableEnd <= BlockOffset(data, i))
    && Sendable(BlockSize(data, i), chunk)
  }

  /** Command-ring entries of block i when buffers are numbered from `base`, three to a block. */
  function TableBlock(data: seq<byte>, i: nat, chunk: nat, base: nat): seq<Entry>
    requires TableEnd(i + 1) <= |data| && IsChunk(chunk)
  {
    BlockEntries(FW_CMD, BlockSize(data, i), chunk, base + 3 * i, base + 3 * i + 1)
  }

  function TableEntries(data: seq<byte>, n: nat, chunk: nat, base: nat): seq<Entry>
    requires TableEnd(n) <= |data| && IsChunk(chunk)
  {
    if n == 0 then [] else TableEntries(data, n - 1, chunk, base) + TableBlock(data, n - 1, chunk, base)
  }

  predicate GoodHeader(data: seq<byte>) {
    && |data| >= MIXER_HDR_SIZE && Le32(data, 0) == MIXER_MAGIC && Le32(data, 4) == MIXER_VERSION
    && 1 <= Le32(data, 8) <= MIXER_MAX_BLOCKS && TableEnd(Le32(data, 8)) <= |data|
  }

  predicate GoodTable(data: seq<byte>, tableEnd: nat, count: nat, chunk: nat)
    requires TableEnd(count) <= |data| && IsChunk(chunk)
  {
    forall i :: 0 <= i < count ==> GoodBlock(data, tableEnd, i, chunk)
  }

  /** ua_dsp_mixer_fw_check(): accepts a blob exactly when every block can be sent, so no size,
      range or capacity check can fail after the first block has gone out. */
  method MixerFwCheck(data: seq<byte>, chunk: nat) returns (r: Check)
    requires IsChunk(chunk)
    ensures r.Blocks? <==> GoodHeader(data) && GoodTable(data, TableEnd(Le32(data, 8)), Le32(data, 8), chunk)
    ensures r.Blocks? ==> r.count == Le32(data, 8)
  {
    if |data| < MIXER_HDR_SIZE { return Invalid; }
    var count := Le32(data, 8);
    if Le32(data, 0) != MIXER_MAGIC || Le32(data, 4) != MIXER_VERSION { return Invalid; }
    if count == 0 || count > MIXER_MAX_BLOCKS { return Invalid; }
    var tableEnd := TableEnd(count);
    if |data| < tableEnd { return Invalid; }
    var i := 0;
    while i < count
      invariant 0 <= i <= count
      invariant GoodTable(data, tableEnd, i, chunk)
    {
      assert TableEnd(i + 1) <= tableEnd;
      var size, offset := BlockSize(data, i), BlockOffset(data, i);
      var bad := size > |data| || offset > |data| - size || (size > 0 && offset < tableEnd) || size % 4 != 0;
      var big := size > FW_MAX_SIZE || DivRoundUp(size, chunk) + 1 >= RING_ENTRIES;
      assert GoodBlock(data, tableEnd, i, chunk) <==> !bad && !big;
      if bad { return Invalid; }
      if big { return TooBig; }
      i := i + 1;
    }
    return Blocks(count);
  }
}
