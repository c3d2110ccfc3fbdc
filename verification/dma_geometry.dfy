/** Which pages a run of frames touches, which pages are synced for it, and how the device's 4 KiB
    scatter-gather entries and the kernel's pages address the same bytes. */
module DmaGeometry {
  import opened Indices

  const DEVICE_PAGE := 0x1000
  const SG_ENTRIES := 1024
  const RING_BYTES := 0x40_0000

  /** A kernel page is a whole number of device pages and divides the ring. */
  predicate PageSize(page: nat) {
    page > 0 && page % DEVICE_PAGE == 0 && RING_BYTES % page == 0
  }

  /** Byte b is in page p. */
  predicate In(b: nat, p: nat, page: nat)
    requires page > 0
  {
    p * page <= b < p * page + page
  }

  lemma InIsQuotient(b: nat, p: nat, page: nat)
    requires page > 0
    ensures In(b, p, page) <==> b / page == p
  {
    if In(b, p, page) { RemainderIsUnique(b, page, p, b - p * page); }
    assert b == b / page * page + b % page;
  }

  // ---------- syncing ----------

  /** Byte b of the ring is in frame i of the run. */
  predicate Touches(b: nat, start: nat, i: nat, size: nat, frames: nat)
    requires frames > 0
  {
    (start + i) % frames * size <= b < (start + i) % frames * size + size
  }

  /** Page p holds a byte of [off, off + len). */
  ghost predicate Holds(off: nat, len: nat, p: nat, page: nat)
    requires page > 0
  {
    exists b: nat :: off <= b < off + len && In(b, p, page)
  }

  /** ua_dma_ring_sync(): the pages handed over for [off, off + len). */
  method SyncRange(off: nat, len: nat, pages: nat, page: nat) returns (synced: set<nat>)
    requires page > 0
    ensures forall p :: p in synced ==> p < pages
    ensures off + len <= pages * page ==> forall p: nat :: p in synced <==> Holds(off, len, p, page)
  {
    hide Holds;
    synced := {};
    if len == 0 || pages == 0 {
      NothingHeld(off, len, pages, page);
      return;
    }
    var first, last := off / page, (off + len - 1) / page;
    if last >= pages { last := pages - 1; }
    synced := PagesBetween(first, last);
    if off + len <= pages * page { RangePages(off, len, pages, page, synced); }
  }

  lemma NothingHeld(off: nat, len: nat, pages: nat, page: nat)
    requires page > 0 && (len == 0 || pages == 0)
    ensures off + len <= pages * page ==> forall p: nat :: !Holds(off, len, p, page)
  {
  }

  method PagesBetween(first: nat, last: nat) returns (synced: set<nat>)
    ensures forall q: nat :: q in synced <==> first <= q <= last
  {
    synced := {};
    var p := first;
    while p <= last
      invariant first <= p && (p <= last + 1 || p == first)
      invariant forall q: nat :: q in synced <==> first <= q < p
      decreases last + 1 - p
    {
      synced := synced + {p};
      p := p + 1;
    }
  }

  lemma RangePages(off: nat, len: nat, pages: nat, page: nat, synced: set<nat>)
    requires page > 0 && len > 0 && off + len <= pages * page
    requires var last := (off + len - 1) / page;
             forall q: nat :: q in synced <==> off / page <= q <= (if last >= pages then pages - 1 else last)
    ensures forall p: nat :: p in synced <==> Holds(off, len, p, page)
  {
    LastPage(off + len - 1, pages, page);
    forall q: nat ensures q in synced <==> Holds(off, len, q, page) { PagesOfRange(off, len, q, page); }
  }

  lemma LastPage(b: nat, pages: nat, page: nat)
    requires page > 0 && b < pages * page
    ensures b / page < pages
  {
  }

  /** Multiples of n below b * n leave room for one more n. */
  lemma NextMultiple(a: nat, b: nat, n: nat)
    requires a < b
    ensures a * n + n <= b * n
  {
    MulMonotone(a + 1, b, n);
    assert (a + 1) * n == a * n + n;
  }

  /** A page holds a byte of the range exactly when it lies between the range's end pages. */
  lemma PagesOfRange(off: nat, len: nat, p: nat, page: nat)
    requires page > 0 && len > 0
    ensures off / page <= p <= (off + len - 1) / page <==> Holds(off, len, p, page)
  {
    var first, last := off / page, (off + len - 1) / page;
    InIsQuotient(off, first, page);
    InIsQuotient(off + len - 1, last, page);
    if first <= p <= last {
      var b := if p == first then off else p * page;
      if p > first { NextMultiple(first, p, page); }
      MulMonotone(p, last, page);
      assert In(b, p, page);
    }
    if b: nat :| off <= b < off + len && In(b, p, page) {
      if p < first { NextMultiple(p, first, page); }
      if p > last { NextMultiple(last, p, page); }
    }
  }

  /** Page p holds a byte of one of the frames of the run. */
  ghost predicate HoldsFrame(start: nat, count: nat, size: nat, frames: nat, p: nat, page: nat)
    requires page > 0 && frames > 0
  {
    exists i: nat, b: nat :: i < count && Touches(b, start, i, size, frames) && In(b, p, page)
  }

  /** ua_dma_ring_sync_frames(): the pages synced are exactly those the run touches, wrap and all. */
  method SyncFrames(start: nat, count: nat, size: nat, frames: nat, pages: nat, page: nat) returns (synced: set<nat>)
    requires page > 0
    ensures forall p :: p in synced ==> p < pages
    ensures frames > 0 && size > 0 && frames * size <= pages * page ==>
              forall p: nat :: p in synced <==> HoldsFrame(start, count, size, frames, p, page)
  {
    hide Holds, HoldsFrame;
    synced := {};
    if count == 0 || frames == 0 {
      if frames > 0 { NoFrames(start, size, frames, page); }
      return;
    }
    var run := if count > frames then frames else count;
    var ring, off, len := frames * size, start % frames * size, run * size;
    NextMultiple(start % frames, frames, size);
    MulMonotone(run, frames, size);
    if off + len <= ring {
      synced := SyncRange(off, len, pages, page);
    } else {
      var head := SyncRange(off, ring - off, pages, page);
      var tail := SyncRange(0, off + len - ring, pages, page);
      synced := head + tail;
    }
    if size > 0 && ring <= pages * page {
      forall p: nat ensures p in synced <==> HoldsFrame(start, count, size, frames, p, page) {
        TouchedPages(start, count, size, frames, p, page);
      }
    }
  }

  lemma NoFrames(start: nat, size: nat, frames: nat, page: nat)
    requires page > 0 && frames > 0
    ensures forall p: nat :: !HoldsFrame(start, 0, size, frames, p, page)
  {
  }

  predicate InSegments(b: nat, off: nat, len: nat, ring: nat) {
    if off + len <= ring then off <= b < off + len else off <= b < ring || b < off + len - ring
  }

  lemma TouchedPages(start: nat, count: nat, size: nat, frames: nat, p: nat, page: nat)
    requires page > 0 && frames > 0 && size > 0 && count > 0
    ensures var run := if count > frames then frames else count;
            var off, len, ring := start % frames * size, run * size, frames * size;
            off <= ring &&
            (HoldsFrame(start, count, size, frames, p, page) <==>
              if off + len <= ring then Holds(off, len, p, page)
              else Holds(off, ring - off, p, page) || Holds(0, off + len - ring, p, page))
  {
    var run := if count > frames then frames else count;
    var off, len, ring := start % frames * size, run * size, frames * size;
    NextMultiple(start % frames, frames, size);
    if b: nat :| InSegments(b, off, len, ring) && In(b, p, page) {
      var i := TouchingFrame(start, run, size, frames, b);
      assert i < count && Touches(b, start, i, size, frames);
    }
    if i: nat, b: nat :| i < count && Touches(b, start, i, size, frames) && In(b, p, page) {
      SameFrame(start, i, frames);
      if count <= frames { SmallRemainder(i, frames); }
      FrameInSegments(start, run, size, frames, i % frames, b);
      assert InSegments(b, off, len, ring) && In(b, p, page);
    }
    SegmentsHold(off, len, ring, p, page);
  }

  lemma SegmentsHold(off: nat, len: nat, ring: nat, p: nat, page: nat)
    requires page > 0 && off <= ring
    ensures (exists b: nat :: InSegments(b, off, len, ring) && In(b, p, page)) <==>
              if off + len <= ring then Holds(off, len, p, page)
              else Holds(off, ring - off, p, page) || Holds(0, off + len - ring, p, page)
  {
  }

  lemma SameFrame(start: nat, i: nat, frames: nat)
    requires frames > 0
    ensures (start + i % frames) % frames == (start + i) % frames
  {
    assert i == i / frames * frames + i % frames;
    RemainderShift(start + i % frames, i / frames, frames);
  }

  /** Where frame i of a run of at most one ring lies: behind the start, or wrapped to the front. */
  lemma FramePlace(start: nat, i: nat, frames: nat)
    requires frames > 0 && i < frames
    ensures var s := start % frames; (start + i) % frames == if s + i < frames then s + i else s + i - frames
  {
    var s, q := start % frames, start / frames;
    assert start == q * frames + s;
    RemainderShift(s + i, q, frames);
    if s + i < frames {
      SmallRemainder(s + i, frames);
    } else {
      RemainderShift(s + i - frames, 1, frames);
      SmallRemainder(s + i - frames, frames);
    }
  }

  /** The frame of a run that lies at f, when the run starts at s. */
  lemma FrameAt(start: nat, s: nat, f: nat, run: nat, frames: nat) returns (i: nat)
    requires frames > 0 && s == start % frames && run <= frames
    requires (s <= f < frames && f < s + run) || (f < s && f + frames < s + run)
    ensures i < run && (start + i) % frames == f
  {
    i := if s <= f then f - s else f + frames - s;
    FramePlace(start, i, frames);
  }

  lemma TouchingFrame(start: nat, run: nat, size: nat, frames: nat, b: nat) returns (i: nat)
    requires frames > 0 && size > 0 && run <= frames
    requires InSegments(b, start % frames * size, run * size, frames * size)
    ensures i < run && Touches(b, start, i, size, frames)
  {
    hide InSegments, Touches;
    var s := start % frames;
    if s * size <= b {
      SegmentAhead(s, run, size, frames, b);
    } else {
      SegmentBehind(s, run, size, frames, b);
    }
    i := FrameAt(start, s, b / size, run, frames);
    FrameTouches(start, i, size, frames, b);
  }

  lemma FrameTouches(start: nat, i: nat, size: nat, frames: nat, b: nat)
    requires frames > 0 && size > 0 && (start + i) % frames == b / size
    ensures Touches(b, start, i, size, frames)
  {
  }

  lemma SegmentBehind(s: nat, run: nat, size: nat, frames: nat, b: nat)
    requires size > 0 && s < frames && run <= frames && b < s * size
    requires InSegments(b, s * size, run * size, frames * size)
    ensures b / size < s && b / size + frames < s + run
  {
  }

  lemma SegmentAhead(s: nat, run: nat, size: nat, frames: nat, b: nat)
    requires size > 0 && s < frames && run <= frames && s * size <= b
    requires InSegments(b, s * size, run * size, frames * size)
    ensures s <= b / size < frames && b / size < s + run
  {
    MulMonotone(run, frames, size);
    BehindStart(s, run, size, frames, b);
  }

  lemma BehindStart(s: nat, run: nat, size: nat, frames: nat, b: nat)
    requires size > 0 && s < frames && run <= frames && s * size <= b < frames * size && b < s * size + run * size
    ensures s <= b / size < frames && b / size < s + run
  {
    var f := b / size;
    InIsQuotient(b, f, size);
    if f < s { NextMultiple(f, s, size); }
    if f >= frames { MulMonotone(frames, f, size); }
    Sums(s, run, s, run, size);
    if f >= s + run { MulMonotone(s + run, f, size); }
  }

  lemma Sums(a: nat, b: nat, c: nat, d: nat, n: nat)
    ensures (a + b) * n == a * n + b * n && (c + d) * n == c * n + d * n
  {
  }

  lemma FrameInSegments(start: nat, run: nat, size: nat, frames: nat, i: nat, b: nat)
    requires frames > 0 && size > 0 && run <= frames && i < run && Touches(b, start, i, size, frames)
    ensures InSegments(b, start % frames * size, run * size, frames * size)
  {
    var s := start % frames;
    FramePlace(start, i, frames);
    Sums(s, run, s, i, size);
    NextMultiple(i, run, size);
    if s + i < frames {
      NextMultiple(s + i, frames, size);
    } else {
      assert (s + i - frames) * size == (s + i) * size - frames * size;
      MulMonotone(frames, s + i, size);
    }
  }

  // ---------- scatter-gather ----------

  /** Entry i: device page i of the ring, somewhere inside a kernel page. */
  function SgEntry(kernel: seq<nat>, page: nat, i: nat): nat
    requires PageSize(page) && |kernel| == RING_BYTES / page && i < SG_ENTRIES
  {
    SameByte(i * DEVICE_PAGE, page);
    kernel[i / (page / DEVICE_PAGE)] + i % (page / DEVICE_PAGE) * DEVICE_PAGE
  }

  /** The table loop of ua_audio_program_sg() for one direction. */
  method ProgramSg(kernel: seq<nat>, page: nat, sg: array<nat>)
    requires PageSize(page) && |kernel| == RING_BYTES / page && sg.Length == SG_ENTRIES
    modifies sg
    ensures forall i :: 0 <= i < SG_ENTRIES ==> sg[i] == SgEntry(kernel, page, i)
  {
    var sub := page / DEVICE_PAGE;
    var i := 0;
    while i < SG_ENTRIES
      invariant 0 <= i <= SG_ENTRIES
      invariant forall j :: 0 <= j < i ==> sg[j] == SgEntry(kernel, page, j)
    {
      SameByte(i * DEVICE_PAGE, page);
      sg[i] := kernel[i / sub] + i % sub * DEVICE_PAGE;
      i := i + 1;
    }
  }

  /** Through the table the device addresses byte b where the kernel's page holds it. */
  lemma SameAddress(kernel: seq<nat>, page: nat, b: nat)
    requires PageSize(page) && |kernel| == RING_BYTES / page && b < RING_BYTES
    ensures b / DEVICE_PAGE < SG_ENTRIES && b / page < |kernel|
    ensures SgEntry(kernel, page, b / DEVICE_PAGE) + b % DEVICE_PAGE == kernel[b / page] + b % page
  {
    SameByte(b, page);
  }

  /** Device page and kernel page of a byte, and its offsets in them. */
  lemma SameByte(b: nat, page: nat)
    requires PageSize(page) && b < RING_BYTES
    ensures var sub := page / DEVICE_PAGE;
            && sub > 0 && b / DEVICE_PAGE < SG_ENTRIES && b / page < RING_BYTES / page
            && b / DEVICE_PAGE / sub == b / page
            && b / DEVICE_PAGE % sub * DEVICE_PAGE + b % DEVICE_PAGE == b % page
  {
    var sub, i := page / DEVICE_PAGE, b / DEVICE_PAGE;
    assert page == sub * DEVICE_PAGE && sub > 0;
    var q, r := i / sub, i % sub;
    assert b == i * DEVICE_PAGE + b % DEVICE_PAGE && i == q * sub + r;
    assert (q * sub) * DEVICE_PAGE == q * page;
    MulMonotone(r + 1, sub, DEVICE_PAGE);
    RemainderIsUnique(b, page, q, r * DEVICE_PAGE + b % DEVICE_PAGE);
    var n := RING_BYTES / page;
    assert RING_BYTES == n * page;
    LastPage(b, n, page);
  }
}
