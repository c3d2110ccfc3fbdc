/** From the firmware's slot descriptor and a route list to a channel map, and the frame copy that
    uses the map. */
module Layout {
  import opened Indices

  const MAX_CHANNELS := 64
  const NO_SLOT := 0xFF
  const SAMPLE_BYTES := 4
  const DMA_BUF_SIZE := 0x40_0000
  const MAX_BUF_FRAMES := 8192
  const DESC_VERSION := 1
  const DESC_LENGTH := 0x46

  // ---------- ring size ----------

  /** rounddown_pow_of_two() */
  function RoundDownPow2(x: nat): (p: nat)
    requires x > 0
    ensures IsPowerOfTwo(p) && p <= x < 2 * p
  {
    if x == 1 then 1 else 2 * RoundDownPow2(x / 2)
  }

  lemma PowersInOrder(p: nat, q: nat)
    requires IsPowerOfTwo(p) && IsPowerOfTwo(q) && q < 2 * p
    ensures q <= p
    decreases q
  {
  }

  /** ua_calc_buf_frame_size(), for channel counts whose quotient is not zero. */
  function BufFrames(play: nat, rec: nat): nat
    requires play <= DMA_BUF_SIZE / 8 && rec <= DMA_BUF_SIZE / 8
  {
    var most := if play > rec then play else rec;
    var channels := if most == 0 then 1 else most;
    FrameRoom(channels);
    var frames := RoundDownPow2(DMA_BUF_SIZE / (channels * SAMPLE_BYTES) / 2);
    if frames > MAX_BUF_FRAMES then MAX_BUF_FRAMES else frames
  }

  lemma FrameRoom(channels: nat)
    requires 1 <= channels <= DMA_BUF_SIZE / 8
    ensures DMA_BUF_SIZE / (channels * SAMPLE_BYTES) / 2 > 0
    ensures channels <= MAX_CHANNELS ==> DMA_BUF_SIZE / (channels * SAMPLE_BYTES) / 2 >= MAX_BUF_FRAMES
  {
    var d := channels * SAMPLE_BYTES;
    AtMostQuotient(DMA_BUF_SIZE, d, 2);
    if channels <= MAX_CHANNELS { AtMostQuotient(DMA_BUF_SIZE, d, 16384); }
  }

  lemma AtMostQuotient(a: nat, d: nat, q: nat)
    requires d > 0 && q * d <= a
    ensures a / d >= q
  {
    var r := a - q * d;
    assert a == (q + r / d) * d + r % d;
    RemainderIsUnique(a, d, q + r / d, r % d);
  }

  lemma MaxFramesIsPower()
    ensures IsPowerOfTwo(MAX_BUF_FRAMES)
  {
  }

  /** The ring is 8192 frames for up to 64 channels, always a power of two, and never more than
      half the DMA buffer. */
  lemma RingSize(play: nat, rec: nat)
    requires play <= DMA_BUF_SIZE / 8 && rec <= DMA_BUF_SIZE / 8
    ensures var f, most := BufFrames(play, rec), if play > rec then play else rec;
            && IsPowerOfTwo(f) && f <= MAX_BUF_FRAMES
            && (most <= MAX_CHANNELS ==> f == MAX_BUF_FRAMES)
            && f * (most * SAMPLE_BYTES) <= DMA_BUF_SIZE / 2
  {
    var most := if play > rec then play else rec;
    var channels := if most == 0 then 1 else most;
    FrameRoom(channels);
    MaxFramesIsPower();
    if channels <= MAX_CHANNELS {
      PowersInOrder(RoundDownPow2(DMA_BUF_SIZE / (channels * SAMPLE_BYTES) / 2), MAX_BUF_FRAMES);
    }
    HalfBuffer(BufFrames(play, rec), channels * SAMPLE_BYTES);
    MulMonotone(most * SAMPLE_BYTES, channels * SAMPLE_BYTES, BufFrames(play, rec));
  }

  lemma HalfBuffer(f: nat, d: nat)
    requires d > 0 && f <= DMA_BUF_SIZE / d / 2
    ensures f * d <= DMA_BUF_SIZE / 2
  {
  }

  // ---------- channel map ----------

  /** struct ua_io_desc once valid: one channel ID per hardware slot. */
  datatype Descriptor = Descriptor(ids: seq<nat>) {
    predicate Valid() { 1 <= |ids| <= MAX_CHANNELS }
  }

  /** Slot count of a header, or 0 when the header is not usable. */
  function HeaderCount(version: nat, length: nat, count: nat): (n: nat)
    ensures n > 0 <==> version == DESC_VERSION && length == DESC_LENGTH && 1 <= count <= MAX_CHANNELS
    ensures n > 0 ==> n == count && Descriptor(seq(n, _ => 0)).Valid()
  {
    if version != DESC_VERSION || length != DESC_LENGTH then 0
    else if count == 0 || count > MAX_CHANNELS then 0
    else count
  }

  /** ALSA channel i moves through frame slot slot[i]; ids[i] names it. */
  datatype ChanMap = ChanMap(slot: seq<nat>, ids: seq<nat>) {
    predicate Shaped() { |slot| == |ids| <= MAX_CHANNELS }
  }

  predicate NotBefore(ids: seq<nat>, id: nat, n: nat)
    requires n <= |ids|
  {
    forall k :: 0 <= k < n ==> ids[k] != id
  }

  /** First slot carrying the ID, or NO_SLOT. */
  function FindSlot(ids: seq<nat>, id: nat): (s: nat)
    requires |ids| <= MAX_CHANNELS
    ensures s != NO_SLOT ==> s < |ids| && ids[s] == id && NotBefore(ids, id, s)
    ensures s == NO_SLOT <==> id !in ids
  {
    FindFrom(ids, id, 0)
  }

  function FindFrom(ids: seq<nat>, id: nat, from: nat): (s: nat)
    requires from <= |ids| <= MAX_CHANNELS && NotBefore(ids, id, from)
    ensures s != NO_SLOT ==> s < |ids| && ids[s] == id && NotBefore(ids, id, s)
    ensures s == NO_SLOT <==> id !in ids
    decreases |ids| - from
  {
    if from == |ids| then NO_SLOT else if ids[from] == id then from else FindFrom(ids, id, from + 1)
  }

  /** ua_io_desc_find() */
  method DescFind(d: Descriptor, id: nat) returns (slot: nat)
    requires d.Valid()
    ensures slot == FindSlot(d.ids, id)
  {
    var i := 0;
    while i < |d.ids|
      invariant 0 <= i <= |d.ids| && NotBefore(d.ids, id, i)
    {
      if d.ids[i] == id { return i; }
      i := i + 1;
    }
    return NO_SLOT;
  }

  /** ADAT channels above the model's limit are hidden at the 88.2/96 kHz rates. */
  predicate Hidden(adatMax: nat, rate: nat, id: nat) {
    adatMax != 0 && id / 0x100 == 4 && U32(rate - 50001) < 99999 && id % 0x100 > adatMax
  }

  /** The unsigned subtraction makes the hidden band 50001 to 149999 Hz. */
  lemma HiddenBand(adatMax: nat, rate: nat, id: nat)
    requires rate < TWO_TO_THE_32
    ensures Hidden(adatMax, rate, id) <==>
            adatMax != 0 && id / 0x100 == 4 && id % 0x100 > adatMax && 50001 <= rate < 150000
  {
  }

  /** What a route channel gets: its descriptor slot, unless the rate hides it. */
  function RouteSlot(d: Descriptor, adatMax: nat, rate: nat, id: nat): (s: nat)
    requires d.Valid()
    ensures s == NO_SLOT || (s < |d.ids| && d.ids[s] == id && !Hidden(adatMax, rate, id))
  {
    if Hidden(adatMax, rate, id) then NO_SLOT else FindSlot(d.ids, id)
  }

  function Shown(route: seq<nat>): seq<nat> {
    if |route| < MAX_CHANNELS then route else route[..MAX_CHANNELS]
  }

  function RouteMap(d: Descriptor, adatMax: nat, rate: nat, route: seq<nat>): ChanMap
    requires d.Valid()
  {
    var shown := Shown(route);
    ChanMap(seq(|shown|, i requires 0 <= i < |shown| => RouteSlot(d, adatMax, rate, shown[i])), shown)
  }

  function AllSlots(d: Descriptor): ChanMap {
    ChanMap(seq(|d.ids|, i => i), d.ids)
  }

  predicate Matches(m: ChanMap) {
    exists i :: 0 <= i < |m.slot| && m.slot[i] != NO_SLOT
  }

  /** The route half of ua_chan_map_build(). */
  method MatchRoute(d: Descriptor, adatMax: nat, rate: nat, route: seq<nat>) returns (m: ChanMap, matched: nat)
    requires d.Valid()
    ensures m == RouteMap(d, adatMax, rate, route) && (matched > 0 <==> Matches(m))
  {
    hide Hidden;
    var slot, i := [], 0;
    matched := 0;
    while i < |route| && |slot| < MAX_CHANNELS
      invariant 0 <= i <= |Shown(route)| && |slot| == i
      invariant forall j :: 0 <= j < i ==> slot[j] == RouteSlot(d, adatMax, rate, Shown(route)[j])
      invariant matched > 0 <==> exists j :: 0 <= j < i && slot[j] != NO_SLOT
    {
      var s := NO_SLOT;
      if !Hidden(adatMax, rate, route[i]) { s := DescFind(d, route[i]); }
      if s != NO_SLOT { matched := matched + 1; }
      slot := slot + [s];
      i := i + 1;
    }
    m := ChanMap(slot, Shown(route));
    assert slot == RouteMap(d, adatMax, rate, route).slot;
  }

  /** ua_chan_map_build(): the route list against the descriptor, or every descriptor slot. */
  method BuildMap(d: Descriptor, adatMax: nat, rate: nat, route: seq<nat>) returns (m: ChanMap)
    requires d.Valid()
    ensures m == if Matches(RouteMap(d, adatMax, rate, route)) then RouteMap(d, adatMax, rate, route) else AllSlots(d)
    ensures Usable(d, m)
  {
    var matched;
    m, matched := MatchRoute(d, adatMax, rate, route);
    MapsAreUsable(d, adatMax, rate, route);
    if matched == 0 { m := AllSlots(d); }
  }

  /** What the copy relies on: slots lie below the hardware channel count, at least one channel is
      connected, and channels with different IDs never share a slot. */
  predicate Usable(d: Descriptor, m: ChanMap) {
    && m.Shaped() && Matches(m)
    && (forall i :: 0 <= i < |m.slot| && m.slot[i] != NO_SLOT ==> m.slot[i] < |d.ids| && d.ids[m.slot[i]] == m.ids[i])
    && (forall i, j :: 0 <= i < j < |m.slot| && m.slot[i] != NO_SLOT && m.ids[i] != m.ids[j] ==> m.slot[i] != m.slot[j])
  }

  lemma MapsAreUsable(d: Descriptor, adatMax: nat, rate: nat, route: seq<nat>)
    requires d.Valid()
    ensures Matches(RouteMap(d, adatMax, rate, route)) ==> Usable(d, RouteMap(d, adatMax, rate, route))
    ensures Usable(d, AllSlots(d))
  {
    assert AllSlots(d).slot[0] != NO_SLOT;
  }

  /** Distinct route IDs give distinct slots whatever duplicates the descriptor holds; exposing
      all slots does so always. */
  predicate SlotsDistinct(slot: seq<nat>) {
    forall i, j :: 0 <= i < j < |slot| && slot[i] != NO_SLOT ==> slot[i] != slot[j]
  }

  lemma DistinctIdsDistinctSlots(d: Descriptor, adatMax: nat, rate: nat, route: seq<nat>)
    requires d.Valid() && forall i, j :: 0 <= i < j < |route| ==> route[i] != route[j]
    ensures SlotsDistinct(RouteMap(d, adatMax, rate, route).slot) && SlotsDistinct(AllSlots(d).slot)
  {
  }

  // ---------- frame copy ----------

  /** One hardware sample of a played frame: what the last channel on that slot carries, or silence. */
  function Scatter(slot: seq<nat>, n: nat, row: seq<nat>, s: nat): nat
    requires n <= |slot| && n <= |row|
  {
    if n == 0 then 0 else if slot[n - 1] == s then row[n - 1] else Scatter(slot, n - 1, row, s)
  }

  /** One user sample of a captured frame. */
  function Gather(slot: seq<nat>, n: nat, frame: seq<nat>, c: nat): nat
    requires n <= |slot|
  {
    if c < n && slot[c] != NO_SLOT && slot[c] < |frame| then frame[slot[c]] else 0
  }

  lemma {:induction false} ScatterKeeps(slot: seq<nat>, n: nat, row: seq<nat>, c: nat)
    requires n <= |slot| && n <= |row| && c < n && SlotsDistinct(slot) && slot[c] != NO_SLOT
    ensures Scatter(slot, n, row, slot[c]) == row[c]
    decreases n
  {
    if c < n - 1 {
      assert slot[n - 1] != slot[c];
      ScatterKeeps(slot, n - 1, row, c);
    }
  }

  lemma {:induction false} UnmappedIsSilent(slot: seq<nat>, n: nat, row: seq<nat>, s: nat)
    requires n <= |slot| && n <= |row| && s !in slot[..n]
    ensures Scatter(slot, n, row, s) == 0
    decreases n
  {
    if n > 0 {
      assert slot[..n][n - 1] == slot[n - 1] && slot[..n - 1] == slot[..n][..n - 1];
      UnmappedIsSilent(slot, n - 1, row, s);
    }
  }

  datatype CopyResult = Copied | OutOfRange

  predicate SlotsInFrame(slot: seq<nat>, n: nat, hwCh: nat)
    requires n <= |slot|
  {
    forall c :: 0 <= c < n && slot[c] != NO_SLOT ==> slot[c] < hwCh
  }

  /** A map built from a descriptor never hits the copy's range checks. */
  lemma NeverOutOfRange(d: Descriptor, m: ChanMap, userCh: nat)
    requires d.Valid() && Usable(d, m) && userCh <= MAX_CHANNELS
    ensures |d.ids| <= MAX_CHANNELS && SlotsInFrame(m.slot, Min(userCh, |m.slot|), |d.ids|)
  {
  }

  function Min(a: nat, b: nat): nat {
    if a < b then a else b
  }

  function HwFrame(slot: seq<nat>, n: nat, row: seq<nat>, hwCh: nat): (frame: seq<nat>)
    requires n <= |slot| && n <= |row|
    ensures |frame| == hwCh
  {
    seq(hwCh, s requires 0 <= s < hwCh => Scatter(slot, n, row, s))
  }

  function UserFrame(slot: seq<nat>, n: nat, frame: seq<nat>, userCh: nat): (row: seq<nat>)
    requires n <= |slot|
    ensures |row| == userCh
  {
    seq(userCh, c requires 0 <= c < userCh => Gather(slot, n, frame, c))
  }

  /** Frames of one width. */
  predicate Frames(a: array<seq<nat>>, width: nat)
    reads a
  {
    forall i :: 0 <= i < a.Length ==> |a[i]| == width
  }

  predicate Fits(slot: seq<nat>, userCh: nat, hwCh: nat) {
    userCh <= MAX_CHANNELS && hwCh <= MAX_CHANNELS && SlotsInFrame(slot, Min(userCh, |slot|), hwCh)
  }

  /** Frame i of the run is the last of the run at its place in the ring. */
  predicate LastAt(i: nat, frames: nat, ring: nat) {
    i < frames && frames <= i + ring
  }

  /** Where frame i of a run lies in the ring. */
  function Place(start: nat, i: nat, ring: nat): nat
    requires ring > 0
  {
    (start + i) % ring
  }

  predicate InRun(f: nat, start: nat, frames: nat, ring: nat)
    requires ring > 0
  {
    exists i: nat :: i < frames && Place(start, i, ring) == f
  }

  /** Two frames of a run less than a ring apart lie at different places. */
  lemma PlacesDiffer(start: nat, i: nat, j: nat, ring: nat)
    requires ring > 0 && i < j < i + ring
    ensures Place(start, i, ring) != Place(start, j, ring)
  {
    if Place(start, i, ring) == Place(start, j, ring) { SameIndexSameCounter(start + i, start + j, ring); }
  }

  /** ua_pcm_copy_mapped(): frames of the stream to or from the ring, which the run may wrap. */
  method CopyMapped(slot: seq<nat>, playback: bool, dma: array<seq<nat>>, hwCh: nat, start: nat,
                    user: array<seq<nat>>, userCh: nat) returns (r: CopyResult)
    requires dma.Length > 0 && dma != user && |slot| <= MAX_CHANNELS && Frames(dma, hwCh) && Frames(user, userCh)
    modifies dma, user
    ensures Frames(dma, hwCh) && Frames(user, userCh)
    ensures r.Copied? <==> Fits(slot, userCh, hwCh)
    ensures !r.Copied? || !playback ==> dma[..] == old(dma[..])
    ensures !r.Copied? || playback ==> user[..] == old(user[..])
    ensures r.Copied? && playback ==> Played(slot, old(dma[..]), dma[..], hwCh, start, user[..], user.Length, userCh)
    ensures r.Copied? && !playback ==>
              forall i :: 0 <= i < user.Length ==>
                user[i] == UserFrame(slot, Min(userCh, |slot|), dma[Place(start, i, dma.Length)], userCh)
  {
    var n := Min(userCh, |slot|);
    if userCh > MAX_CHANNELS || hwCh > MAX_CHANNELS { return OutOfRange; }
    var c := 0;
    while c < n
      invariant 0 <= c <= n && SlotsInFrame(slot, c, hwCh)
    {
      if slot[c] != NO_SLOT && slot[c] >= hwCh { return OutOfRange; }
      c := c + 1;
    }
    if playback {
      PlayFrames(slot, dma, hwCh, start, user, userCh);
    } else {
      CaptureFrames(slot, dma, start, user, userCh);
    }
    return Copied;
  }

  /** The ring after playing the first `done` frames: each place in the run holds the last frame
      played there, every other place what it held. */
  ghost predicate Played(slot: seq<nat>, before: seq<seq<nat>>, after: seq<seq<nat>>, hwCh: nat, start: nat,
                         user: seq<seq<nat>>, done: nat, userCh: nat)
    requires |before| == |after| > 0 && done <= |user|
    requires forall i :: 0 <= i < |user| ==> |user[i]| == userCh
  {
    && (forall i: nat :: LastAt(i, done, |after|) ==>
          after[Place(start, i, |after|)] == HwFrame(slot, Min(userCh, |slot|), user[i], hwCh))
    && (forall f: nat :: f < |after| && !InRun(f, start, done, |after|) ==> after[f] == before[f])
  }

  lemma PlayedOneMore(slot: seq<nat>, before: seq<seq<nat>>, mid: seq<seq<nat>>, hwCh: nat, start: nat,
                      user: seq<seq<nat>>, done: nat, userCh: nat)
    requires |before| == |mid| > 0 && done < |user| && forall i :: 0 <= i < |user| ==> |user[i]| == userCh
    requires Played(slot, before, mid, hwCh, start, user, done, userCh)
    ensures var f := Place(start, done, |mid|);
            Played(slot, before, mid[f := HwFrame(slot, Min(userCh, |slot|), user[done], hwCh)], hwCh, start, user,
                done + 1, userCh)
  {
    var ring := |mid|;
    var f := Place(start, done, ring);
    var after := mid[f := HwFrame(slot, Min(userCh, |slot|), user[done], hwCh)];
    forall i: nat | LastAt(i, done + 1, ring)
      ensures after[Place(start, i, ring)] == HwFrame(slot, Min(userCh, |slot|), user[i], hwCh)
    {
      if i < done {
        assert LastAt(i, done, ring);
        PlacesDiffer(start, i, done, ring);
      }
    }
    forall g: nat | g < ring && !InRun(g, start, done + 1, ring) ensures after[g] == before[g] {
      assert done < done + 1 && Place(start, done, ring) != g;
    }
  }

  method PlayFrames(slot: seq<nat>, dma: array<seq<nat>>, hwCh: nat, start: nat, user: array<seq<nat>>, userCh: nat)
    requires dma.Length > 0 && dma != user && Frames(dma, hwCh) && Frames(user, userCh)
    requires SlotsInFrame(slot, Min(userCh, |slot|), hwCh) && hwCh <= MAX_CHANNELS
    modifies dma
    ensures Frames(dma, hwCh)
    ensures Played(slot, old(dma[..]), dma[..], hwCh, start, user[..], user.Length, userCh)
  {
    var i := 0;
    while i < user.Length
      invariant 0 <= i <= user.Length && Frames(dma, hwCh) && user[..] == old(user[..])
      invariant Played(slot, old(dma[..]), dma[..], hwCh, start, user[..], i, userCh)
    {
      var f := Place(start, i, dma.Length);
      PlayedOneMore(slot, old(dma[..]), dma[..], hwCh, start, user[..], i, userCh);
      var frame := FillFrame(slot, Min(userCh, |slot|), user[i], hwCh);
      ghost var mid := dma[..];
      dma[f] := frame;
      assert dma[..] == mid[f := frame];
      i := i + 1;
    }
  }

  /** Zero the hardware frame, then store each connected channel. */
  method FillFrame(slot: seq<nat>, n: nat, row: seq<nat>, hwCh: nat) returns (frame: seq<nat>)
    requires n <= |slot| && n <= |row| && SlotsInFrame(slot, n, hwCh) && hwCh <= NO_SLOT
    ensures frame == HwFrame(slot, n, row, hwCh)
  {
    frame := seq(hwCh, _ => 0);
    var c := 0;
    while c < n
      invariant 0 <= c <= n && frame == HwFrame(slot, c, row, hwCh)
    {
      if slot[c] != NO_SLOT { frame := frame[slot[c] := row[c]]; }
      c := c + 1;
    }
  }

  method CaptureFrames(slot: seq<nat>, dma: array<seq<nat>>, start: nat, user: array<seq<nat>>, userCh: nat)
    requires dma.Length > 0 && dma != user && Frames(user, userCh)
    requires forall f, c :: 0 <= f < dma.Length && 0 <= c < Min(userCh, |slot|) && slot[c] != NO_SLOT ==>
             slot[c] < |dma[f]|
    modifies user
    ensures Frames(user, userCh)
    ensures forall i :: 0 <= i < user.Length ==>
              user[i] == UserFrame(slot, Min(userCh, |slot|), dma[Place(start, i, dma.Length)], userCh)
  {
    var i := 0;
    while i < user.Length
      invariant 0 <= i <= user.Length && Frames(user, userCh)
      invariant forall j :: 0 <= j < i ==>
                  user[j] == UserFrame(slot, Min(userCh, |slot|), dma[Place(start, j, dma.Length)], userCh)
    {
      var f := Place(start, i, dma.Length);
      var row := TakeFrame(slot, Min(userCh, |slot|), dma[f], userCh);
      user[i] := row;
      i := i + 1;
    }
  }

  /** Each channel from its slot, silence where it has none. */
  method TakeFrame(slot: seq<nat>, n: nat, frame: seq<nat>, userCh: nat) returns (row: seq<nat>)
    requires n <= |slot| && n <= userCh && SlotsInFrame(slot, n, |frame|)
    ensures row == UserFrame(slot, n, frame, userCh)
  {
    row := [];
    var c := 0;
    while c < n
      invariant 0 <= c <= n && |row| == c && forall j :: 0 <= j < c ==> row[j] == Gather(slot, n, frame, j)
    {
      row := row + [if slot[c] == NO_SLOT then 0 else frame[slot[c]]];
      c := c + 1;
    }
    while c < userCh
      invariant n <= c <= userCh && |row| == c && forall j :: 0 <= j < c ==> row[j] == Gather(slot, n, frame, j)
    {
      row := row + [0];
      c := c + 1;
    }
  }

  /** Capturing a frame through the map it was played with gives every connected channel back. */
  lemma PlayThenCapture(slot: seq<nat>, n: nat, row: seq<nat>, hwCh: nat, c: nat)
    requires n <= |slot| && n <= |row| && c < n && SlotsDistinct(slot) && SlotsInFrame(slot, n, hwCh)
    ensures UserFrame(slot, n, HwFrame(slot, n, row, hwCh), |row|)[c] == if slot[c] == NO_SLOT then 0 else row[c]
  {
    if slot[c] != NO_SLOT { ScatterKeeps(slot, n, row, c); }
  }

  /** Sample c of a user frame, as far as the map connects it. */
  function Connected(slot: seq<nat>, row: seq<nat>, c: nat): nat
    requires c < |row|
  {
    if c < |slot| && slot[c] != NO_SLOT then row[c] else 0
  }

  /** What a user frame comes back as: connected channels as they were, silence elsewhere. */
  function Returned(slot: seq<nat>, row: seq<nat>): (back: seq<nat>)
    ensures |back| == |row|
  {
    seq(|row|, c requires 0 <= c < |row| => Connected(slot, row, c))
  }

  lemma FrameReturns(slot: seq<nat>, row: seq<nat>, hwCh: nat)
    requires SlotsDistinct(slot) && SlotsInFrame(slot, Min(|row|, |slot|), hwCh)
    ensures var n := Min(|row|, |slot|); UserFrame(slot, n, HwFrame(slot, n, row, hwCh), |row|) == Returned(slot, row)
  {
    var n := Min(|row|, |slot|);
    forall c | 0 <= c < |row|
      ensures UserFrame(slot, n, HwFrame(slot, n, row, hwCh), |row|)[c] == Connected(slot, row, c)
    {
      if c < n { PlayThenCapture(slot, n, row, hwCh, c); }
    }
  }

  /** A run of up to one ring of frames, played and then captured from the same start through one map
      with distinct slots, comes back whole, wherever it wraps. */
  method PlayThenCaptureRun(slot: seq<nat>, dma: array<seq<nat>>, hwCh: nat, start: nat, user: array<seq<nat>>,
      userCh: nat)
      returns (back: array<seq<nat>>)
    requires dma.Length > 0 && dma != user && |slot| <= MAX_CHANNELS && Frames(dma, hwCh) && Frames(user, userCh)
    requires Fits(slot, userCh, hwCh) && SlotsDistinct(slot) && user.Length <= dma.Length
    modifies dma, user
    ensures fresh(back) && back.Length == user.Length && user[..] == old(user[..])
    ensures forall i :: 0 <= i < user.Length ==> back[i] == Returned(slot, old(user[i]))
  {
    var st := CopyMapped(slot, true, dma, hwCh, start, user, userCh);
    ghost var played := dma[..];
    back := new seq<nat>[user.Length](_ => seq(userCh, _ => 0));
    st := CopyMapped(slot, false, dma, hwCh, start, back, userCh);
    forall i | 0 <= i < user.Length ensures back[i] == Returned(slot, user[i]) {
      assert LastAt(i, user.Length, dma.Length) &&
          dma[Place(start, i, dma.Length)] == played[Place(start, i, dma.Length)];
      FrameReturns(slot, user[i], hwCh);
    }
  }
}
