/** One DSP ring: the driver's indices, the FPGA's registers, and the history both belong to.

    The driver and the device only ever see indices in [0, capacity).  `hist` holds every entry
    the producer has placed and not withdrawn, `log` every entry the device has consumed; their
    lengths are the unbounded producer and consumer counters the indices are remainders of. */
module RingModel {
  import opened Indices

  datatype Entry =
    | Inline(w0: nat, w1: nat, w2: nat, w3: nat)
    | DmaRef(dwords: nat, buf: nat, at: nat)      // `dwords` words at byte `at` of buffer `buf`

  datatype Ring = Ring(
    // struct ua_dsp_ring
    capacity: nat, writePtr: nat, hwPos: nat, gen: nat, live: bool, slots: seq<Entry>,
    // registers
    doorbell: nat, position: nat,
    // history
    hist: seq<Entry>, log: seq<Entry>,
    seen: nat,                    // consumer counter behind hwPos
    target: nat,                  // producer counter behind DOORBELL
    floor: nat,                   // entries below it cannot be withdrawn any more
    gens: nat,                    // resyncs that abandoned entries; `gen` is its 32-bit image
    fetched: set<(nat, Entry)>    // descriptors the device has read, by counter
  ) {
    predicate Valid() {
      && IsCapacity(capacity) && |slots| == capacity
      && writePtr == |hist| % capacity && hwPos == seen % capacity
      && doorbell == target % capacity && position == |log| % capacity
      && seen <= |log| <= target <= floor <= |hist| < seen + capacity
      && gen == U32(gens)
      && (!live ==> |log| == |hist|)
      && forall p :: |log| <= p < |hist| ==> slots[p % capacity] == hist[p]
    }

    /** Indices in range: what holds of a ring whatever became of it. */
    predicate Shaped() {
      IsCapacity(capacity) && |slots| == capacity && writePtr < capacity && hwPos < capacity && position < capacity
    }

    /** The device has consumed everything it was told of. */
    predicate Idle() { target == |log| }

    /** Descriptor e is at counter p and the device has yet to move past p. */
    predicate Hot(p: nat, e: Entry) {
      p >= |log| && ((p < |hist| && hist[p] == e) || (p, e) in fetched)
    }

    /** Every descriptor the device still holds is the one queued at its place. */
    predicate NoStale() {
      forall f <- fetched :: f.0 >= |log| ==> f.0 < target && f.0 < |hist| && f.1 == hist[f.0]
    }
  }

  // ---------- what the driver computes ----------

  function FreeSlots(r: Ring): nat
    requires IsCapacity(r.capacity)
  {
    Masked(r.hwPos - r.writePtr - 1, r.capacity)
  }

  function Pending(r: Ring): nat
    requires IsCapacity(r.capacity)
  {
    Masked(r.writePtr - r.hwPos, r.capacity)
  }

  /** The masked index differences are the true distances between the counters. */
  lemma Distances(r: Ring)
    requires r.Valid()
    ensures Pending(r) == |r.hist| - r.seen
    ensures FreeSlots(r) == r.capacity - 1 - (|r.hist| - r.seen)
    ensures FreeSlots(r) + Pending(r) == r.capacity - 1
  {
    RingDistance(|r.hist|, r.seen, r.capacity);
    RingRoom(|r.hist|, r.seen, r.capacity);
  }

  lemma RingRoom(w: nat, h: nat, n: nat)
    requires h <= w < h + n
    ensures (h % n - w % n - 1) % n == n - 1 - (w - h)
  {
    RemainderOfDifference(h, w, -1, n);
    RemainderShift(h - w - 1, 1, n);
    SmallRemainder(h - w - 1 + n, n);
  }

  // ---------- host and device steps ----------

  function UpdatePos(r: Ring): Ring {
    if r.position < r.capacity then r.(hwPos := r.position, seen := |r.log|) else r
  }

  function PutSlot(r: Ring, e: Entry): Ring
    requires IsCapacity(r.capacity) && r.writePtr < |r.slots|
  {
    r.(slots := r.slots[r.writePtr := e], writePtr := Masked(r.writePtr + 1, r.capacity), hist := r.hist + [e])
  }

  /** A write to DOORBELL: the device's new target is the next counter with that index. */
  function WriteDoorbell(r: Ring, v: nat): Ring
    requires IsCapacity(r.capacity)
  {
    r.(doorbell := v, target := |r.log| + (v - r.position) % r.capacity)
  }

  function RingDoorbell(r: Ring): Ring
    requires IsCapacity(r.capacity)
  {
    WriteDoorbell(r, r.writePtr).(floor := |r.hist|)
  }

  /** `write_ptr = cmd_start`, the index saved before the entry at `start` was put: withdraw entries
      that were never doorbelled. */
  function Unwind(r: Ring, start: nat): Ring
    requires IsCapacity(r.capacity) && start <= |r.hist|
  {
    r.(writePtr := Masked(r.writePtr - (|r.hist| - start), r.capacity), hist := r.hist[..start])
  }

  /** The entries the device has passed, as far as they are known from the producer's side. */
  function Passed(r: Ring): (passed: seq<Entry>)
    ensures |passed| == |r.log|
  {
    if |r.log| <= |r.hist| then r.hist[..|r.log|] else r.hist + r.log[|r.hist|..]
  }

  /** `hw_pos = pos`, the index the register half of a resync came back with. */
  function At(r: Ring, pos: nat): Ring {
    r.(hwPos := pos, seen := |r.log|)
  }

  /** The software half of a resync: producer and cached position become `pos`. */
  function Resync(r: Ring, pos: nat): Ring {
    At(r, pos).(writePtr := pos, hist := Passed(r), floor := |r.log|)
  }

  /** Resync point with entries still queued: a new generation begins. */
  predicate Abandons(r: Ring, pos: nat)
    requires IsCapacity(r.capacity)
  {
    r.live && Pending(At(r, pos)) != 0
  }

  function ResyncGen(r: Ring, pos: nat): Ring
    requires IsCapacity(r.capacity)
  {
    var next := Resync(r, pos);
    if Abandons(r, pos) then next.(gen := U32(r.gen + 1), gens := r.gens + 1) else next
  }

  /** The end of a program: zeroed pages, ring live. */
  function Clear(r: Ring, zero: Entry): Ring {
    r.(slots := seq(|r.slots|, _ => zero), live := true)
  }

  function Fetch(r: Ring, p: nat): Ring
    requires r.capacity > 0 && |r.slots| == r.capacity
  {
    r.(fetched := r.fetched + {(p, r.slots[p % r.capacity])})
  }

  function Consume(r: Ring, e: Entry): Ring
    requires r.capacity > 0
  {
    r.(log := r.log + [e], position := (r.position + 1) % r.capacity)
  }

  /** The device acts on the slot's content or on a descriptor it read earlier for that place. */
  predicate CanConsume(r: Ring, e: Entry)
    requires r.capacity > 0 && |r.slots| == r.capacity
  {
    |r.log| < r.target && (e == r.slots[|r.log| % r.capacity] || (|r.log|, e) in r.fetched)
  }

  // ---------- each step keeps the ring valid ----------

  lemma UpdatePosValid(r: Ring)
    requires r.Valid()
    ensures UpdatePos(r).Valid() && UpdatePos(r).seen == |r.log|
    ensures Pending(UpdatePos(r)) == |r.hist| - |r.log|
  {
    Distances(UpdatePos(r));
  }

  /** A put lands outside the slots of the entries still queued. */
  lemma PutKeepsUnconsumed(r: Ring, e: Entry)
    requires r.Valid() && FreeSlots(r) > 0
    ensures r.writePtr < |r.slots|
    ensures forall p :: |r.log| <= p < |r.hist| ==> PutSlot(r, e).slots[p % r.capacity] == r.hist[p]
  {
    var n, w := r.capacity, |r.hist|;
    Distances(r);
    forall p | |r.log| <= p < w ensures PutSlot(r, e).slots[p % n] == r.hist[p] {
      if p % n == w % n { SameIndexSameCounter(p, w, n); }
    }
  }

  lemma NextIndex(w: nat, n: nat)
    requires n > 1
    ensures (w % n + 1) % n == (w + 1) % n
  {
    RemainderOfDifference(w, 0, 1, n);
    SmallRemainder(0, n);
  }

  lemma PutIndex(r: Ring)
    requires r.Valid()
    ensures IsCapacity(r.capacity) && r.writePtr < |r.slots|
  {
  }

  lemma PutValid(r: Ring, e: Entry)
    requires r.Valid() && r.live && FreeSlots(r) > 0
    ensures PutSlot(r, e).Valid()
    ensures FreeSlots(PutSlot(r, e)) == FreeSlots(r) - 1
  {
    var r' := PutSlot(r, e);
    Distances(r);
    PutKeepsUnconsumed(r, e);
    NextIndex(|r.hist|, r.capacity);
    forall p | |r'.log| <= p < |r'.hist| ensures r'.slots[p % r'.capacity] == r'.hist[p] {
      if p < |r.hist| { assert r'.slots[p % r.capacity] == r.hist[p]; }
    }
    Distances(r');
  }

  lemma DoorbellValid(r: Ring)
    requires r.Valid()
    ensures RingDoorbell(r).Valid() && RingDoorbell(r).target == |r.hist|
  {
    RingDistance(|r.hist|, |r.log|, r.capacity);
  }

  lemma UnwindValid(r: Ring, start: nat)
    requires r.Valid() && r.floor <= start <= |r.hist|
    ensures Unwind(r, start).Valid()
  {
    var r' := Unwind(r, start);
    RemainderOfDifference(|r.hist|, 0, start - |r.hist|, r.capacity);
    SmallRemainder(0, r.capacity);
    forall p | |r'.log| <= p < |r'.hist| ensures r'.slots[p % r'.capacity] == r'.hist[p] {
      assert r.slots[p % r.capacity] == r.hist[p];
    }
  }

  /** DOORBELL written with a POSITION that still stands stops the device; written with one the
      device has left, it sends the device a whole ring ahead. */
  lemma ResyncWrite(r: Ring, at: nat)
    requires r.Valid() && r.seen <= at <= |r.log|
    ensures WriteDoorbell(r, at % r.capacity).target == if at == |r.log| then at else at + r.capacity
    ensures at == |r.log| ==> WriteDoorbell(r, at % r.capacity).Valid()
    ensures at < |r.log| ==> WriteDoorbell(r, at % r.capacity).target > |r.hist|
  {
    IndexBehind(at, |r.log|, r.capacity);
  }

  lemma IndexBehind(at: nat, c: nat, n: nat)
    requires at <= c < at + n
    ensures c + (at % n - c % n) % n == if at == c then at else at + n
  {
    RemainderOfDifference(at, c, 0, n);
    if at == c {
      SmallRemainder(0, n);
    } else {
      RemainderShift(at - c, 1, n);
      SmallRemainder(at - c + n, n);
    }
  }

  /** With the device stopped where it was found, POSITION is the resync point. */
  lemma ResyncValid(r: Ring)
    requires r.Valid() && r.Idle()
    ensures At(r, r.position) == UpdatePos(r)
    ensures Resync(r, r.position).Valid() && ResyncGen(r, r.position).Valid()
    ensures Pending(Resync(r, r.position)) == 0
    ensures Abandons(r, r.position) <==> r.live && |r.log| < |r.hist|
  {
    UpdatePosValid(r);
    SmallRemainder(0, r.capacity);
    RemainderOfDifference(r.gens, 0, 1, TWO_TO_THE_32);
    Distances(Resync(r, r.position));
  }

  lemma ConsumeValid(r: Ring, e: Entry)
    requires r.Valid() && CanConsume(r, e)
    ensures Consume(r, e).Valid()
  {
    RemainderOfDifference(|r.log|, 0, 1, r.capacity);
    SmallRemainder(0, r.capacity);
  }

  // ---------- first in, first out ----------

  datatype Op =
    | OpPut(e: Entry) | OpUpdatePos | OpDoorbell | OpUnwind(start: nat)
    | OpFetch(p: nat) | OpConsume(e: Entry)

  predicate Enabled(r: Ring, op: Op)
    requires r.Valid()
  {
    match op
    case OpPut(_) => r.live && FreeSlots(r) > 0
    case OpUpdatePos => true
    case OpDoorbell => true
    case OpUnwind(start) => r.floor <= start <= |r.hist|
    case OpFetch(p) => |r.log| <= p < r.target
    case OpConsume(e) => CanConsume(r, e)
  }

  function Apply(r: Ring, op: Op): (r': Ring)
    requires r.Valid() && Enabled(r, op)
    ensures r'.Valid()
  {
    match op
    case OpPut(e) => PutValid(r, e); PutSlot(r, e)
    case OpUpdatePos => UpdatePosValid(r); UpdatePos(r)
    case OpDoorbell => DoorbellValid(r); RingDoorbell(r)
    case OpUnwind(start) => UnwindValid(r, start); Unwind(r, start)
    case OpFetch(p) => Fetch(r, p)
    case OpConsume(e) => ConsumeValid(r, e); Consume(r, e)
  }

  predicate Legal(r: Ring, ops: seq<Op>)
    requires r.Valid()
    decreases |ops|
  {
    ops == [] || (Enabled(r, ops[0]) && Legal(Apply(r, ops[0]), ops[1..]))
  }

  function Run(r: Ring, ops: seq<Op>): (r': Ring)
    requires r.Valid() && Legal(r, ops)
    ensures r'.Valid()
    decreases |ops|
  {
    if ops == [] then r else Run(Apply(r, ops[0]), ops[1..])
  }

  /** r' continues r: same consumed past, doorbelled entries unchanged, and what the device
      has consumed since `base` is what was queued there, in order. */
  ghost predicate InOrder(base: nat, r: Ring, r': Ring) {
    && |r.log| <= |r'.log| <= |r'.hist| && r.target <= r'.target <= |r'.hist| && r.target <= |r.hist|
    && (forall p :: 0 <= p < |r.log| ==> r'.log[p] == r.log[p])
    && (forall p :: 0 <= p < r.target ==> r'.hist[p] == r.hist[p])
    && (forall p :: base <= p < |r'.log| ==> r'.log[p] == r'.hist[p])
  }

  lemma StepKeepsNoStale(r: Ring, op: Op)
    requires r.Valid() && Enabled(r, op) && r.NoStale()
    ensures Apply(r, op).NoStale()
  {
    var r' := Apply(r, op);
    if op.OpDoorbell? { DoorbellValid(r); }
    if op.OpConsume? {
      forall f <- r'.fetched | f.0 >= |r'.log| ensures f.1 == r'.hist[f.0] { assert f in r.fetched; }
    }
  }

  lemma StepInOrder(base: nat, r: Ring, op: Op)
    requires r.Valid() && Enabled(r, op) && r.NoStale()
    requires forall p :: base <= p < |r.log| ==> r.log[p] == r.hist[p]
    ensures InOrder(base, r, Apply(r, op))
  {
    if op.OpDoorbell? { DoorbellValid(r); }
    if op.OpConsume? { ConsumesQueued(r, op.e); }
  }

  lemma ConsumesQueued(r: Ring, e: Entry)
    requires r.Valid() && r.NoStale() && CanConsume(r, e)
    ensures e == r.hist[|r.log|]
  {
  }

  /** Over every run without a resync the device consumes exactly what was doorbelled, in
      queueing order, whatever it prefetches and however the indices wrap. */
  lemma {:induction false} RingIsFifo(base: nat, r: Ring, ops: seq<Op>)
    requires r.Valid() && r.NoStale() && Legal(r, ops)
    requires forall p :: base <= p < |r.log| ==> r.log[p] == r.hist[p]
    ensures InOrder(base, r, Run(r, ops)) && Run(r, ops).NoStale()
    decreases |ops|
  {
    if ops != [] {
      StepInOrder(base, r, ops[0]);
      StepKeepsNoStale(r, ops[0]);
      RingIsFifo(base, Apply(r, ops[0]), ops[1..]);
      InOrderTrans(base, r, Apply(r, ops[0]), Run(r, ops));
    }
  }

  lemma InOrderTrans(base: nat, a: Ring, b: Ring, c: Ring)
    requires InOrder(base, a, b) && InOrder(base, b, c)
    ensures InOrder(base, a, c)
  {
  }

  /** Room for n entries means the next n puts succeed without looking at the device again. */
  lemma {:induction false} RoomSuffices(r: Ring, es: seq<Entry>)
    requires r.Valid() && r.live && FreeSlots(r) >= |es|
    ensures Legal(r, PutAll(es))
    ensures Run(r, PutAll(es)).hist == r.hist + es && Run(r, PutAll(es)).log == r.log
    ensures FreeSlots(Run(r, PutAll(es))) == FreeSlots(r) - |es|
    decreases |es|
  {
    hide FreeSlots, Ring.Valid;
    if es != [] {
      PutIndex(r);
      PutValid(r, es[0]);
      var next, ops := PutSlot(r, es[0]), PutAll(es);
      RoomSuffices(next, es[1..]);
      assert ops[1..] == PutAll(es[1..]);
      assert Enabled(r, ops[0]) && Apply(r, ops[0]) == next;
      assert next.hist + es[1..] == r.hist + es;
    }
  }

  function PutAll(es: seq<Entry>): seq<Op> {
    seq(|es|, i requires 0 <= i < |es| => OpPut(es[i]))
  }
}
