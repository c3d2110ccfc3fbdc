/** Buffers behind the rings: which descriptors still name them, how a timed-out command parks
    its buffers, and when parking ends.  A resync is its register accesses, one step each, with
    device steps in between; DmaProof has the whole-run theorems.

    Hardware assumptions, all visible in `Allowed` or in the steps of RingModel:
    POSITION is the consumer index and moves only by consumption towards DOORBELL; a descriptor
    the device has read belongs to the place it was read at and is spent when POSITION passes it;
    a block is answered only once its descriptors are spent; `quiet` at teardown means what it
    says; and no ring goes through 2^32 abandoning resyncs while a reference from an older
    generation waits. */
module Orphans {
  import opened Indices
  import opened RingModel

  /** struct ua_orphan_ref; the abs* fields are the counters behind the stored indices. */
  datatype Ref =
    | NoRing
    | Ref(ring: nat, gen: nat, end: nat, start: nat, need: nat, abandoned: bool,
          absEnd: nat, absStart: nat, absGen: nat)

  datatype Orphan = Orphan(buf: nat, size: nat, refs: seq<Ref>)

  /** A command's own record of a buffer on one ring: generation and counter of its first entry. */
  datatype Use = Use(gen: nat, first: nat)

  /** How far a resync has come.  `pos` was read from POSITION while the consumer counter was `at`;
      `tries` counts the passes that found the device on another index. */
  datatype Pass =
    | NoPass
    | HasRead(ring: nat, pos: nat, at: nat, tries: nat)
    | HasWritten(ring: nat, pos: nat, at: nat, tries: nat)
    | Settled(ring: nat, pos: nat)
    | Clearing(ring: nat)

  datatype System = System(
    rings: seq<Ring>, pass: Pass, orphans: seq<Orphan>, count: nat, bytes: nat,
    uses: map<nat, map<nat, Use>>,   // buffers owned by a command, with the rings they are queued on
    freed: set<nat>, leaked: set<nat>,
    next: nat)                       // allocations made so far; buffers are numbered by allocation

  const ORPHAN_REFS := 2

  // ---------- the modular "consumed?" test ----------

  /** ua_orphan_ref_done() on a ring whose POSITION was just read. */
  predicate RefTest(r: Ring, ref: Ref)
    requires IsCapacity(r.capacity) && ref.Ref?
  {
    if r.gen != ref.gen then false
    else if ref.abandoned then Masked(r.hwPos - ref.start, r.capacity) >= ref.need
    else
      var d := Masked(ref.end - r.hwPos, r.capacity);
      d == 0 || d > Pending(r)
  }

  predicate Stale(r: Ring, ref: Ref)
    requires ref.Ref?
  {
    !ref.abandoned && ref.absGen != r.gens
  }

  /** The stored indices of a reference are images of its counters. */
  predicate RefOk(r: Ring, ref: Ref)
    requires r.capacity > 0 && ref.Ref?
  {
    if ref.abandoned then
      && ref.absStart <= |r.log| && ref.start == ref.absStart % r.capacity
      && ref.absEnd == ref.absStart + ref.need && 0 < ref.need < r.capacity
    else if ref.absGen == r.gens then
      ref.gen == r.gen && ref.end == ref.absEnd % r.capacity && ref.absEnd <= r.floor
    else
      ref.absGen < r.gens < ref.absGen + TWO_TO_THE_32 && ref.gen == U32(ref.absGen)
  }

  lemma StaleNeverPasses(r: Ring, ref: Ref)
    requires r.Valid() && ref.Ref? && RefOk(r, ref) && Stale(r, ref)
    ensures r.gen != ref.gen
  {
    if U32(r.gens) == U32(ref.absGen) { SameIndexSameCounter(r.gens, ref.absGen, TWO_TO_THE_32); }
  }

  lemma AbandonedTestIsSound(r: Ring, ref: Ref)
    requires r.Valid() && r.seen == |r.log| && ref.Ref? && RefOk(r, ref) && ref.abandoned
    requires Masked(r.hwPos - ref.start, r.capacity) >= ref.need
    ensures |r.log| >= ref.absEnd
  {
    RemainderOfDifference(|r.log|, ref.absStart, 0, r.capacity);
    RemainderAtMost(|r.log| - ref.absStart, r.capacity);
  }

  /** The distance from the consumer index to a place in the queue, by where the place lies. */
  lemma DistanceToEnd(log: nat, end: nat, n: nat)
    requires log - n < end < log + n
    ensures (end % n - log % n) % n == if end < log then end - log + n else end - log
  {
    if end < log {
      RemainderOfDifference(end, log, 0, n);
      RemainderShift(end - log, 1, n);
      SmallRemainder(end - log + n, n);
    } else {
      RingDistance(end, log, n);
    }
  }

  lemma LiveTestIsSound(r: Ring, ref: Ref)
    requires r.Valid() && r.seen == |r.log| && ref.Ref? && RefOk(r, ref) && !ref.abandoned && ref.absGen == r.gens
    requires RefTest(r, ref)
    ensures |r.log| >= ref.absEnd
  {
    Distances(r);
    if |r.log| < ref.absEnd { DistanceToEnd(|r.log|, ref.absEnd, r.capacity); }
  }

  /** A yes is never early: every entry up to the end of the reference has been consumed. */
  lemma ConsumedTestIsSound(r: Ring, ref: Ref)
    requires r.Valid() && r.seen == |r.log| && ref.Ref? && RefOk(r, ref)
    requires RefTest(r, ref)
    ensures !Stale(r, ref) && |r.log| >= ref.absEnd
  {
    hide Ring.Valid, Masked, Pending;
    if Stale(r, ref) {
      StaleNeverPasses(r, ref);
    } else if ref.abandoned {
      AbandonedTestIsSound(r, ref);
    } else {
      LiveTestIsSound(r, ref);
    }
  }

  lemma RemainderAtMost(x: nat, n: nat)
    requires n > 0
    ensures x % n <= x
  {
    if x < n { SmallRemainder(x, n); }
  }

  lemma AbandonedTestIsExact(r: Ring, ref: Ref)
    requires r.Valid() && r.seen == |r.log| && ref.Ref? && RefOk(r, ref) && ref.abandoned
    requires ref.gen == r.gen && |r.log| - ref.absStart < r.capacity
    ensures RefTest(r, ref) <==> |r.log| >= ref.absEnd
  {
    RingDistance(|r.log|, ref.absStart, r.capacity);
  }

  lemma LiveTestIsExact(r: Ring, ref: Ref)
    requires r.Valid() && r.seen == |r.log| && ref.Ref? && RefOk(r, ref) && !ref.abandoned && ref.absGen == r.gens
    requires |r.hist| - ref.absEnd < r.capacity
    ensures RefTest(r, ref) <==> |r.log| >= ref.absEnd
  {
    Distances(r);
    DistanceToEnd(|r.log|, ref.absEnd, r.capacity);
  }

  /** Live reference: exact as long as fewer than `capacity` entries were queued since parking.
      Abandoned reference: exact as long as fewer than `capacity` were consumed since the resync. */
  lemma ConsumedTestIsExact(r: Ring, ref: Ref)
    requires r.Valid() && r.seen == |r.log| && ref.Ref? && RefOk(r, ref)
    ensures !ref.abandoned && ref.absGen == r.gens && |r.hist| - ref.absEnd < r.capacity ==>
              (RefTest(r, ref) <==> |r.log| >= ref.absEnd)
    ensures ref.abandoned && ref.gen == r.gen && |r.log| - ref.absStart < r.capacity ==>
              (RefTest(r, ref) <==> |r.log| >= ref.absEnd)
    ensures Stale(r, ref) ==> !RefTest(r, ref)
  {
    hide Ring.Valid, Masked, Pending;
    if Stale(r, ref) {
      StaleNeverPasses(r, ref);
    } else if ref.abandoned {
      if ref.gen == r.gen && |r.log| - ref.absStart < r.capacity { AbandonedTestIsExact(r, ref); }
    } else {
      if |r.hist| - ref.absEnd < r.capacity { LiveTestIsExact(r, ref); }
    }
  }

  // ---------- invariant ----------

  predicate Names(e: Entry, b: nat) {
    e.DmaRef? && e.buf == b
  }

  /** No descriptor the device may still use names b. */
  ghost predicate Clean(r: Ring, b: nat) {
    forall p, e | r.Hot(p, e) :: !Names(e, b)
  }

  ghost predicate ActiveOk(r: Ring, u: Use, b: nat) {
    && u.gen <= r.gens
    && (u.gen == r.gens ==>
          && (forall p | |r.log| <= p < |r.hist| && Names(r.hist[p], b) :: u.first <= p)
          && (forall f <- r.fetched | f.0 >= |r.log| && Names(f.1, b) :: u.first <= f.0 < r.floor))
  }

  predicate Covers(r: Ring, i: nat, ref: Ref, p: nat) {
    ref.Ref? && ref.ring == i && (Stale(r, ref) || p < ref.absEnd)
  }

  ghost predicate Covered(r: Ring, i: nat, o: Orphan) {
    forall p, e | r.Hot(p, e) && Names(e, o.buf) :: exists j :: 0 <= j < |o.refs| && Covers(r, i, o.refs[j], p)
  }

  function ParkedSet(os: seq<Orphan>): set<nat> {
    set o <- os :: o.buf
  }

  function TotalSize(os: seq<Orphan>): nat {
    if os == [] then 0 else os[0].size + TotalSize(os[1..])
  }

  ghost predicate Distinct(os: seq<Orphan>) {
    forall j, k :: 0 <= j < k < |os| ==> os[j].buf != os[k].buf
  }

  predicate AllValid(rings: seq<Ring>) {
    forall i :: 0 <= i < |rings| ==> rings[i].Valid()
  }

  predicate RingsOk(s: System) {
    AllValid(s.rings)
  }

  /** Indices in range: all that the steps themselves need. */
  predicate Shaped(s: System) {
    forall i :: 0 <= i < |s.rings| ==> s.rings[i].Shaped()
  }

  predicate PassShaped(s: System) {
    && (!s.pass.NoPass? ==> s.pass.ring < |s.rings|)
    && (!s.pass.NoPass? && !s.pass.Clearing? ==> s.pass.pos < s.rings[s.pass.ring].capacity)
  }

  ghost predicate UsesOk(s: System) {
    forall b, i | b in s.uses && 0 <= i < |s.rings| ::
      if i in s.uses[b] then ActiveOk(s.rings[i], s.uses[b][i], b) else Clean(s.rings[i], b)
  }

  ghost predicate UseRings(s: System) {
    forall b <- s.uses :: forall i <- s.uses[b] :: i < |s.rings|
  }

  ghost predicate RefsOk(rings: seq<Ring>, o: Orphan)
    requires AllValid(rings)
  {
    && |o.refs| == ORPHAN_REFS
    && forall j :: 0 <= j < |o.refs| && o.refs[j].Ref? ==>
         var ref := o.refs[j]; ref.ring < |rings| && RefOk(rings[ref.ring], ref)
  }

  ghost predicate OrphansOk(s: System)
    requires RingsOk(s)
  {
    && (forall k :: 0 <= k < |s.orphans| ==> RefsOk(s.rings, s.orphans[k]))
    && (forall k, i | 0 <= k < |s.orphans| && 0 <= i < |s.rings| :: Covered(s.rings[i], i, s.orphans[k]))
  }

  ghost predicate OthersClean(s: System) {
    && (forall b, i | b in s.freed && 0 <= i < |s.rings| :: Clean(s.rings[i], b))
    && (forall b: nat, i | b >= s.next && 0 <= i < |s.rings| :: Clean(s.rings[i], b))
  }

  predicate Known(s: System, b: nat) {
    b in s.uses || b in ParkedSet(s.orphans) || b in s.freed || b in s.leaked
  }

  /** Every buffer ever allocated has exactly one fate: owned by a command, parked, freed or leaked. */
  ghost predicate OneFate(s: System) {
    && s.uses.Keys !! ParkedSet(s.orphans) !! s.freed !! s.leaked
    && (forall b: nat :: Known(s, b) <==> b < s.next)
    && Distinct(s.orphans)
  }

  ghost predicate Books(s: System) {
    s.count == |s.orphans| && s.bytes == TotalSize(s.orphans)
  }

  /** A resync in progress whose every DOORBELL write was in step has stopped its ring. */
  ghost predicate PassOk(s: System)
    requires RingsOk(s)
  {
    match s.pass
    case NoPass => true
    case HasRead(i, pos, at, _) =>
      i < |s.rings| && pos == at % s.rings[i].capacity && s.rings[i].seen <= at <= |s.rings[i].log|
    case HasWritten(i, pos, at, _) =>
      i < |s.rings| && s.rings[i].Idle() && pos == s.rings[i].position && at == |s.rings[i].log|
    case Settled(i, pos) => i < |s.rings| && s.rings[i].Idle() && pos == s.rings[i].position
    case Clearing(i) => i < |s.rings| && |s.rings[i].log| == |s.rings[i].hist|
  }

  ghost predicate Inv(s: System) {
    RingsOk(s) && UseRings(s) && UsesOk(s) && OrphansOk(s) && OthersClean(s) && OneFate(s) && Books(s)
  }

  /** The property: nothing the device can still act on names a freed buffer. */
  ghost predicate Safe(s: System) {
    forall i, p, e | 0 <= i < |s.rings| && s.rings[i].Hot(p, e) && e.DmaRef? :: e.buf !in s.freed
  }

  // ---------- steps ----------

  datatype Named = Nobody | OnRing(ring: nat, gen: nat)

  datatype SysOp =
    // device
    | DevFetch(i: nat, p: nat) | DevConsume(i: nat, e: Entry)
    // host, one ring
    | HostUpdatePos(i: nat) | HostPut(i: nat, e: Entry) | HostDoorbell(i: nat)
    | HostUnwind(i: nat, start: nat)
    // host, the accesses of a resync: POSITION, DOORBELL, POSITION again, then indices and pages
    | HostRead(i: nat) | HostWrite | HostCompare | HostResync(clear: bool) | HostClear(zero: Entry)
    // host, buffers
    | HostAlloc | HostFree(b: nat) | HostFreeAnswered(b: nat) | HostLeak(b: nat)
    | HostPark(b: nat, size: nat, on: seq<Named>)
    | HostCheckRef(k: nat, j: nat) | HostReclaim(k: nat)
    | HostTeardown(quiet: bool)

  function SetRing(s: System, i: nat, r: Ring): System
    requires i < |s.rings|
  {
    s.(rings := s.rings[i := r])
  }

  /** ua_dsp_orphans_abandon() for one reference; r is the ring at the resync point. */
  function AbandonRef(r: Ring, i: nat, ref: Ref): Ref
    requires IsCapacity(r.capacity)
  {
    if ref.NoRing? || ref.ring != i || ref.gen != r.gen then ref
    else if RefTest(r, ref) then NoRing
    else if ref.abandoned then ref
    else
      var need := Masked(ref.end - r.hwPos, r.capacity);
      ref.(abandoned := true, start := r.hwPos, need := need, gen := U32(r.gen + 1),
           absEnd := |r.log| + need, absStart := |r.log|, absGen := r.gens + 1)
  }

  function AbandonOrphan(r: Ring, i: nat, o: Orphan): Orphan
    requires IsCapacity(r.capacity)
  {
    o.(refs := seq(|o.refs|, j requires 0 <= j < |o.refs| => AbandonRef(r, i, o.refs[j])))
  }

  function AbandonAll(r: Ring, i: nat, os: seq<Orphan>): seq<Orphan>
    requires IsCapacity(r.capacity)
  {
    seq(|os|, k requires 0 <= k < |os| => AbandonOrphan(r, i, os[k]))
  }

  function ResyncOrphans(s: System, i: nat, pos: nat): seq<Orphan>
    requires i < |s.rings| && IsCapacity(s.rings[i].capacity)
  {
    if Abandons(s.rings[i], pos) then AbandonAll(At(s.rings[i], pos), i, s.orphans) else s.orphans
  }

  function NewRef(s: System, n: Named): Ref
    requires n.OnRing? ==> n.ring < |s.rings|
  {
    match n
    case Nobody => NoRing
    case OnRing(i, g) =>
      var r := s.rings[i];
      Ref(i, g, r.writePtr, 0, 0, false, |r.hist|, 0, 0)
  }

  /** The generation counter behind the 32-bit generation a caller passes for ring i. */
  function ParkGen(s: System, b: nat, i: nat): nat
    requires b in s.uses && i < |s.rings|
  {
    if i in s.uses[b] then s.uses[b][i].gen else s.rings[i].gens
  }

  function ParkRef(s: System, b: nat, n: Named): Ref
    requires b in s.uses && (n.OnRing? ==> n.ring < |s.rings|)
  {
    var ref := NewRef(s, n);
    if ref.Ref? then ref.(absGen := ParkGen(s, b, n.ring)) else ref
  }

  function RaiseFloor(rings: seq<Ring>, on: seq<Named>): seq<Ring> {
    seq(|rings|, i requires 0 <= i < |rings| =>
      if exists j :: 0 <= j < |on| && on[j].OnRing? && on[j].ring == i
      then rings[i].(floor := |rings[i].hist|) else rings[i])
  }

  function Without<T>(xs: seq<T>, k: nat): seq<T>
    requires k < |xs|
  {
    xs[..k] + xs[k + 1..]
  }

  function JoinUse(on: map<nat, Use>, i: nat, r: Ring): Use {
    if i in on && on[i].gen != r.gens then on[i]
    else if i in on && on[i].first <= |r.hist| then on[i]
    else Use(r.gens, |r.hist|)
  }

  function NoteUse(uses: map<nat, map<nat, Use>>, e: Entry, i: nat, r: Ring): map<nat, map<nat, Use>> {
    if e.DmaRef? && e.buf in uses then
      var on: map<nat, Use> := uses[e.buf][i := JoinUse(uses[e.buf], i, r)];
      uses[e.buf := on]
    else uses
  }

  predicate AllSettled(o: Orphan) {
    forall j :: 0 <= j < |o.refs| ==> o.refs[j].NoRing?
  }

  function Unsettled(os: seq<Orphan>): set<nat> {
    set o <- os | !AllSettled(o) :: o.buf
  }

  ghost predicate NothingHot(s: System) {
    forall i, p, e | 0 <= i < |s.rings| && s.rings[i].Hot(p, e) :: !e.DmaRef?
  }

  /** No reference of an older generation would meet its 32-bit generation again. */
  ghost predicate NoGenerationAlias(s: System, i: nat)
    requires i < |s.rings|
  {
    forall k, j | 0 <= k < |s.orphans| && 0 <= j < |s.orphans[k].refs| ::
      var ref := s.orphans[k].refs[j];
      ref.Ref? && ref.ring == i && !ref.abandoned && ref.absGen < s.rings[i].gens ==>
        s.rings[i].gens + 1 < ref.absGen + TWO_TO_THE_32
  }

  /** One lock serialises the driver: during a resync only its own accesses and the device run. */
  predicate Turn(s: System, op: SysOp) {
    match op
    case DevFetch(_, _) => true
    case DevConsume(_, _) => true
    case HostWrite => s.pass.HasRead?
    case HostCompare => s.pass.HasWritten?
    case HostResync(_) => s.pass.Settled?
    case HostClear(_) => s.pass.Clearing?
    case _ => s.pass.NoPass?
  }

  /** The DOORBELL value this step writes is where the device still stands. */
  predicate InStep(s: System, op: SysOp) {
    op.HostWrite? && s.pass.HasRead? && s.pass.ring < |s.rings| ==> s.pass.at == |s.rings[s.pass.ring].log|
  }

  ghost predicate Allowed(s: System, op: SysOp)
    requires Shaped(s)
  {
    PassShaped(s) && Turn(s, op) &&
    match op
    case DevFetch(i, p) => i < |s.rings| && |s.rings[i].log| <= p < s.rings[i].target
    case DevConsume(i, e) => i < |s.rings| && CanConsume(s.rings[i], e)
    case HostUpdatePos(i) => i < |s.rings|
    case HostPut(i, e) =>
      i < |s.rings| && s.rings[i].live && FreeSlots(s.rings[i]) > 0 && (e.DmaRef? ==> e.buf in s.uses)
    case HostDoorbell(i) => i < |s.rings|
    case HostUnwind(i, start) => i < |s.rings| && s.rings[i].floor <= start <= |s.rings[i].hist|
    case HostRead(i) => i < |s.rings|
    case HostWrite => true
    case HostCompare => true
    case HostResync(_) => Abandons(s.rings[s.pass.ring], s.pass.pos) ==> NoGenerationAlias(s, s.pass.ring)
    case HostClear(_) => true
    case HostAlloc => true
    case HostFree(b) => b in s.uses && MayFree(s, b)
    case HostFreeAnswered(b) =>
      b in s.uses && forall i :: 0 <= i < |s.rings| ==> Clean(s.rings[i], b)
    case HostLeak(b) => b in s.uses
    case HostPark(b, _, on) => b in s.uses && |on| == ORPHAN_REFS && MayPark(s, b, on)
    case HostCheckRef(k, j) =>
      k < |s.orphans| && j < |s.orphans[k].refs| && s.orphans[k].refs[j].Ref? && s.orphans[k].refs[j].ring < |s.rings|
    case HostReclaim(k) => k < |s.orphans| && AllSettled(s.orphans[k])
    case HostTeardown(quiet) => quiet ==> NothingHot(s)
  }

  /** What a command can see for itself: its buffer was never queued, or each ring it was queued
      on is in the same generation and either drained or withdrawn back to the first entry. */
  predicate MayFree(s: System, b: nat)
    requires b in s.uses && Shaped(s)
  {
    forall i <- s.uses[b] :: i < |s.rings| && s.uses[b][i].gen == s.rings[i].gens &&
      (Pending(s.rings[i]) == 0 || |s.rings[i].hist| <= s.uses[b][i].first)
  }

  /** The caller names every ring the buffer was queued on, with the generation it saw there. */
  predicate MayPark(s: System, b: nat, on: seq<Named>)
    requires b in s.uses
  {
    && (forall j :: 0 <= j < |on| && on[j].OnRing? ==>
          on[j].ring < |s.rings| && on[j].gen == U32(ParkGen(s, b, on[j].ring)) &&
          s.rings[on[j].ring].gens < ParkGen(s, b, on[j].ring) + TWO_TO_THE_32)
    && (forall i <- s.uses[b] :: exists j :: 0 <= j < |on| && on[j].OnRing? && on[j].ring == i)
  }

  const RESYNC_TRIES := 3

  ghost function Step(s: System, op: SysOp): System
    requires Shaped(s) && Allowed(s, op)
  {
    match op
    case DevFetch(i, p) => SetRing(s, i, Fetch(s.rings[i], p))
    case DevConsume(i, e) => SetRing(s, i, Consume(s.rings[i], e))
    case HostUpdatePos(i) => SetRing(s, i, UpdatePos(s.rings[i]))
    case HostPut(i, e) =>
      SetRing(s, i, PutSlot(s.rings[i], e)).(uses := NoteUse(s.uses, e, i, s.rings[i]))
    case HostDoorbell(i) => SetRing(s, i, RingDoorbell(s.rings[i]))
    case HostUnwind(i, start) => SetRing(s, i, Unwind(s.rings[i], start))
    case HostRead(i) => s.(pass := HasRead(i, s.rings[i].position, |s.rings[i].log|, 0))
    case HostWrite =>
      var HasRead(i, pos, at, tries) := s.pass;
      SetRing(s, i, WriteDoorbell(s.rings[i], pos)).(
        pass := if tries < RESYNC_TRIES then HasWritten(i, pos, at, tries) else Settled(i, pos))
    case HostCompare =>
      var HasWritten(i, pos, at, tries) := s.pass;
      var r := s.rings[i];
      s.(pass := if r.position == pos then Settled(i, pos) else HasRead(i, r.position, |r.log|, tries + 1))
    case HostResync(clear) =>
      var Settled(i, pos) := s.pass;
      SetRing(s, i, ResyncGen(s.rings[i], pos)).(
        orphans := ResyncOrphans(s, i, pos), pass := if clear then Clearing(i) else NoPass)
    case HostClear(zero) => SetRing(s, s.pass.ring, Clear(s.rings[s.pass.ring], zero)).(pass := NoPass)
    case HostAlloc =>
      var unused: map<nat, Use> := map[];
      s.(uses := s.uses[s.next := unused], next := s.next + 1)
    case HostFree(b) => s.(uses := s.uses - {b}, freed := s.freed + {b})
    case HostFreeAnswered(b) => s.(uses := s.uses - {b}, freed := s.freed + {b})
    case HostLeak(b) => s.(uses := s.uses - {b}, leaked := s.leaked + {b})
    case HostPark(b, size, on) =>
      var refs := seq(|on|, j requires 0 <= j < |on| => ParkRef(s, b, on[j]));
      s.(uses := s.uses - {b}, orphans := s.orphans + [Orphan(b, size, refs)], count := s.count + 1,
         bytes := s.bytes + size, rings := RaiseFloor(s.rings, on))
    case HostCheckRef(k, j) =>
      var o := s.orphans[k];
      var r := UpdatePos(s.rings[o.refs[j].ring]);
      var s1 := SetRing(s, o.refs[j].ring, r);
      if RefTest(r, o.refs[j]) then s1.(orphans := s.orphans[k := o.(refs := o.refs[j := NoRing])]) else s1
    case HostReclaim(k) =>
      s.(orphans := Without(s.orphans, k), freed := s.freed + {s.orphans[k].buf},
         count := if s.count > 0 then s.count - 1 else 0,
         bytes := if s.bytes >= s.orphans[k].size then s.bytes - s.orphans[k].size else 0)
    case HostTeardown(quiet) =>
      var kept := if quiet then {} else Unsettled(s.orphans);
      s.(orphans := [], count := 0, bytes := 0, leaked := s.leaked + kept,
         freed := s.freed + (ParkedSet(s.orphans) - kept))
  }
}
