/** The driver's ring and parking code, statement by statement, against the transition system:
    every method is a run of Orphans steps, so the whole-run theorem covers every caller; where a
    resync falls out of step, the state is still one a run leads to (OnRun), but no longer covered.

    Between any two register accesses the device may consume and prefetch as it likes
    (DeviceMoves).  Time-outs, allocation failures and answers are nondeterministic. */
module RingDriver {
  import opened Indices
  import opened RingModel
  import opened Orphans
  import opened DmaProof
  import opened Framing
  import ResyncSafety

  datatype Status = Ok | ENoDev | ENoSpc | E2Big | EBusy | ENoMem | ETimedOut | EInval | EIo
    | Lagged      // a resync on the way wrote a DOORBELL value the device had left behind

  const ORPHAN_MAX := 16
  const ORPHAN_MAX_BYTES := 8 * 1024 * 1024

  // ---------- what polling may change ----------

  /** r' is r after device progress and position reads: nothing queued, rung or withdrawn. */
  ghost predicate RingLooks(r: Ring, r': Ring) {
    && r' == r.(position := r'.position, log := r'.log, fetched := r'.fetched, hwPos := r'.hwPos, seen := r'.seen)
    && r.log <= r'.log && r.seen <= r'.seen
  }

  ghost predicate RingsLook(rs: seq<Ring>, rs': seq<Ring>) {
    |rs'| == |rs| && forall i :: 0 <= i < |rs| ==> RingLooks(rs[i], rs'[i])
  }

  ghost predicate Looks(s: System, t: System) {
    t == s.(rings := t.rings) && RingsLook(s.rings, t.rings)
  }

  /** r' is r after `es` was queued on it, with looking and ringing in between. */
  ghost predicate RingQueued(r: Ring, r': Ring, es: seq<Entry>) {
    && r'.capacity == r.capacity && r'.live == r.live && r'.gens == r.gens && r'.gen == r.gen
    && r'.hist == r.hist + es && r.log <= r'.log && r.seen <= r'.seen && r.target <= r'.target
  }

  ghost predicate Queued(s: System, t: System, i: nat, es: seq<Entry>) {
    && t == s.(rings := t.rings, uses := t.uses) && |t.rings| == |s.rings|
    && forall h :: 0 <= h < |s.rings| ==> RingQueued(s.rings[h], t.rings[h], if h == i then es else [])
  }

  lemma QueuedTrans(s: System, t: System, u: System, i: nat, es: seq<Entry>, more: seq<Entry>)
    requires Queued(s, t, i, es) && Queued(t, u, i, more)
    ensures Queued(s, u, i, es + more)
  {
  }

  lemma LooksQueued(s: System, t: System, i: nat)
    requires Looks(s, t)
    ensures Queued(s, t, i, [])
  {
  }

  /** Room on a ring after queueing: what there was, less what was queued, or more. */
  lemma QueueingUsesRoom(r: Ring, r': Ring, es: seq<Entry>)
    requires r.Valid() && r'.Valid() && RingQueued(r, r', es)
    ensures FreeSlots(r') >= FreeSlots(r) - |es|
  {
    Distances(r);
    Distances(r');
  }

  /** No parked reference is left over from an older generation. */
  ghost predicate Current(s: System) {
    forall k, j | 0 <= k < |s.orphans| && 0 <= j < |s.orphans[k].refs| ::
      var ref := s.orphans[k].refs[j];
      ref.Ref? && !ref.abandoned && ref.ring < |s.rings| ==> ref.absGen == s.rings[ref.ring].gens
  }

  lemma LooksTrans(s: System, t: System, u: System)
    requires Looks(s, t) && Looks(t, u)
    ensures Looks(s, u)
  {
  }

  lemma SameGenerationsCurrent(s: System, t: System)
    requires Current(s) && t.orphans == s.orphans && |t.rings| == |s.rings|
    requires forall i :: 0 <= i < |s.rings| ==> t.rings[i].gens == s.rings[i].gens
    ensures Current(t)
  {
  }

  lemma OneRingLooks(s: System, i: nat, r': Ring)
    requires i < |s.rings| && RingLooks(s.rings[i], r')
    ensures Looks(s, SetRing(s, i, r'))
  {
  }

  /** A state the driver can be in between two statements that matter. */
  ghost predicate Good(probe: System, s: System) {
    Inv(s) && PassOk(s) && Current(s) && Reaches(probe, s)
  }

  /** One device or position-reading step, packaged for the methods below. */
  lemma LookStep(probe: System, start: System, s: System, op: SysOp)
    requires Good(probe, s) && Allowed(s, op) && Looks(start, s)
    requires op.DevFetch? || op.DevConsume? || op.HostUpdatePos?
    ensures Good(probe, Step(s, op)) && Looks(start, Step(s, op))
  {
    StepReaches(s, op);
    ReachesTrans(probe, s, Step(s, op));
    match op {
      case DevFetch(i, p) => OneRingLooks(s, i, Fetch(s.rings[i], p));
      case DevConsume(i, e) => OneRingLooks(s, i, Consume(s.rings[i], e));
      case HostUpdatePos(i) => OneRingLooks(s, i, UpdatePos(s.rings[i]));
    }
    LooksTrans(start, s, Step(s, op));
    SameGenerationsCurrent(s, Step(s, op));
  }

  lemma StepQueues(s: System, op: SysOp)
    requires RingsOk(s) && Allowed(s, op) && (op.HostPut? || op.HostDoorbell?)
    ensures Queued(s, Step(s, op), op.i, if op.HostPut? then [op.e] else [])
  {
    if op.HostDoorbell? { DoorbellValid(s.rings[op.i]); }
    var t, es := Step(s, op), if op.HostPut? then [op.e] else [];
    forall h | 0 <= h < |s.rings| ensures RingQueued(s.rings[h], t.rings[h], if h == op.i then es else []) {
      assert s.rings[h].hist + [] == s.rings[h].hist;
    }
  }

  /** Steps that queue or ring leave generations and parked references alone. */
  lemma QueueStep(probe: System, start: System, s: System, op: SysOp)
    requires Good(probe, s) && Allowed(s, op) && Looks(start, s)
    requires op.HostPut? || op.HostDoorbell?
    ensures Good(probe, Step(s, op))
    ensures Queued(start, Step(s, op), op.i, if op.HostPut? then [op.e] else [])
  {
    var t, es := Step(s, op), if op.HostPut? then [op.e] else [];
    StepReaches(s, op);
    ReachesTrans(probe, s, t);
    StepQueues(s, op);
    QueuedKeepsCurrent(s, t, op.i, es);
    LooksQueued(start, s, op.i);
    QueuedTrans(start, s, t, op.i, [], es);
    assert [] + es == es;
  }

  lemma QueuedKeepsCurrent(s: System, t: System, i: nat, es: seq<Entry>)
    requires Current(s) && Queued(s, t, i, es)
    ensures Current(t)
  {
  }

  // ---------- what a reclaim pass may change ----------

  ghost predicate Reclaims(s: System, t: System) {
    && t == s.(rings := t.rings, orphans := t.orphans, count := t.count, bytes := t.bytes, freed := t.freed)
    && RingsLook(s.rings, t.rings)
    && t.count <= s.count && t.bytes <= s.bytes && s.freed <= t.freed
  }

  lemma ReclaimsTrans(s: System, t: System, u: System)
    requires Reclaims(s, t) && Reclaims(t, u)
    ensures Reclaims(s, u)
  {
  }

  lemma CheckRefCurrent(s: System, k: nat, j: nat)
    requires RingsOk(s) && Current(s) && Allowed(s, HostCheckRef(k, j))
    ensures Current(Step(s, HostCheckRef(k, j))) && Reclaims(s, Step(s, HostCheckRef(k, j)))
    ensures Step(s, HostCheckRef(k, j)).orphans[k].buf == s.orphans[k].buf
  {
  }

  lemma ReclaimCurrent(s: System, k: nat)
    requires RingsOk(s) && Current(s) && Books(s) && Allowed(s, HostReclaim(k))
    ensures Current(Step(s, HostReclaim(k))) && Reclaims(s, Step(s, HostReclaim(k)))
  {
  }

  lemma ReclaimStep(probe: System, start: System, s: System, op: SysOp)
    requires Good(probe, s) && Allowed(s, op) && Reclaims(start, s)
    requires op.HostCheckRef? || op.HostReclaim?
    ensures Good(probe, Step(s, op)) && Reclaims(start, Step(s, op))
  {
    StepReaches(s, op);
    ReachesTrans(probe, s, Step(s, op));
    if op.HostCheckRef? { CheckRefCurrent(s, op.k, op.j); } else { ReclaimCurrent(s, op.k); }
    ReclaimsTrans(start, s, Step(s, op));
  }

  // ---------- what a reclaim pass must free ----------

  /** The test passes on the rings as they are. */
  predicate TestPasses(rs: seq<Ring>, ref: Ref) {
    ref.Ref? ==> ref.ring < |rs| && IsCapacity(rs[ref.ring].capacity) && RefTest(rs[ref.ring], ref)
  }

  /** The ring is done with it, and will stay within the window in which the test is exact. */
  predicate RefDue(r: Ring, ref: Ref)
    requires ref.Ref?
  {
    && |r.log| >= ref.absEnd && ref.gen == r.gen
    && if ref.abandoned then r.target < ref.absStart + r.capacity
       else ref.absGen == r.gens && |r.hist| < ref.absEnd + r.capacity
  }

  predicate RefIsDue(rs: seq<Ring>, ref: Ref) {
    ref.Ref? ==> ref.ring < |rs| && RefDue(rs[ref.ring], ref)
  }

  ghost predicate Due(rs: seq<Ring>, o: Orphan) {
    forall j :: 0 <= j < |o.refs| ==> RefIsDue(rs, o.refs[j])
  }

  lemma DuePasses(r: Ring, ref: Ref)
    requires r.Valid() && ref.Ref? && RefOk(r, ref) && RefDue(r, ref)
    ensures RefTest(UpdatePos(r), ref)
  {
    UpdatePosValid(r);
    ConsumedTestIsExact(UpdatePos(r), ref);
  }

  lemma DueAfterLooking(r: Ring, r': Ring, ref: Ref)
    requires RingLooks(r, r') && ref.Ref? && RefDue(r, ref)
    ensures RefDue(r', ref)
  {
  }

  lemma DueIsSettled(s: System, t: System, k: nat, j: nat)
    requires Looks(s, t) && Inv(t) && k < |t.orphans| && j < |t.orphans[k].refs| && t.orphans[k].refs[j].Ref?
    ensures var ref := t.orphans[k].refs[j];
            && ref.ring < |t.rings| && t.rings[ref.ring].Valid()
            && (RefIsDue(s.rings, ref) ==> RefTest(UpdatePos(t.rings[ref.ring]), ref))
  {
    assert RefsOk(t.rings, t.orphans[k]);
    var ref := t.orphans[k].refs[j];
    if RefIsDue(s.rings, ref) {
      DueAfterLooking(s.rings[ref.ring], t.rings[ref.ring], ref);
      DuePasses(t.rings[ref.ring], ref);
    }
  }

  lemma DueRefAfterLooking(rs: seq<Ring>, rs': seq<Ring>, o: Orphan, j: nat)
    requires RingsLook(rs, rs') && j < |o.refs|
    ensures Due(rs, o) ==> RefIsDue(rs', o.refs[j])
  {
    if Due(rs, o) {
      assert RefIsDue(rs, o.refs[j]);
    }
  }

  lemma DueOrphanAfterLooking(rs: seq<Ring>, rs': seq<Ring>, o: Orphan)
    requires RingsLook(rs, rs')
    ensures Due(rs, o) ==> Due(rs', o)
  {
    forall j | 0 <= j < |o.refs| ensures Due(rs, o) ==> RefIsDue(rs', o.refs[j]) { DueRefAfterLooking(rs, rs', o, j); }
  }

  /** While no command gains or gives up a buffer, what is parked or freed stays parked or freed. */
  lemma FatesKept(s: System, t: System)
    requires Inv(s) && Inv(t) && t.uses == s.uses && t.leaked == s.leaked && t.next == s.next
    ensures ParkedSet(t.orphans) + t.freed == ParkedSet(s.orphans) + s.freed
  {
    forall b: nat ensures b in ParkedSet(t.orphans) + t.freed <==> b in ParkedSet(s.orphans) + s.freed {
      assert Known(s, b) <==> b < s.next;
      assert Known(t, b) <==> b < t.next;
    }
  }

  lemma GoodFatesKept(probe: System, s: System, t: System)
    requires Good(probe, s) && Good(probe, t) && Reclaims(s, t)
    ensures ParkedSet(t.orphans) + t.freed == ParkedSet(s.orphans) + s.freed
  {
    FatesKept(s, t);
  }

  lemma LooksReclaims(start: System, s: System, t: System)
    requires Reclaims(start, s) && Looks(s, t)
    ensures Reclaims(start, t)
  {
  }

  lemma NoteUseAfterLooking(s: System, t: System, i: nat, e: Entry)
    requires Looks(s, t) && i < |s.rings|
    ensures NoteUse(t.uses, e, i, t.rings[i]) == NoteUse(s.uses, e, i, s.rings[i])
  {
  }

  // ---------- what the longer operations may change ----------

  /** Outside `but`, rings were at most looked at and rung; everywhere capacity and liveness stay. */
  ghost predicate RingsKeep(rs: seq<Ring>, rs': seq<Ring>, but: set<nat>) {
    && |rs'| == |rs|
    && (forall h :: 0 <= h < |rs| ==> rs'[h].capacity == rs[h].capacity && (rs[h].live ==> rs'[h].live))
    && (forall h: nat :: h < |rs| && h !in but ==> RingQueued(rs[h], rs'[h], []))
  }

  lemma RingsKeepTrans(a: seq<Ring>, b: seq<Ring>, c: seq<Ring>, but: set<nat>, more: set<nat>)
    requires RingsKeep(a, b, but) && RingsKeep(b, c, more)
    ensures RingsKeep(a, c, but + more)
  {
  }

  lemma LooksKeep(s: System, t: System)
    requires RingsLook(s.rings, t.rings)
    ensures RingsKeep(s.rings, t.rings, {})
  {
  }

  lemma QueuedKeeps(s: System, t: System, i: nat, es: seq<Entry>)
    requires Queued(s, t, i, es)
    ensures RingsKeep(s.rings, t.rings, if es == [] then {} else {i})
  {
  }

  /** b is owned by a command and was queued at most on ring i, in its present generation. */
  ghost predicate OnlyOn(s: System, b: nat, i: nat)
    requires i < |s.rings|
  {
    b in s.uses && forall h <- s.uses[b] :: h == i && s.uses[b][h].gen == s.rings[i].gens
  }

  lemma GoodRing(probe: System, s: System, i: nat)
    requires Good(probe, s) && i < |s.rings|
    ensures s.rings[i].Valid()
  {
  }

  lemma GoodRings(probe: System, s: System)
    requires Good(probe, s)
    ensures RingsOk(s)
  {
  }

  lemma StepKeepsGood(probe: System, s: System, op: SysOp)
    requires Good(probe, s) && Allowed(s, op)
    requires op.HostAlloc? || op.HostFree? || op.HostFreeAnswered? || op.HostLeak?
    ensures Good(probe, Step(s, op))
  {
    StepReaches(s, op);
    ReachesTrans(probe, s, Step(s, op));
    SameGenerationsCurrent(s, Step(s, op));
  }

  /** A drained ring has spent every descriptor of a buffer queued on it alone. */
  lemma AnsweredIsClean(s: System, b: nat, i: nat)
    requires Inv(s) && s.pass == NoPass && i < |s.rings| && OnlyOn(s, b, i) && |s.rings[i].log| == |s.rings[i].hist|
    ensures Allowed(s, HostFreeAnswered(b))
  {
  }

  lemma ParkAllowed(s: System, b: nat, size: nat, i: nat)
    requires Inv(s) && s.pass == NoPass && i < |s.rings| && OnlyOn(s, b, i)
    ensures ParkGen(s, b, i) == s.rings[i].gens
    ensures Allowed(s, HostPark(b, size, [OnRing(i, s.rings[i].gen), Nobody]))
  {
    var on := [OnRing(i, s.rings[i].gen), Nobody];
    assert s.rings[i].Valid();
    assert on[0].OnRing? && on[0].ring == i;
  }

  lemma ParkEffect(s: System, b: nat, size: nat, i: nat)
    requires RingsOk(s) && Current(s) && i < |s.rings| && b in s.uses && ParkGen(s, b, i) == s.rings[i].gens
    requires Allowed(s, HostPark(b, size, [OnRing(i, s.rings[i].gen), Nobody]))
    ensures var t := Step(s, HostPark(b, size, [OnRing(i, s.rings[i].gen), Nobody]));
            Current(t) && RingsKeep(s.rings, t.rings, {})
  {
  }

  lemma ParkStep(probe: System, s: System, b: nat, size: nat, i: nat)
    requires Good(probe, s) && s.pass == NoPass && i < |s.rings| && OnlyOn(s, b, i)
    ensures var op := HostPark(b, size, [OnRing(i, s.rings[i].gen), Nobody]);
            Allowed(s, op) && Good(probe, Step(s, op)) && RingsKeep(s.rings, Step(s, op).rings, {})
    ensures ParkGen(s, b, i) == s.rings[i].gens
  {
    var op := HostPark(b, size, [OnRing(i, s.rings[i].gen), Nobody]);
    ParkAllowed(s, b, size, i);
    ParkEffect(s, b, size, i);
    StepReaches(s, op);
    ReachesTrans(probe, s, Step(s, op));
  }

  lemma AbandonEffect(s: System, i: nat, t: System)
    requires RingsOk(s) && OrphansOk(s) && Current(s) && i < |s.rings| && s.rings[i].Idle()
    requires |t.rings| == |s.rings| && t.orphans == ResyncOrphans(s, i, s.rings[i].position)
    requires forall h :: 0 <= h < |s.rings| && h != i ==> t.rings[h] == s.rings[h]
    requires t.rings[i] == ResyncGen(s.rings[i], s.rings[i].position)
    ensures Current(t)
  {
    ResyncValid(s.rings[i]);
  }

  /** With every reference current, a resync point leaves every reference current. */
  lemma AbandonCurrent(probe: System, s: System, clear: bool)
    requires Good(probe, s) && s.pass.Settled?
    ensures Allowed(s, HostResync(clear)) && Good(probe, Step(s, HostResync(clear)))
  {
    assert NoGenerationAlias(s, s.pass.ring);
    AbandonEffect(s, s.pass.ring, Step(s, HostResync(clear)));
    StepReaches(s, HostResync(clear));
    ReachesTrans(probe, s, Step(s, HostResync(clear)));
  }

  /** Register accesses and page clearing leave generations and parked references alone. */
  lemma PassStep(probe: System, s: System, op: SysOp)
    requires Good(probe, s) && Allowed(s, op) && InStep(s, op)
    requires op.HostRead? || op.HostWrite? || op.HostCompare? || op.HostClear?
    ensures Good(probe, Step(s, op))
  {
    StepReaches(s, op);
    ReachesTrans(probe, s, Step(s, op));
    SameGenerationsCurrent(s, Step(s, op));
  }

  /** r' is r after device progress, position reads and DOORBELL writes. */
  ghost predicate RingDriven(r: Ring, r': Ring) {
    && r' == r.(position := r'.position, log := r'.log, fetched := r'.fetched, hwPos := r'.hwPos, seen := r'.seen,
                doorbell := r'.doorbell, target := r'.target)
    && r.log <= r'.log
  }

  /** r' is r with the device stopped where it came to. */
  ghost predicate RingStops(r: Ring, r': Ring) {
    RingDriven(r, r') && r'.Idle()
  }

  // ---------- a resync that falls out of step ----------

  /** r' is r after the device alone has moved. */
  ghost predicate RingRuns(r: Ring, r': Ring) {
    r' == r.(position := r'.position, log := r'.log, fetched := r'.fetched) && r.log <= r'.log
  }

  ghost predicate Runs(s: System, t: System) {
    && t == s.(rings := t.rings) && |t.rings| == |s.rings|
    && forall i :: 0 <= i < |s.rings| ==> RingRuns(s.rings[i], t.rings[i])
  }

  /** POSITION is the index of the consumer counter, and the device has not passed its target. */
  predicate Tracked(r: Ring) {
    r.capacity > 0 && r.position == |r.log| % r.capacity && |r.log| <= r.target
  }

  /** POSITION was read as `pos` when the counter was `at`, and the device may go less than a ring on. */
  predicate ReadAt(r: Ring, pos: nat, at: nat) {
    Tracked(r) && pos == at % r.capacity && at <= |r.log| && r.target < at + r.capacity
  }

  /** DOORBELL was last written with `pos`: the device is told to stop there, or a whole ring on. */
  predicate LeftAt(r: Ring, pos: nat, at: nat) {
    && Tracked(r) && pos == at % r.capacity && at <= |r.log|
    && (r.target == at || (r.target == at + r.capacity && at < |r.log|))
  }

  /** Any state a run leads to, in step or not. */
  ghost predicate Anywhere(probe: System, s: System) {
    Init(probe) && Arrives(probe, s) && Shaped(s) && PassShaped(s)
  }

  lemma GoodIsAnywhere(probe: System, s: System)
    requires Init(probe) && Good(probe, s)
    ensures Anywhere(probe, s)
  {
  }

  lemma StepAnywhere(probe: System, s: System, op: SysOp)
    requires Anywhere(probe, s) && Allowed(s, op)
    ensures Anywhere(probe, Step(s, op))
  {
    hide Step, Allowed;
    StepArrives(probe, s, op);
    ResyncSafety.StepKeepsShape(s, op);
  }

  lemma DeviceRunsOn(probe: System, start: System, s: System, op: SysOp, i: nat)
    requires Anywhere(probe, s) && Allowed(s, op) && Runs(start, s) && (op.DevFetch? || op.DevConsume?)
    requires Shaped(s) && i < |s.rings| && Tracked(s.rings[i])
    ensures Anywhere(probe, Step(s, op)) && Runs(start, Step(s, op)) && Tracked(Step(s, op).rings[i])
  {
    hide Anywhere;
    StepAnywhere(probe, s, op);
    if op.DevConsume? { NextIndex(|s.rings[op.i].log|, s.rings[op.i].capacity); }
  }

  /** r' is r with producer and cached position at one index. */
  predicate Rewound(r: Ring, r': Ring) {
    r'.capacity == r.capacity && r'.writePtr == r'.hwPos && r'.slots == r.slots && r'.live == r.live
  }

  lemma RewoundIsEmpty(r: Ring)
    requires r.Shaped() && r.writePtr == r.hwPos
    ensures Pending(r) == 0 && FreeSlots(r) == r.capacity - 1
  {
    SmallRemainder(0, r.capacity);
    RingRoom(0, 0, r.capacity);
  }

  /** What a program makes of ring r, as the driver sees it. */
  predicate Programmed(r: Ring, r': Ring) {
    && r'.live && r'.capacity == r.capacity && IsCapacity(r'.capacity) && FreeSlots(r') == r'.capacity - 1
    && forall e <- r'.slots :: e == Inline(0, 0, 0, 0)
  }

  lemma LeftIsTracked(r: Ring, pos: nat, at: nat)
    requires LeftAt(r, pos, at)
    ensures Tracked(r)
  {
  }

  lemma OthersLookSame(a: seq<Ring>, b: seq<Ring>, c: seq<Ring>, i: nat)
    requires i < |b| == |c| && OthersLook(a, b, i) && c == b[i := c[i]]
    ensures OthersLook(a, c, i)
  {
  }

  lemma RunsElsewhere(a: seq<Ring>, b: seq<Ring>, c: seq<Ring>, i: nat)
    requires OthersLook(a, b, i)
    requires |c| == |b| && forall h :: 0 <= h < |b| ==> RingRuns(b[h], c[h])
    ensures OthersLook(a, c, i)
  {
  }

  lemma RunsIsLooks(a: seq<Ring>, b: seq<Ring>, c: seq<Ring>, i: nat)
    requires i < |a| && OthersLook(a, b, i) && RingDriven(a[i], b[i])
    requires |c| == |b| && forall h :: 0 <= h < |b| ==> RingRuns(b[h], c[h])
    ensures OthersLook(a, c, i) && RingDriven(a[i], c[i])
  {
  }

  lemma LaggingWrite(r: Ring, pos: nat, at: nat)
    requires r.Shaped() && ReadAt(r, pos, at)
    ensures LeftAt(WriteDoorbell(r, pos), pos, at)
  {
    IndexBehind(at, |r.log|, r.capacity);
  }

  lemma NextRead(r: Ring, pos: nat, at: nat)
    requires r.Shaped() && LeftAt(r, pos, at) && r.position != pos
    ensures ReadAt(r, r.position, |r.log|)
  {
  }

  lemma GoodIsCurrent(probe: System, s: System)
    requires Good(probe, s)
    ensures Current(s)
  {
  }

  lemma ReadStands(probe: System, s: System)
    requires Init(probe) && Good(probe, s) && s.pass.HasRead?
    ensures Anywhere(probe, s) && s.pass.ring < |s.rings| && ReadAt(s.rings[s.pass.ring], s.pass.pos, s.pass.at)
  {
    hide Arrives, Reaches;
    GoodIsAnywhere(probe, s);
    assert s.rings[s.pass.ring].Valid();
  }

  lemma StoppedAt(probe: System, s: System, i: nat)
    requires Init(probe) && Good(probe, s) && i < |s.rings| && s.rings[i].Idle()
    ensures Anywhere(probe, s) && LeftAt(s.rings[i], s.rings[i].position, |s.rings[i].log|)
  {
    hide Arrives, Reaches;
    GoodIsAnywhere(probe, s);
    assert s.rings[i].Valid();
  }

  lemma DrivenCurrent(s: System, t: System, i: nat)
    requires Current(s) && t.orphans == s.orphans && i < |s.rings|
    requires OthersLook(s.rings, t.rings, i) && RingDriven(s.rings[i], t.rings[i])
    ensures Current(t)
  {
  }

  /** Everything but ring i was at most looked at. */
  ghost predicate OthersLook(rs: seq<Ring>, rs': seq<Ring>, i: nat) {
    |rs'| == |rs| && forall h :: 0 <= h < |rs| && h != i ==> RingLooks(rs[h], rs'[h])
  }

  lemma RingsLookTrans(a: seq<Ring>, b: seq<Ring>, c: seq<Ring>)
    requires RingsLook(a, b) && RingsLook(b, c)
    ensures RingsLook(a, c)
  {
  }

  /** r' is r with nothing queued any more. */
  ghost predicate RingResynced(r: Ring, r': Ring) {
    && r'.Valid() && r'.capacity == r.capacity && r'.live == r.live && r'.log == r.log
    && r'.Idle() && |r'.hist| == |r'.log| && Pending(r') == 0
  }

  lemma StopsAfter(a: seq<Ring>, b: seq<Ring>, c: seq<Ring>, d: seq<Ring>, i: nat)
    requires i < |a| && RingsLook(a, b) && |c| == |b| && RingsLook(c, d) && d[i].Idle()
    requires c == b[i := c[i]] && c[i] == b[i].(doorbell := c[i].doorbell, target := c[i].target)
    ensures OthersLook(a, d, i) && RingStops(a[i], d[i])
  {
  }

  lemma OthersLookTrans(a: seq<Ring>, b: seq<Ring>, c: seq<Ring>, i: nat)
    requires OthersLook(a, b, i) && OthersLook(b, c, i)
    ensures OthersLook(a, c, i)
  {
  }

  /** A device that has consumed everything it was told of stays where it is. */
  lemma LooksKeepsIdle(r: Ring, r': Ring)
    requires RingLooks(r, r') && r'.Valid() && r.Idle()
    ensures r'.Idle() && r'.log == r.log
  {
    assert |r'.log| <= r'.target == |r.log|;
  }

  /** References of a buffer only ring i names: everything up to the producer index. */
  function EndRefs(i: nat, r: Ring): seq<Ref> {
    [Ref(i, r.gen, r.writePtr, 0, 0, false, |r.hist|, 0, r.gens), NoRing]
  }

  lemma RaisedOne(rings: seq<Ring>, i: nat, gen: nat)
    requires i < |rings|
    ensures RaiseFloor(rings, [OnRing(i, gen), Nobody]) == rings[i := rings[i].(floor := |rings[i].hist|)]
  {
    var on := [OnRing(i, gen), Nobody];
    assert on[0].OnRing? && on[0].ring == i;
  }

  lemma OnlyOnKept(s: System, t: System, b: nat, i: nat)
    requires i < |s.rings| && OnlyOn(s, b, i)
    requires RingsKeep(s.rings, t.rings, {}) && b in t.uses && t.uses[b] == s.uses[b]
    ensures OnlyOn(t, b, i)
  {
  }

  lemma QueueingElsewhere(s: System, t: System, b: nat, i: nat, h: nat, es: seq<Entry>)
    requires i < |s.rings| && Queued(s, t, h, es) && OnlyOn(s, b, i) && b in t.uses && t.uses[b] == s.uses[b]
    ensures OnlyOn(t, b, i)
  {
  }

  lemma QueueingKeepsOnly(s: System, t: System, b: nat, i: nat, e: Entry, h: nat, es: seq<Entry>)
    requires i < |s.rings| && h < |s.rings| && Queued(s, t, h, es) && OnlyOn(s, b, i)
    requires t.uses == NoteUse(s.uses, e, h, s.rings[h]) && (Names(e, b) ==> h == i)
    ensures OnlyOn(t, b, i)
  {
  }

  /** Apart from the buffers in `but`, every command buffer's record is as it was. */
  ghost predicate UsesKept(u: map<nat, map<nat, Use>>, u': map<nat, map<nat, Use>>, but: set<nat>) {
    u'.Keys == u.Keys && forall x <- u.Keys - but :: u'[x] == u[x]
  }

  lemma UsesKeptRefl(u: map<nat, map<nat, Use>>, but: set<nat>)
    ensures UsesKept(u, u, but)
  {
  }

  lemma UsesKeptTrans(u: map<nat, map<nat, Use>>, v: map<nat, map<nat, Use>>, w: map<nat, map<nat, Use>>,
                      but: set<nat>)
    requires UsesKept(u, v, but) && UsesKept(v, w, but)
    ensures UsesKept(u, w, but)
  {
  }

  function SramEntries(sramAddr: nat, size: nat, b: nat): seq<Entry> {
    [Inline(0x0008_0004, sramAddr, 0, size / 4), DmaRef(size / 4, b, 0)]
  }

  /** DSP d's two rings are allocated at their full size and programmed. */
  predicate Ready(rings: seq<Ring>, dsp: nat) {
    2 * dsp + 1 < |rings| ==>
      && rings[2 * dsp].live && rings[2 * dsp].capacity == RING_ENTRIES
      && rings[2 * dsp + 1].live && rings[2 * dsp + 1].capacity == RING_ENTRIES
  }

  /** The list's bound while sends go through the gate: below the caps plus one command's buffers. */
  predicate WithinCaps(count: nat, bytes: nat) {
    count < ORPHAN_MAX + 3 && bytes < ORPHAN_MAX_BYTES + FW_MAX_SIZE + 2 * PAGE
  }

  lemma DrainedMayFree(s: System, b: nat, i: nat)
    requires RingsOk(s) && i < |s.rings| && OnlyOn(s, b, i) && Pending(s.rings[i]) == 0
    ensures b in s.uses && MayFree(s, b)
  {
  }

  /** The coherent buffers' contents. */
  class DmaMemory {
    var words: Memory

    constructor ()
      ensures words == map[]
    {
      words := map[];
    }
  }

  class DspHost {
    var rings: seq<Ring>
    var orphans: seq<Orphan>
    var orphanCount: nat
    var orphanBytes: nat
    var next: nat
    var pass: Pass
    ghost var uses: map<nat, map<nat, Use>>
    ghost var freed: set<nat>
    ghost var leaked: set<nat>
    ghost const probe: System

    ghost function Sys(): System
      reads this
    {
      System(rings, pass, orphans, orphanCount, orphanBytes, uses, freed, leaked, next)
    }

    /** The driver is in a state some run of legal steps leads to from probe, every resync on the way
        in step with the device. */
    ghost predicate Live()
      reads this
    {
      Init(probe) && Good(probe, Sys())
    }

    /** ... and no resync is under way. */
    ghost predicate Valid()
      reads this
    {
      Live() && pass == NoPass
    }

    constructor (rings: seq<Ring>)
      requires AllValid(rings) && NothingHot(System(rings, NoPass, [], 0, 0, map[], {}, {}, 0))
      ensures Valid() && this.rings == rings && orphans == []
    {
      this.rings, orphans, orphanCount, orphanBytes, next, pass := rings, [], 0, 0, 0, NoPass;
      uses, freed, leaked := map[], {}, {};
      probe := System(rings, NoPass, [], 0, 0, map[], {}, {}, 0);
      new;
      ReachesRefl(probe);
      ReachableIsSafe(probe, probe);
    }

    // ---------- the device, concurrently ----------

    method DeviceMoves()
      requires Live()
      modifies `rings
      ensures Live() && Looks(old(Sys()), Sys())
    {
      var steps: nat :| true;
      while steps > 0
        invariant Live() && Looks(old(Sys()), Sys())
      {
        var i: nat :| true;
        if i < |rings| && |rings[i].log| < rings[i].target { DeviceStep(i, old(Sys())); }
        steps := steps - 1;
      }
    }

    method DeviceStep(i: nat, ghost start: System)
      requires Live() && i < |rings| && |rings[i].log| < rings[i].target && Looks(start, Sys())
      modifies `rings
      ensures Live() && Looks(start, Sys())
    {
      var r := rings[i];
      var prefetch, early: bool := *, *;
      if prefetch {
        var p: nat :| true;
        if |r.log| <= p < r.target {
          LookStep(probe, start, Sys(), DevFetch(i, p));
          rings := rings[i := Fetch(r, p)];
        }
      } else {
        var e := r.slots[|r.log| % r.capacity];
        if early && r.fetched != {} {
          var f :| f in r.fetched;
          if f.0 == |r.log| { e := f.1; }
        }
        LookStep(probe, start, Sys(), DevConsume(i, e));
        rings := rings[i := Consume(r, e)];
      }
    }

    // ---------- ring ----------

    /** ua_dsp_ring_update_pos() */
    method UpdatePosition(i: nat)
      requires Valid() && i < |rings|
      modifies `rings
      ensures Valid() && Looks(old(Sys()), Sys())
      ensures old(|rings[i].log|) <= rings[i].seen
    {
      DeviceMoves();
      LookStep(probe, old(Sys()), Sys(), HostUpdatePos(i));
      UpdatePosValid(rings[i]);
      var pos := rings[i].position;
      if pos < rings[i].capacity { rings := rings[i := rings[i].(hwPos := pos, seen := |rings[i].log|)]; }
    }

    /** ua_dsp_ring_wait_space(): afterwards n puts need no further look at the device. */
    method WaitSpace(i: nat, n: nat, timeoutMs: nat) returns (st: Status)
      requires Valid() && i < |rings|
      modifies `rings
      ensures Valid() && Looks(old(Sys()), Sys())
      ensures st == E2Big <==> n >= rings[i].capacity
      ensures st == Ok ==> FreeSlots(rings[i]) >= n
      ensures st == ENoSpc ==> FreeSlots(rings[i]) < n
      ensures st in {Ok, E2Big, ENoSpc}
    {
      if n >= rings[i].capacity { return E2Big; }
      var waited := 0;
      while true
        invariant Valid() && Looks(old(Sys()), Sys())
        invariant waited <= timeoutMs
        decreases timeoutMs - waited
      {
        if FreeSlots(rings[i]) >= n { return Ok; }
        UpdatePosition(i);
        if FreeSlots(rings[i]) >= n { return Ok; }
        if waited >= timeoutMs { return ENoSpc; }
        waited := waited + 1;
      }
    }

    /** ua_dsp_ring_wait_idle() */
    method WaitIdle(i: nat, timeoutMs: nat) returns (idle: bool)
      requires Valid() && i < |rings|
      modifies `rings
      ensures Valid() && Looks(old(Sys()), Sys())
      ensures idle <==> Pending(rings[i]) == 0
      ensures idle ==> |rings[i].log| == |rings[i].hist|
    {
      var waited := 0;
      while true
        invariant Valid() && Looks(old(Sys()), Sys())
        invariant waited <= timeoutMs
        decreases timeoutMs - waited
      {
        UpdatePosition(i);
        Distances(rings[i]);
        if Pending(rings[i]) == 0 { return true; }
        if waited >= timeoutMs { return false; }
        waited := waited + 1;
      }
    }

    /** ua_dsp_ring_put_entry() */
    method PutEntry(i: nat, e: Entry) returns (st: Status)
      requires Valid() && i < |rings| && rings[i].live && (e.DmaRef? ==> e.buf in uses)
      modifies `rings, `uses
      ensures Valid()
      ensures st == ENoSpc || st == Ok
      ensures old(FreeSlots(rings[i])) > 0 ==> st == Ok
      ensures st == Ok ==> Queued(old(Sys()), Sys(), i, [e]) && uses == old(NoteUse(uses, e, i, rings[i]))
      ensures st == ENoSpc ==> Looks(old(Sys()), Sys()) && FreeSlots(rings[i]) == 0
    {
      if FreeSlots(rings[i]) == 0 {
        UpdatePosition(i);
        if FreeSlots(rings[i]) == 0 { return ENoSpc; }
      }
      Place(i, e, old(Sys()));
      return Ok;
    }

    /** The store half of a put, with a slot known to be free. */
    method Place(i: nat, e: Entry, ghost start: System)
      requires Valid() && i < |rings| && rings[i].live && (e.DmaRef? ==> e.buf in uses)
      requires FreeSlots(rings[i]) > 0 && Looks(start, Sys())
      modifies `rings, `uses
      ensures Valid() && Queued(start, Sys(), i, [e])
      ensures uses == NoteUse(start.uses, e, i, start.rings[i])
    {
      ghost var t := Step(Sys(), HostPut(i, e));
      QueueStep(probe, start, Sys(), HostPut(i, e));
      NoteUseAfterLooking(start, Sys(), i, e);
      var r := rings[i];
      uses := NoteUse(uses, e, i, r);
      rings := rings[i := PutSlot(r, e)];
      assert Sys() == t;
    }

    /** ua_dsp_ring_doorbell() */
    method Doorbell(i: nat)
      requires Valid() && i < |rings|
      modifies `rings
      ensures Valid()
      ensures Queued(old(Sys()), Sys(), i, []) && uses == old(uses)
      ensures rings[i].target == |rings[i].hist|
    {
      DeviceMoves();
      QueueStep(probe, old(Sys()), Sys(), HostDoorbell(i));
      DoorbellValid(rings[i]);
      rings := rings[i := RingDoorbell(rings[i])];
    }

    // ---------- parked buffers ----------

    /** ua_orphan_ref_done() and, on yes, `ref[j].ring = NULL`: the reference goes exactly when it was
        gone already or the test passes on the ring as just read. */
    method CheckRef(k: nat, j: nat, ghost start: System) returns (done: bool)
      requires Valid() && k < |orphans| && j < |orphans[k].refs| && Reclaims(start, Sys())
      modifies `rings, `orphans
      ensures Valid() && Reclaims(start, Sys()) && RingsLook(old(rings), rings)
      ensures |orphans| == old(|orphans|) && forall h :: 0 <= h < |orphans| && h != k ==> orphans[h] == old(orphans[h])
      ensures k < |orphans| && |orphans[k].refs| == |old(orphans[k].refs)|
      ensures orphans[k] == old(orphans[k]).(refs := orphans[k].refs)
      ensures orphans[k].refs == old(orphans[k].refs)[j := if done then NoRing else old(orphans[k].refs[j])]
      ensures done <==> orphans[k].refs[j].NoRing?
      ensures done <==> TestPasses(rings, old(orphans[k].refs[j]))
      ensures old(RefIsDue(rings, orphans[k].refs[j])) ==> done
    {
      var ref := orphans[k].refs[j];
      if ref.NoRing? { return true; }
      assert RefsOk(rings, orphans[k]);
      var i := ref.ring;
      if rings[i].gen != ref.gen { return false; }
      ghost var before := Sys();
      DeviceMoves();
      LooksReclaims(start, before, Sys());
      DueIsSettled(before, Sys(), k, j);
      done := ApplyTest(k, j, i, start);
    }

    /** The test itself, on the ring as it now stands. */
    method ApplyTest(k: nat, j: nat, i: nat, ghost start: System) returns (done: bool)
      requires Valid() && k < |orphans| && j < |orphans[k].refs| && Reclaims(start, Sys())
      requires orphans[k].refs[j].Ref? && orphans[k].refs[j].ring == i < |rings| && IsCapacity(rings[i].capacity)
      modifies `rings, `orphans
      ensures Valid() && Reclaims(start, Sys())
      ensures rings == old(rings[i := UpdatePos(rings[i])]) &&
              done == old(RefTest(UpdatePos(rings[i]), orphans[k].refs[j]))
      ensures orphans ==
              if done then old(orphans[k := orphans[k].(refs := orphans[k].refs[j := NoRing])]) else old(orphans)
    {
      hide Reclaims, Current, RefTest;
      ghost var t := Step(Sys(), HostCheckRef(k, j));
      ReclaimStep(probe, start, Sys(), HostCheckRef(k, j));
      var ref := orphans[k].refs[j];
      rings := rings[i := UpdatePos(rings[i])];
      done := RefTest(rings[i], ref);
      if done {
        orphans := orphans[k := orphans[k].(refs := orphans[k].refs[j := NoRing])];
      }
      assert Sys() == t;
    }

    /** One buffer's turn in a reclaim pass: all its references are asked, in order. */
    method CheckOrphan(k: nat, ghost start: System) returns (busy: bool)
      requires Valid() && k < |orphans| && Reclaims(start, Sys())
      modifies `rings, `orphans
      ensures Valid() && Reclaims(start, Sys()) && RingsLook(old(rings), rings)
      ensures |orphans| == old(|orphans|) && forall h :: 0 <= h < |orphans| && h != k ==> orphans[h] == old(orphans[h])
      ensures k < |orphans| && (busy <==> !AllSettled(orphans[k])) && orphans[k].buf == old(orphans[k].buf)
      ensures old(Due(rings, orphans[k])) ==> !busy
    {
      hide RefIsDue, TestPasses;
      busy := false;
      ghost var held := 0;
      var j := 0;
      while j < |orphans[k].refs|
        invariant Valid() && Reclaims(start, Sys()) && RingsLook(old(rings), rings)
        invariant |orphans| == old(|orphans|) && k < |orphans| && j <= |orphans[k].refs|
        invariant forall h :: 0 <= h < |orphans| && h != k ==> orphans[h] == old(orphans[h])
        invariant orphans[k].buf == old(orphans[k].buf) && |orphans[k].refs| == |old(orphans[k].refs)|
        invariant orphans[k].refs[j..] == old(orphans[k].refs)[j..]
        invariant if busy then held < j && orphans[k].refs[held].Ref?
                  else forall h :: 0 <= h < j ==> orphans[k].refs[h].NoRing?
        invariant old(Due(rings, orphans[k])) ==> !busy
        decreases |orphans[k].refs| - j
      {
        assert orphans[k].refs[j] == old(orphans[k].refs)[j];
        GoodRings(probe, Sys());
        DueRefAfterLooking(old(rings), rings, old(orphans[k]), j);
        var done := CheckNext(k, j, old(rings), start);
        if !done { busy, held := true, j; }
        j := j + 1;
      }
    }

    method CheckNext(k: nat, j: nat, ghost before: seq<Ring>, ghost start: System) returns (done: bool)
      requires Valid() && k < |orphans| && j < |orphans[k].refs| && Reclaims(start, Sys()) && RingsLook(before, rings)
      modifies `rings, `orphans
      ensures Valid() && Reclaims(start, Sys()) && RingsLook(before, rings)
      ensures |orphans| == old(|orphans|) && forall h :: 0 <= h < |orphans| && h != k ==> orphans[h] == old(orphans[h])
      ensures k < |orphans| && orphans[k].buf == old(orphans[k].buf)
      ensures orphans[k].refs == old(orphans[k].refs)[j := if done then NoRing else old(orphans[k].refs[j])]
      ensures done <==> orphans[k].refs[j].NoRing?
      ensures old(RefIsDue(rings, orphans[k].refs[j])) ==> done
    {
      hide Good, Reclaims, RefIsDue, TestPasses;
      ghost var mid := rings;
      done := CheckRef(k, j, start);
      RingsLookTrans(before, mid, rings);
    }

    /** ua_dsp_reclaim_orphans(): a buffer whose rings are all done with it is freed, if they are so
        within the window in which the test is exact; afterwards none in the list is free of references. */
    method ReclaimOrphans()
      requires Valid()
      modifies `rings, `orphans, `orphanCount, `orphanBytes, `freed
      ensures Valid() && Reclaims(old(Sys()), Sys())
      ensures forall o <- orphans :: !AllSettled(o)
      ensures forall o <- old(orphans) :: old(Due(rings, o)) ==> o.buf in freed
      ensures ParkedSet(orphans) + freed == old(ParkedSet(orphans) + freed)
    {
      hide Due, AllSettled, Good;
      ghost var m := 0;
      var k := 0;
      while k < |orphans|
        invariant Valid() && Reclaims(old(Sys()), Sys()) && RingsLook(old(rings), rings)
        invariant k <= |orphans| && m <= |old(orphans)| && orphans[k..] == old(orphans)[m..]
        invariant forall h :: 0 <= h < k ==> !AllSettled(orphans[h])
        invariant forall h :: 0 <= h < m && old(Due(rings, orphans[h])) ==> old(orphans)[h].buf in freed
        decreases |orphans| - k
      {
        assert orphans[k] == old(orphans)[m];
        GoodRings(probe, Sys());
        DueOrphanAfterLooking(old(rings), rings, orphans[k]);
        var busy := TakeTurn(k, old(rings), old(Sys()));
        if busy { k := k + 1; }
        m := m + 1;
      }
      GoodFatesKept(probe, old(Sys()), Sys());
    }

    /** One pass of the loop: the k-th buffer stays or goes. */
    method TakeTurn(k: nat, ghost before: seq<Ring>, ghost start: System) returns (busy: bool)
      requires Valid() && k < |orphans| && Reclaims(start, Sys()) && RingsLook(before, rings)
      modifies `rings, `orphans, `orphanCount, `orphanBytes, `freed
      ensures Valid() && Reclaims(start, Sys()) && RingsLook(before, rings) && old(freed) <= freed
      ensures |orphans| == old(|orphans|) - (if busy then 0 else 1)
      ensures forall h :: 0 <= h < k ==> orphans[h] == old(orphans[h])
      ensures busy ==> !AllSettled(orphans[k])
      ensures orphans[if busy then k + 1 else k..] == old(orphans)[k + 1..]
      ensures !busy ==> old(orphans[k].buf) in freed
      ensures old(Due(rings, orphans[k])) ==> !busy
    {
      hide Good, Due, AllSettled;
      ghost var mid := rings;
      busy := CheckOrphan(k, start);
      RingsLookTrans(before, mid, rings);
      if !busy { FreeOrphan(k, start); }
    }

    /** ua_dsp_orphan_free() */
    method FreeOrphan(k: nat, ghost start: System)
      requires Valid() && k < |orphans| && AllSettled(orphans[k]) && Reclaims(start, Sys())
      modifies `orphans, `orphanCount, `orphanBytes, `freed
      ensures Valid() && Reclaims(start, Sys())
      ensures orphans == Without(old(orphans), k) && freed == old(freed) + {old(orphans[k].buf)}
    {
      hide Reclaims, Current, UsesOk, OrphansOk, OthersClean, OneFate, Without;
      ghost var t := Step(Sys(), HostReclaim(k));
      ReclaimStep(probe, start, Sys(), HostReclaim(k));
      WithoutSize(orphans, k);
      DropOrphan(k);
      assert Sys() == t;
    }

    method DropOrphan(k: nat)
      requires k < |orphans| && orphanCount > 0 && orphanBytes >= orphans[k].size
      modifies `orphans, `orphanCount, `orphanBytes, `freed
      ensures orphans == Without(old(orphans), k) && freed == old(freed) + {old(orphans[k].buf)}
      ensures orphanCount == old(orphanCount) - 1 && orphanBytes == old(orphanBytes - orphans[k].size)
    {
      freed := freed + {orphans[k].buf};
      orphanCount := orphanCount - 1;
      orphanBytes := orphanBytes - orphans[k].size;
      orphans := Without(orphans, k);
    }

    /** ua_dsp_orphan_dma(): park b, which only ring i may still name.  `short` holds the buffers for
        which no list entry can be allocated. */
    method OrphanDma(b: nat, size: nat, i: nat, short: set<nat>)
      requires Valid() && i < |rings| && OnlyOn(Sys(), b, i)
      modifies this
      ensures Valid() && RingsKeep(old(rings), rings, {})
      ensures uses == old(uses) - {b} && next == old(next)
      ensures orphanCount <= old(orphanCount) + 1 && orphanBytes <= old(orphanBytes) + size
      ensures HandedOver({b}, short) && old(ParkedSet(orphans) + freed) <= ParkedSet(orphans) + freed
    {
      hide Good;
      RingsKeepRefl(rings);
      if b in short { GiveUp(b); return; }
      ghost var s := Sys();
      ListOrphan(b, size, i);
      ghost var t := Sys();
      ParkBooks(s.orphans, Orphan(b, size, EndRefs(i, s.rings[i])));
      ReclaimOrphans();
      LooksKeep(t, Sys());
      RingsKeepTrans(s.rings, t.rings, rings, {}, {});
    }

    /** What became of buffers a silent device may still use: parked, if not already reclaimed; given
        up exactly where no list entry could be had. */
    twostate predicate HandedOver(bs: set<nat>, short: set<nat>)
      reads this
    {
      leaked == old(leaked) + bs * short && bs - short <= ParkedSet(orphans) + freed
    }

    /** ... and at every exit of a send. */
    twostate predicate Accounted(st: Status, bs: set<nat>, short: set<nat>)
      reads this
    {
      if st == ETimedOut then HandedOver(bs, short) else leaked == old(leaked)
    }

    /** No bookkeeping memory: the buffer is given up rather than freed. */
    method GiveUp(b: nat)
      requires Valid() && b in uses
      modifies `uses, `leaked
      ensures Valid() && uses == old(uses) - {b} && leaked == old(leaked) + {b}
    {
      StepKeepsGood(probe, Sys(), HostLeak(b));
      ghost var t := Step(Sys(), HostLeak(b));
      uses, leaked := uses - {b}, leaked + {b};
      assert Sys() == t;
    }

    /** The list entry: everything up to the producer index counts as naming the buffer. */
    method ListOrphan(b: nat, size: nat, i: nat)
      requires Valid() && i < |rings| && OnlyOn(Sys(), b, i)
      modifies `rings, `orphans, `orphanCount, `orphanBytes, `uses
      ensures Valid() && RingsKeep(old(rings), rings, {}) && uses == old(uses) - {b}
      ensures next == old(next) && freed == old(freed) && leaked == old(leaked)
      ensures orphanCount == old(orphanCount) + 1 && orphanBytes == old(orphanBytes) + size
      ensures orphans == old(orphans + [Orphan(b, size, EndRefs(i, rings[i]))])
      ensures rings == old(rings[i := rings[i].(floor := |rings[i].hist|)])
    {
      hide Good, OnlyOn;
      ParkStep(probe, Sys(), b, size, i);
      GoodRings(probe, Sys());
      ghost var t := Step(Sys(), HostPark(b, size, [OnRing(i, rings[i].gen), Nobody]));
      var refs := EndRefs(i, rings[i]);
      assert refs == t.orphans[|orphans|].refs;
      RaisedOne(rings, i, rings[i].gen);
      rings := rings[i := rings[i].(floor := |rings[i].hist|)];
      orphans := orphans + [Orphan(b, size, refs)];
      orphanCount := orphanCount + 1;
      orphanBytes := orphanBytes + size;
      uses := uses - {b};
      assert Sys() == t;
    }

    /** ua_dsp_orphan_room(): commands that park buffers start below both caps. */
    method OrphanRoom() returns (st: Status)
      requires Valid()
      modifies `rings, `orphans, `orphanCount, `orphanBytes, `freed
      ensures Valid() && Reclaims(old(Sys()), Sys())
      ensures st == Ok || st == EBusy
      ensures st == Ok <==> orphanCount < ORPHAN_MAX && orphanBytes < ORPHAN_MAX_BYTES
    {
      if orphans == [] { return Ok; }
      ReclaimOrphans();
      if orphanCount < ORPHAN_MAX && orphanBytes < ORPHAN_MAX_BYTES { return Ok; }
      return EBusy;
    }

    /** ua_dsp_orphans_abandon(); rings[i] is at the resync point. */
    method OrphansAbandon(i: nat)
      requires i < |rings| && IsCapacity(rings[i].capacity)
      modifies `orphans, `rings
      ensures orphans == AbandonAll(old(rings[i]), i, old(orphans))
      ensures rings == old(rings[i := rings[i].(gen := U32(rings[i].gen + 1), gens := rings[i].gens + 1)])
    {
      var r := rings[i];
      var k := 0;
      while k < |orphans|
        invariant |orphans| == |old(orphans)| && k <= |orphans| && rings == old(rings)
        invariant forall h :: 0 <= h < k ==> orphans[h] == AbandonOrphan(r, i, old(orphans)[h])
        invariant forall h :: k <= h < |orphans| ==> orphans[h] == old(orphans)[h]
      {
        var refs := AbandonRefs(r, i, orphans[k].refs);
        orphans := orphans[k := orphans[k].(refs := refs)];
        assert refs == AbandonOrphan(r, i, old(orphans)[k]).refs;
        k := k + 1;
      }
      rings := rings[i := r.(gen := U32(r.gen + 1), gens := r.gens + 1)];
    }

    static method AbandonRefs(r: Ring, i: nat, before: seq<Ref>) returns (refs: seq<Ref>)
      requires IsCapacity(r.capacity)
      ensures |refs| == |before| && forall j :: 0 <= j < |refs| ==> refs[j] == AbandonRef(r, i, before[j])
    {
      refs := before;
      var j := 0;
      while j < |refs|
        invariant |refs| == |before| && j <= |refs|
        invariant forall h :: 0 <= h < j ==> refs[h] == AbandonRef(r, i, before[h])
        invariant forall h :: j <= h < |refs| ==> refs[h] == before[h]
      {
        var ref := refs[j];
        if ref.Ref? && ref.ring == i && ref.gen == r.gen {
          var dEnd := Masked(ref.end - r.hwPos, r.capacity);
          if ref.abandoned {
            if Masked(r.hwPos - ref.start, r.capacity) >= ref.need { refs := refs[j := NoRing]; }
          } else if dEnd == 0 || dEnd > Pending(r) {
            refs := refs[j := NoRing];
          } else {
            refs := refs[j := Ref(i, U32(r.gen + 1), ref.end, r.hwPos, dEnd, true,
                                  |r.log| + dEnd, |r.log|, r.gens + 1)];
          }
        }
        j := j + 1;
      }
    }

    /** ... or it is in a state some run leads to, resyncs out of step included. */
    ghost predicate OnRun()
      reads this
    {
      Anywhere(probe, Sys())
    }

    /** The device on its own, wherever a run has come to. */
    method DeviceRuns(i: nat)
      requires OnRun() && i < |rings| && Tracked(rings[i])
      modifies `rings
      ensures OnRun() && Runs(old(Sys()), Sys()) && Tracked(rings[i])
    {
      hide Anywhere, Tracked;
      var steps: nat :| true;
      while steps > 0
        invariant OnRun() && Runs(old(Sys()), Sys()) && i < |rings| && Tracked(rings[i])
      {
        var h: nat :| true;
        if h < |rings| && |rings[h].log| < rings[h].target { DeviceRunsStep(h, i, old(Sys())); }
        steps := steps - 1;
      }
    }

    method DeviceRunsStep(h: nat, i: nat, ghost start: System)
      requires OnRun() && h < |rings| && |rings[h].log| < rings[h].target
      requires Runs(start, Sys()) && i < |rings| && Tracked(rings[i])
      modifies `rings
      ensures OnRun() && Runs(start, Sys()) && i < |rings| && Tracked(rings[i])
    {
      hide Runs, Tracked, Arrives;
      assert rings[h].Shaped();
      var r := rings[h];
      var prefetch, early: bool := *, *;
      if prefetch {
        var p: nat :| true;
        if |r.log| <= p < r.target {
          DeviceRunsOn(probe, start, Sys(), DevFetch(h, p), i);
          rings := rings[h := Fetch(r, p)];
        }
      } else {
        var e := r.slots[|r.log| % r.capacity];
        if early && r.fetched != {} {
          var f :| f in r.fetched;
          if f.0 == |r.log| { e := f.1; }
        }
        DeviceRunsOn(probe, start, Sys(), DevConsume(h, e), i);
        rings := rings[h := Consume(r, e)];
      }
    }

    /** ua_dsp_ring_regs_resync().  As long as the device stands where POSITION was read, the first pass
        settles and the ring is stopped.  Once a write is late, up to three more passes follow; wherever
        they end, the device is told to stop at the index they settle on or a whole ring further. */
    method RegsResync(i: nat) returns (lagged: bool, ghost at: nat)
      requires Valid() && i < |rings|
      modifies `rings, `pass
      ensures |rings| == old(|rings|) && (old(rings[i].Idle()) ==> !lagged)
      ensures OnRun() && Current(Sys()) && pass.Settled? && pass.ring == i
      ensures LeftAt(rings[i], pass.pos, at) && |old(rings[i].log)| <= at
      ensures OthersLook(old(rings), rings, i) && RingDriven(old(rings[i]), rings[i])
      ensures !lagged ==> Live() && pass == Settled(i, rings[i].position) && rings[i].Idle()
    {
      hide Good, Inv, Anywhere, LeftAt, ReadAt;
      ghost var before := Sys();
      GoodIsCurrent(probe, before);
      DeviceMoves();
      ghost var read := rings;
      ReadPosition(i);
      DeviceMoves();
      RingsLookTrans(before.rings, read, rings);
      GoodRing(probe, Sys(), i);
      if before.rings[i].Idle() { LooksKeepsIdle(before.rings[i], rings[i]); }
      assert RingLooks(before.rings[i], read[i]) && |before.rings[i].log| <= |read[i].log|;
      lagged, at := |rings[i].log| != pass.at, pass.at;
      if lagged {
        ReadStands(probe, Sys());
        at := LagOn(i, before.rings);
      } else {
        WriteAndCompare(i, before.rings);
        StoppedAt(probe, Sys(), i);
        at := |rings[i].log|;
      }
      DrivenCurrent(before, Sys(), i);
    }

    /** The passes of a resync from a write on that comes too late. */
    method LagOn(i: nat, ghost before: seq<Ring>) returns (ghost at: nat)
      requires OnRun() && i < |rings| && pass.HasRead? && pass.ring == i && pass.tries == 0
      requires ReadAt(rings[i], pass.pos, pass.at) && OthersLook(before, rings, i) && RingDriven(before[i], rings[i])
      modifies `rings, `pass
      ensures OnRun() && |rings| == old(|rings|) && pass.Settled? && pass.ring == i
      ensures LeftAt(rings[i], pass.pos, at) && old(pass.at) <= at
      ensures OthersLook(before, rings, i) && RingDriven(before[i], rings[i])
    {
      hide Anywhere, RingDriven, LeftAt, ReadAt;
      at := pass.at;
      while pass.HasRead?
        invariant OnRun() && |rings| == old(|rings|) && (pass.HasRead? || pass.Settled?) && pass.ring == i
        invariant pass.HasRead? ==>
                    pass.tries <= RESYNC_TRIES && pass.at == at && ReadAt(rings[i], pass.pos, at)
        invariant pass.Settled? ==> LeftAt(rings[i], pass.pos, at)
        invariant old(pass.at) <= at && OthersLook(before, rings, i) && RingDriven(before[i], rings[i])
        decreases if pass.HasRead? then 1 + RESYNC_TRIES - pass.tries else 0
      {
        WriteLate(i, before);
        if pass.HasWritten? { at := LookAgain(i, at, before); }
      }
    }

    /** DOORBELL = the POSITION read before. */
    method WriteLate(i: nat, ghost before: seq<Ring>)
      requires OnRun() && i < |rings| && pass.HasRead? && pass.ring == i && ReadAt(rings[i], pass.pos, pass.at)
      requires OthersLook(before, rings, i) && RingDriven(before[i], rings[i])
      modifies `rings, `pass
      ensures OnRun() && |rings| == old(|rings|)
      ensures pass == if old(pass.tries) < RESYNC_TRIES then HasWritten(i, old(pass.pos), old(pass.at), old(pass.tries))
                      else Settled(i, old(pass.pos))
      ensures LeftAt(rings[i], pass.pos, old(pass.at))
      ensures OthersLook(before, rings, i) && RingDriven(before[i], rings[i])
    {
      hide Arrives, LeftAt, ReadAt;
      StepAnywhere(probe, Sys(), HostWrite);
      LaggingWrite(rings[i], pass.pos, pass.at);
      ghost var t := Step(Sys(), HostWrite);
      rings := rings[i := WriteDoorbell(rings[i], pass.pos)];
      pass := if pass.tries < RESYNC_TRIES then HasWritten(i, pass.pos, pass.at, pass.tries) else Settled(i, pass.pos);
      assert Sys() == t;
    }

    /** POSITION again: settled if the device stands there, else one more pass from where it is. */
    method LookAgain(i: nat, ghost was: nat, ghost before: seq<Ring>) returns (ghost at: nat)
      requires OnRun() && i < |rings| && pass.HasWritten? && pass.ring == i && pass.tries < RESYNC_TRIES
      requires LeftAt(rings[i], pass.pos, was) && OthersLook(before, rings, i) && RingDriven(before[i], rings[i])
      modifies `rings, `pass
      ensures OnRun() && |rings| == old(|rings|) && was <= at
      ensures (pass == Settled(i, old(pass.pos)) && LeftAt(rings[i], pass.pos, at))
           || (pass.HasRead? && pass == HasRead(i, pass.pos, at, old(pass.tries) + 1) && ReadAt(rings[i], pass.pos, at))
      ensures OthersLook(before, rings, i) && RingDriven(before[i], rings[i])
    {
      hide Arrives, RingDriven;
      at := was;
      ghost var written := rings;
      DeviceRuns(i);
      RunsIsLooks(before, written, rings, i);
      StepAnywhere(probe, Sys(), HostCompare);
      ghost var t := Step(Sys(), HostCompare);
      if rings[i].position == pass.pos {
        pass := Settled(i, pass.pos);
      } else {
        NextRead(rings[i], pass.pos, was);
        at := |rings[i].log|;
        pass := HasRead(i, rings[i].position, |rings[i].log|, pass.tries + 1);
      }
      assert Sys() == t;
      ghost var looked := rings;
      DeviceRuns(i);
      RunsIsLooks(before, looked, rings, i);
    }

    /** The first POSITION read of a resync. */
    method ReadPosition(i: nat)
      requires Valid() && i < |rings|
      modifies `pass
      ensures Live() && pass == HasRead(i, rings[i].position, |rings[i].log|, 0)
    {
      PassStep(probe, Sys(), HostRead(i));
      ghost var t := Step(Sys(), HostRead(i));
      pass := HasRead(i, rings[i].position, |rings[i].log|, 0);
      assert Sys() == t;
    }

    /** DOORBELL = POSITION, in step, and the look that finds the device there. */
    method WriteAndCompare(i: nat, ghost before: seq<Ring>)
      requires Live() && i < |rings| && pass.HasRead? && pass.ring == i && pass.at == |rings[i].log| && pass.tries == 0
      requires RingsLook(before, rings)
      modifies `rings, `pass
      ensures |rings| == old(|rings|) && Live() && pass == Settled(i, rings[i].position)
      ensures OthersLook(before, rings, i) && RingStops(before[i], rings[i])
    {
      hide Good, OthersLook, RingStops, Ring.Valid;
      ghost var looked := rings;
      WriteInStep(i);
      ghost var written := rings;
      DeviceMoves();
      GoodRing(probe, Sys(), i);
      LooksKeepsIdle(written[i], rings[i]);
      StopsAfter(before, looked, written, rings, i);
      Compare(i);
    }

    /** The second POSITION read, with the device stopped. */
    method Compare(i: nat)
      requires Live() && i < |rings| && pass.HasWritten? && pass.ring == i
      modifies `pass
      ensures Live() && pass == Settled(i, rings[i].position)
    {
      PassStep(probe, Sys(), HostCompare);
      ghost var t := Step(Sys(), HostCompare);
      pass := Settled(i, pass.pos);
      assert Sys() == t;
    }

    method WriteInStep(i: nat)
      requires Live() && i < |rings| && pass.HasRead? && pass.ring == i && pass.at == |rings[i].log| && pass.tries == 0
      modifies `rings, `pass
      ensures Live() && pass == HasWritten(i, old(pass.pos), old(pass.at), 0)
      ensures rings == old(rings)[i := WriteDoorbell(old(rings[i]), old(pass.pos))] && rings[i].Idle()
    {
      GoodRing(probe, Sys(), i);
      PassStep(probe, Sys(), HostWrite);
      ghost var t := Step(Sys(), HostWrite);
      ResyncWrite(rings[i], |rings[i].log|);
      rings := rings[i := WriteDoorbell(rings[i], pass.pos)];
      pass := HasWritten(i, pass.pos, pass.at, 0);
      assert Sys() == t;
    }

    /** ua_dsp_ring_resync() after its register half: every index becomes POSITION; what was queued
        is abandoned. */
    method ResyncIndices(i: nat, clear: bool)
      requires i < |rings| && rings[i].Shaped() && pass.Settled? && pass.ring == i && pass.pos < rings[i].capacity
      modifies `orphans, `rings, `pass
      ensures orphans == old(ResyncOrphans(Sys(), i, pass.pos))
      ensures rings == old(rings)[i := ResyncGen(old(rings[i]), old(pass.pos))]
      ensures pass == if clear then Clearing(i) else NoPass
    {
      var r, pos := rings[i], pass.pos;
      if r.live {
        rings := rings[i := At(r, pos)];
        if Pending(rings[i]) != 0 { OrphansAbandon(i); }
      }
      rings := rings[i := Resync(rings[i], pos)];
      pass := if clear then Clearing(i) else NoPass;
    }

    method FinishResync(i: nat, clear: bool)
      requires Live() && i < |rings| && pass == Settled(i, rings[i].position)
      modifies `orphans, `rings, `pass
      ensures Live() && pass == if clear then Clearing(i) else NoPass
      ensures |rings| == old(|rings|) && rings == old(rings)[i := rings[i]]
      ensures RingResynced(old(rings[i]), rings[i]) && Rewound(old(rings[i]), rings[i])
    {
      GoodRing(probe, Sys(), i);
      AbandonCurrent(probe, Sys(), clear);
      ResyncValid(rings[i]);
      ghost var t := Step(Sys(), HostResync(clear));
      ResyncIndices(i, clear);
      assert Sys() == t;
    }

    /** The same after a late write. */
    method FinishLate(i: nat, clear: bool)
      requires OnRun() && Current(Sys()) && i < |rings| && pass.Settled? && pass.ring == i
      requires Tracked(rings[i])
      modifies `orphans, `rings, `pass
      ensures OnRun() && pass == if clear then Clearing(i) else NoPass
      ensures |rings| == old(|rings|) && rings == old(rings)[i := rings[i]] && Tracked(rings[i])
      ensures Rewound(old(rings[i]), rings[i]) && rings[i].writePtr == old(pass.pos)
    {
      hide Arrives;
      assert rings[i].Shaped();
      assert NoGenerationAlias(Sys(), i);
      StepAnywhere(probe, Sys(), HostResync(clear));
      ghost var t := Step(Sys(), HostResync(clear));
      ResyncIndices(i, clear);
      assert Sys() == t;
    }

    method FinishEither(i: nat, clear: bool, lagged: bool)
      requires OnRun() && Current(Sys()) && i < |rings| && pass.Settled? && pass.ring == i && Tracked(rings[i])
      requires !lagged ==> Live() && pass == Settled(i, rings[i].position)
      modifies `orphans, `rings, `pass
      ensures OnRun() && pass == if clear then Clearing(i) else NoPass
      ensures |rings| == old(|rings|) && rings == old(rings)[i := rings[i]] && Tracked(rings[i])
      ensures Rewound(old(rings[i]), rings[i]) && rings[i].Shaped()
      ensures !lagged ==> Live() && RingResynced(old(rings[i]), rings[i])
    {
      hide Good, Arrives;
      if lagged {
        FinishLate(i, clear);
      } else {
        FinishResync(i, clear);
        GoodIsAnywhere(probe, Sys());
      }
    }

    /** ua_dsp_ring_resync_now(): begun on an idle ring it never lags; begun otherwise, the driver
        at least sees the ring empty. */
    method ResyncNow(i: nat) returns (lagged: bool)
      requires Valid() && i < |rings|
      modifies `orphans, `rings, `pass
      ensures |rings| == old(|rings|) && (old(rings[i].Idle()) ==> !lagged)
      ensures OnRun() && pass == NoPass && uses == old(uses) && next == old(next)
      ensures OthersLook(old(rings), rings, i) && rings[i].capacity == old(rings[i].capacity)
      ensures IsCapacity(rings[i].capacity) && Pending(rings[i]) == 0
      ensures !lagged ==> Valid() && RingsKeep(old(rings), rings, {i}) && |rings[i].hist| == |rings[i].log|
    {
      hide Good, Anywhere, LeftAt;
      ghost var at;
      lagged, at := RegsResync(i);
      LeftIsTracked(rings[i], pass.pos, at);
      FinishEither(i, false, lagged);
      RewoundIsEmpty(rings[i]);
    }

    /** The zeroed pages of a program. */
    method ClearPages(i: nat, zero: Entry)
      requires OnRun() && pass == Clearing(i) && i < |rings|
      modifies `rings, `pass
      ensures OnRun() && pass == NoPass && rings == old(rings)[i := Clear(old(rings[i]), zero)]
      ensures old(Live()) ==> Valid()
    {
      hide Good, Arrives;
      StepAnywhere(probe, Sys(), HostClear(zero));
      if Live() { PassStep(probe, Sys(), HostClear(zero)); }
      ghost var t := Step(Sys(), HostClear(zero));
      var n := |rings[i].slots|;
      rings := rings[i := rings[i].(slots := seq(n, _ => zero), live := true)];
      pass := NoPass;
      assert Sys() == t;
    }

    /** ua_dsp_ring_program(): every slot zeroed, the ring live and, to the driver, empty; other rings at
        most looked at.  On an idle ring, or one that drains, its resync never lags, and then the ring
        is empty to the device as well. */
    method Program(i: nat) returns (lagged: bool)
      requires Valid() && i < |rings|
      modifies `orphans, `rings, `pass
      ensures |rings| == old(|rings|) && (old(rings[i].Idle()) ==> !lagged)
      ensures OnRun() && pass == NoPass && uses == old(uses) && next == old(next) && OthersLook(old(rings), rings, i)
      ensures orphanCount == old(orphanCount) && orphanBytes == old(orphanBytes)
      ensures freed == old(freed) && leaked == old(leaked)
      ensures Programmed(old(rings[i]), rings[i])
      ensures !lagged ==> Valid() && RingsKeep(old(rings), rings, {i}) && |rings[i].hist| == |rings[i].log|
    {
      hide Good, Arrives;
      ghost var before := rings;
      lagged := DrainAndResync(i);
      ghost var resynced := rings;
      if lagged {
        DeviceRuns(i);
        assert RingRuns(resynced[i], rings[i]);
        RunsElsewhere(before, resynced, rings, i);
        RewoundIsEmpty(Clear(rings[i], Inline(0, 0, 0, 0)));
      } else {
        GoodRing(probe, Sys(), i);
        DeviceMoves();
        GoodRing(probe, Sys(), i);
        LooksKeepsDrained(resynced[i], rings[i]);
        OthersLookTrans(before, resynced, rings, i);
        ClearedRing(rings[i], Inline(0, 0, 0, 0));
        GoodIsAnywhere(probe, Sys());
      }
      ClearPages(i, Inline(0, 0, 0, 0));
    }

    method DrainAndResync(i: nat) returns (lagged: bool)
      requires Valid() && i < |rings|
      modifies `orphans, `rings, `pass
      ensures |rings| == old(|rings|) && (old(rings[i].Idle()) ==> !lagged)
      ensures OnRun() && pass == Clearing(i) && OthersLook(old(rings), rings, i) && Tracked(rings[i])
      ensures rings[i].capacity == old(rings[i].capacity) && rings[i].writePtr == rings[i].hwPos
      ensures !lagged ==> Live() && Drained(rings[i])
    {
      hide Good, Anywhere, LeftAt, OthersLook;
      ghost var before := rings;
      if rings[i].live { var _ := WaitIdle(i, 20); } else { DeviceMoves(); }
      ghost var waited := rings;
      GoodRing(probe, Sys(), i);
      if before[i].Idle() { LooksKeepsIdle(before[i], rings[i]); }
      ghost var at;
      lagged, at := RegsResync(i);
      OthersLookTrans(before, waited, rings, i);
      LeftIsTracked(rings[i], pass.pos, at);
      ghost var settled := rings;
      FinishEither(i, true, lagged);
      OthersLookSame(before, settled, rings, i);
    }

    /** ua_dsp_free_orphans(): at teardown an unproven buffer is freed only if the device is quiet. */
    method FreeOrphans(quiet: bool)
      requires Valid() && (quiet ==> NothingHot(Sys()))
      modifies this
      ensures Valid() && orphans == [] && rings == old(rings) && uses == old(uses)
      ensures freed == old(freed + (if quiet then ParkedSet(orphans) else ParkedSet(orphans) - Unsettled(orphans)))
      ensures leaked == old(leaked + (if quiet then {} else Unsettled(orphans)))
    {
      ghost var t := Step(Sys(), HostTeardown(quiet));
      StepReaches(Sys(), HostTeardown(quiet));
      ReachesTrans(probe, Sys(), t);
      ReleaseOrphans(quiet);
      assert Sys() == t;
    }

    method ReleaseFirst(quiet: bool)
      requires orphans != [] && orphanCount >= |orphans| && orphanBytes >= TotalSize(orphans)
      modifies `orphans, `orphanCount, `orphanBytes, `freed, `leaked
      ensures orphans == old(orphans[1..]) && orphanCount >= |orphans| && orphanBytes >= TotalSize(orphans)
      ensures var o, free := old(orphans)[0], quiet || AllSettled(old(orphans)[0]);
              && freed == old(freed) + (if free then {o.buf} else {})
              && leaked == old(leaked) + (if free then {} else {o.buf})
    {
      var o := orphans[0];
      var busy := exists j :: 0 <= j < |o.refs| && o.refs[j].Ref?;
      if quiet || !busy {
        orphanCount := orphanCount - 1;
        orphanBytes := orphanBytes - o.size;
        freed := freed + {o.buf};
      } else {
        leaked := leaked + {o.buf};
      }
      orphans := orphans[1..];
    }

    method ReleaseOrphans(quiet: bool)
      requires Distinct(orphans) && orphanCount == |orphans| && orphanBytes == TotalSize(orphans)
      modifies `orphans, `orphanCount, `orphanBytes, `freed, `leaked
      ensures orphans == [] && orphanCount == 0 && orphanBytes == 0
      ensures freed == old(freed + (ParkedSet(orphans) - (if quiet then {} else Unsettled(orphans))))
      ensures leaked == old(leaked + (if quiet then {} else Unsettled(orphans)))
    {
      ghost var kept := if quiet then {} else Unsettled(orphans);
      KeptAtTeardown(orphans, quiet);
      while orphans != []
        invariant orphanCount >= |orphans| && orphanBytes >= TotalSize(orphans)
        invariant forall o <- orphans :: o.buf in kept <==> !(quiet || AllSettled(o))
        invariant freed + (ParkedSet(orphans) - kept) == old(freed + (ParkedSet(orphans) - kept))
        invariant leaked + ParkedSet(orphans) * kept == old(leaked) + kept
        decreases |orphans|
      {
        FirstParked(orphans);
        assert orphans[0] in orphans;
        ReleaseFirst(quiet);
      }
      orphanCount, orphanBytes := 0, 0;
    }

    // ---------- buffers of a command ----------

    /** dma_alloc_coherent() */
    method AllocBuffer() returns (ok: bool, b: nat)
      requires Valid()
      modifies `uses, `next
      ensures Valid()
      ensures ok ==> b == old(next) && next == b + 1 && b !in old(uses) && uses == old(uses)[b := map[]]
      ensures !ok ==> uses == old(uses) && next == old(next)
    {
      ok, b := *, next;
      if ok {
        StepKeepsGood(probe, Sys(), HostAlloc);
        ghost var t := Step(Sys(), HostAlloc);
        assert !Known(Sys(), next);
        uses := uses[next := map[]];
        next := next + 1;
        assert Sys() == t;
      }
    }

    /** dma_free_coherent() by a command that can see its rings are done with b. */
    method FreeBuffer(b: nat)
      requires Valid() && b in uses && MayFree(Sys(), b)
      modifies `uses, `freed
      ensures Valid() && uses == old(uses) - {b} && freed == old(freed) + {b}
    {
      StepKeepsGood(probe, Sys(), HostFree(b));
      ghost var t := Step(Sys(), HostFree(b));
      uses, freed := uses - {b}, freed + {b};
      assert Sys() == t;
    }

    /** dma_free_coherent() by a command whose block was answered: ring i has spent b. */
    method FreeAnswered(b: nat, i: nat)
      requires Valid() && i < |rings| && OnlyOn(Sys(), b, i) && |rings[i].log| == |rings[i].hist|
      modifies `uses, `freed
      ensures Valid() && uses == old(uses) - {b} && freed == old(freed) + {b}
    {
      AnsweredIsClean(Sys(), b, i);
      StepKeepsGood(probe, Sys(), HostFreeAnswered(b));
      ghost var t := Step(Sys(), HostFreeAnswered(b));
      uses, freed := uses - {b}, freed + {b};
      assert Sys() == t;
    }

    /** A put into reserved room: its failure branch, and the unwind behind it, are dead code. */
    method QueueEntry(i: nat, e: Entry, b: nat)
      requires Valid() && i < |rings| && rings[i].live && FreeSlots(rings[i]) > 0
      requires OnlyOn(Sys(), b, i) && (e.DmaRef? ==> e.buf == b)
      modifies `rings, `uses
      ensures Valid() && Queued(old(Sys()), Sys(), i, [e]) && FreeSlots(rings[i]) >= old(FreeSlots(rings[i])) - 1
      ensures OnlyOn(Sys(), b, i) && UsesKept(old(uses), uses, {b})
    {
      ghost var s := Sys();
      var st := PutEntry(i, e);
      if st != Ok { assert false; }
      QueueingKeepsOnly(s, Sys(), b, i, e, i, [e]);
      assert RingQueued(s.rings[i], rings[i], [e]);
      QueueingUsesRoom(s.rings[i], rings[i], [e]);
    }

    // ---------- inline commands with a buffer ----------

    /** Ring, wait for the command buffer to be consumed, then free it or park it. */
    method FinishCommandBuffer(i: nat, b: nat, short: set<nat>) returns (st: Status)
      requires Valid() && i < |rings| && OnlyOn(Sys(), b, i)
      modifies this
      ensures Valid() && RingsKeep(old(rings), rings, {})
      ensures uses == old(uses) - {b} && next == old(next)
      ensures st == Ok ==> b in freed && orphanCount == old(orphanCount) && orphanBytes == old(orphanBytes)
      ensures (st == Ok || st == ETimedOut) && Accounted(st, {b}, short)
      ensures rings[i].target == |rings[i].hist|
      ensures orphanCount <= old(orphanCount) + 1 && orphanBytes <= old(orphanBytes) + PAGE
    {
      hide Good, OnlyOn;
      ghost var before := rings;
      var idle := RingAndWait(i, b);
      ghost var waited := rings;
      RingsKeepRefl(rings);
      if idle {
        GoodRings(probe, Sys());
        DrainedMayFree(Sys(), b, i);
        FreeBuffer(b);
        st := Ok;
      } else {
        OrphanDma(b, PAGE, i, short);
        st := ETimedOut;
      }
      RingsKeepTrans(before, waited, rings, {}, {});
      GoodRing(probe, Sys(), i);
      KeptRung(waited, rings, i);
    }

    /** The doorbell and the wait for the ring to pass everything. */
    method RingAndWait(i: nat, ghost b: nat) returns (idle: bool)
      requires Valid() && i < |rings| && OnlyOn(Sys(), b, i)
      modifies `rings
      ensures Valid() && RingsKeep(old(rings), rings, {}) && i < |rings| && OnlyOn(Sys(), b, i)
      ensures (idle <==> Pending(rings[i]) == 0) && rings[i].target == |rings[i].hist|
    {
      hide Good;
      ghost var s := Sys();
      Doorbell(i);
      QueuedKeeps(s, Sys(), i, []);
      ghost var t := Sys();
      idle := WaitIdle(i, 6000);
      LooksKeep(t, Sys());
      RingsKeepTrans(s.rings, t.rings, rings, {}, {});
      OnlyOnKept(s, Sys(), b, i);
    }

    /** What a send leaves behind, whatever its outcome: all its buffers met their fate, the list
        keeps its bound, and no other ring was queued on. */
    twostate predicate Sent(but: set<nat>)
      reads this
    {
      && uses == old(uses) && old(next) <= next
      && (old(WithinCaps(orphanCount, orphanBytes)) ==> WithinCaps(orphanCount, orphanBytes))
      && RingsKeep(old(rings), rings, but)
    }

    /** ua_dsp_send_sram_data() */
    method SendSram(dsp: nat, sramAddr: nat, size: nat, data: seq<nat>, memory: DmaMemory, short: set<nat>)
        returns (st: Status)
      requires Valid() && Ready(rings, dsp) && (size % 4 == 0 ==> |data| == size / 4)
      modifies this, memory
      ensures Valid()
      ensures st == EInval <==> 2 * dsp + 1 >= |rings| || size % 4 != 0 || size > PAGE
      ensures Sent(if st in {Ok, ETimedOut} then {2 * dsp} else {}) && Accounted(st, {old(next)}, short)
      ensures st in {Ok, ETimedOut} ==>
                && 2 * dsp < |old(rings)| && 2 * dsp < |rings|
                && Rung(rings[2 * dsp], old(rings)[2 * dsp].hist + SramEntries(sramAddr, size, old(next)))
                && memory.words == old(memory.words)[old(next) := data]
      ensures st == Ok ==> old(next) in freed
    {
      hide Good, FreeSlots, RingQueued, RingsKeep, Ring.Valid, Header;
      var c := 2 * dsp;
      ghost var s := Sys();
      RingsKeepRefl(rings);
      if 2 * dsp + 1 >= |rings| || size % 4 != 0 || size > PAGE { return EInval; }
      st := Admit(c, 2);
      if st != Ok { return; }
      ghost var t := Sys();
      st := SramAdmitted(c, sramAddr, size, data, memory, short);
      ghost var but := if st == ENoMem then {} else {c};
      RingsKeepTrans(s.rings, t.rings, rings, {}, but);
      assert {} + but == but;
    }

    method SramAdmitted(c: nat, sramAddr: nat, size: nat, data: seq<nat>, memory: DmaMemory, short: set<nat>)
        returns (st: Status)
      requires Valid() && c < |rings| && rings[c].live && FreeSlots(rings[c]) >= 2
      modifies this, memory
      ensures Valid() && uses == old(uses) && next >= old(next) && st in {Ok, ETimedOut, ENoMem}
      ensures RingsKeep(old(rings), rings, if st == ENoMem then {} else {c}) && Accounted(st, {old(next)}, short)
      ensures orphanCount <= old(orphanCount) + 1 && orphanBytes <= old(orphanBytes) + PAGE
      ensures st != ENoMem ==>
                && c < |rings| && Rung(rings[c], old(rings)[c].hist + SramEntries(sramAddr, size, old(next)))
                && memory.words == old(memory.words)[old(next) := data]
      ensures st == Ok ==> old(next) in freed
    {
      hide Good, FreeSlots, RingsKeep, Ring.Valid;
      RingsKeepRefl(rings);
      var ok, b := AllocBuffer();
      if !ok { return ENoMem; }
      memory.words := memory.words[b := data];
      st := QueueSram(c, sramAddr, size, b, short);
    }

    method QueueSram(c: nat, sramAddr: nat, size: nat, b: nat, short: set<nat>) returns (st: Status)
      requires Valid() && c < |rings| && rings[c].live && FreeSlots(rings[c]) >= 2 && OnlyOn(Sys(), b, c)
      modifies this
      ensures Valid() && RingsKeep(old(rings), rings, {c}) && uses == old(uses) - {b} && next == old(next)
      ensures c < |rings| && Rung(rings[c], old(rings)[c].hist + SramEntries(sramAddr, size, b))
      ensures (st == Ok || st == ETimedOut) && Accounted(st, {b}, short)
      ensures st == Ok ==> b in freed
      ensures orphanCount <= old(orphanCount) + 1 && orphanBytes <= old(orphanBytes) + PAGE
    {
      hide Good;
      ghost var s := Sys();
      var es := SramEntries(sramAddr, size, b);
      RingsKeepRefl(rings);
      QueuePair(c, es[0], es[1], b);
      KeptThenQueued(s, s, Sys(), c, es);
      ghost var t := Sys();
      st := FinishCommandBuffer(c, b, short);
      RingsKeepTrans(s.rings, t.rings, rings, {c}, {});
      assert RingQueued(t.rings[c], rings[c], []);
    }

    method QueuePair(i: nat, e: Entry, f: Entry, b: nat)
      requires Valid() && i < |rings| && rings[i].live && FreeSlots(rings[i]) >= 2 && OnlyOn(Sys(), b, i)
      requires (e.DmaRef? ==> e.buf == b) && (f.DmaRef? ==> f.buf == b)
      modifies `rings, `uses
      ensures Valid() && Queued(old(Sys()), Sys(), i, [e, f])
      ensures OnlyOn(Sys(), b, i) && UsesKept(old(uses), uses, {b})
    {
      hide Good;
      ghost var s := Sys();
      QueueEntry(i, e, b);
      ghost var t := Sys();
      assert RingQueued(s.rings[i], rings[i], [e]);
      QueueEntry(i, f, b);
      UsesKeptTrans(s.uses, t.uses, uses, {b});
      QueuedTrans(s, t, Sys(), i, [e], [f]);
    }

    /** What every send does first: the gate, then room on the command ring. */
    method Admit(c: nat, n: nat) returns (st: Status)
      requires Valid() && c < |rings|
      modifies `rings, `orphans, `orphanCount, `orphanBytes, `freed
      ensures Valid() && RingsLook(old(rings), rings) && RingsKeep(old(rings), rings, {})
      ensures uses == old(uses) && next == old(next) && leaked == old(leaked)
      ensures st == E2Big ==> n >= old(rings)[c].capacity
      ensures st in {Ok, EBusy, E2Big, ENoSpc} && rings[c].hist == old(rings)[c].hist &&
              (old(rings)[c].live ==> rings[c].live)
      ensures st == Ok ==> FreeSlots(rings[c]) >= n && orphanCount < ORPHAN_MAX && orphanBytes < ORPHAN_MAX_BYTES
      ensures orphanCount <= old(orphanCount) && orphanBytes <= old(orphanBytes)
    {
      ghost var s := Sys();
      st := OrphanRoom();
      LooksKeep(s, Sys());
      assert RingQueued(s.rings[c], rings[c], []);
      if st != Ok { return; }
      ghost var t := Sys();
      st := WaitSpace(c, n, 1000);
      LooksKeep(t, Sys());
      RingsKeepTrans(s.rings, t.rings, rings, {}, {});
      RingsLookTrans(s.rings, t.rings, rings);
      assert RingQueued(s.rings[c], rings[c], []);
    }

    /** ua_dsp_send_raw_dma() */
    method SendRawDma(dsp: nat, size: nat, data: seq<nat>, memory: DmaMemory, short: set<nat>) returns (st: Status)
      requires Valid() && Ready(rings, dsp) && (size % 4 == 0 ==> |data| == size / 4)
      modifies this, memory
      ensures Valid()
      ensures st == EInval <==> 2 * dsp + 1 >= |rings| || size % 4 != 0 || size > PAGE
      ensures Sent(if st in {Ok, ETimedOut} then {2 * dsp} else {}) && Accounted(st, {old(next)}, short)
      ensures st in {Ok, ETimedOut} ==>
                && 2 * dsp < |old(rings)| && 2 * dsp < |rings|
                && Rung(rings[2 * dsp], old(rings)[2 * dsp].hist + [DmaRef(size / 4, old(next), 0)])
                && memory.words == old(memory.words)[old(next) := data]
      ensures st == Ok ==> old(next) in freed
    {
      hide Good, FreeSlots, RingQueued, RingsKeep, Ring.Valid, Header;
      var c := 2 * dsp;
      ghost var s := Sys();
      RingsKeepRefl(rings);
      if 2 * dsp + 1 >= |rings| || size % 4 != 0 || size > PAGE { return EInval; }
      st := Admit(c, 1);
      if st != Ok { return; }
      ghost var t := Sys();
      st := RawAdmitted(c, size, data, memory, short);
      ghost var but := if st == ENoMem then {} else {c};
      RingsKeepTrans(s.rings, t.rings, rings, {}, but);
      assert {} + but == but;
    }

    method RawAdmitted(c: nat, size: nat, data: seq<nat>, memory: DmaMemory, short: set<nat>) returns (st: Status)
      requires Valid() && c < |rings| && rings[c].live && FreeSlots(rings[c]) >= 1
      modifies this, memory
      ensures Valid() && uses == old(uses) && next >= old(next) && st in {Ok, ETimedOut, ENoMem}
      ensures RingsKeep(old(rings), rings, if st == ENoMem then {} else {c}) && Accounted(st, {old(next)}, short)
      ensures orphanCount <= old(orphanCount) + 1 && orphanBytes <= old(orphanBytes) + PAGE
      ensures st != ENoMem ==>
                && c < |rings| && Rung(rings[c], old(rings)[c].hist + [DmaRef(size / 4, old(next), 0)])
                && memory.words == old(memory.words)[old(next) := data]
      ensures st == Ok ==> old(next) in freed
    {
      hide Good, FreeSlots, RingsKeep, Ring.Valid;
      RingsKeepRefl(rings);
      var ok, b := AllocBuffer();
      if !ok { return ENoMem; }
      memory.words := memory.words[b := data];
      st := QueueRaw(c, size, b, short);
    }

    method QueueRaw(c: nat, size: nat, b: nat, short: set<nat>) returns (st: Status)
      requires Valid() && c < |rings| && rings[c].live && FreeSlots(rings[c]) >= 1 && OnlyOn(Sys(), b, c)
      modifies this
      ensures Valid() && RingsKeep(old(rings), rings, {c}) && uses == old(uses) - {b} && next == old(next)
      ensures c < |rings| && Rung(rings[c], old(rings)[c].hist + [DmaRef(size / 4, b, 0)])
      ensures (st == Ok || st == ETimedOut) && Accounted(st, {b}, short)
      ensures st == Ok ==> b in freed
      ensures orphanCount <= old(orphanCount) + 1 && orphanBytes <= old(orphanBytes) + PAGE
    {
      hide Good;
      ghost var s := Sys();
      RingsKeepRefl(rings);
      QueueEntry(c, DmaRef(size / 4, b, 0), b);
      KeptThenQueued(s, s, Sys(), c, [DmaRef(size / 4, b, 0)]);
      ghost var t := Sys();
      st := FinishCommandBuffer(c, b, short);
      RingsKeepTrans(s.rings, t.rings, rings, {c}, {});
      assert RingQueued(t.rings[c], rings[c], []);
    }

    // ---------- block sends and image loads ----------

    /** The reference loop of a block send or image load; room for all of them was reserved. */
    method QueueRefs(i: nat, buf: nat, total: nat, max: nat)
      requires Valid() && max > 0 && i < |rings| && OnlyOn(Sys(), buf, i)
      requires RoomFor(i, buf, Refs(buf, 0, total, max))
      modifies `rings, `uses
      ensures Valid() && Queued(old(Sys()), Sys(), i, Refs(buf, 0, total, max))
      ensures i < |rings| && OnlyOn(Sys(), buf, i) && UsesKept(old(uses), uses, {buf})
    {
      hide RoomFor, Good, Queued, UsesKept, OnlyOn;
      ghost var s, sofar := Sys(), [];
      var done, left := 0, total;
      QueuedRefl(s, i);
      UsesKeptRefl(uses, {buf});
      while left > 0
        invariant Valid() && RoomFor(i, buf, Refs(buf, done, left, max))
        invariant i < |rings| && OnlyOn(Sys(), buf, i)
        invariant Queued(s, Sys(), i, sofar) && UsesKept(s.uses, uses, {buf})
        invariant sofar + Refs(buf, done, left, max) == Refs(buf, 0, total, max)
      {
        var n := Min(left, max);
        QueueNextRef(i, buf, done, left, max, s, sofar);
        sofar := sofar + [DmaRef(n, buf, 4 * done)];
        done, left := done + n, left - n;
      }
      assert sofar + [] == sofar;
    }

    ghost predicate RoomFor(i: nat, buf: nat, es: seq<Entry>)
      reads this
    {
      && i < |rings| && rings[i].live && IsCapacity(rings[i].capacity) && FreeSlots(rings[i]) >= |es|
      && OnlyOn(Sys(), buf, i)
    }

    method QueueNextRef(i: nat, buf: nat, done: nat, left: nat, max: nat, ghost s: System, ghost sofar: seq<Entry>)
      requires Valid() && left > 0 && max > 0 && RoomFor(i, buf, Refs(buf, done, left, max))
      requires Queued(s, Sys(), i, sofar) && UsesKept(s.uses, uses, {buf})
      modifies `rings, `uses
      ensures var n := Min(left, max); var e := DmaRef(n, buf, 4 * done);
              && Valid() && RoomFor(i, buf, Refs(buf, done + n, left - n, max))
              && i < |rings| && OnlyOn(Sys(), buf, i)
              && Queued(s, Sys(), i, sofar + [e]) && UsesKept(s.uses, uses, {buf})
              && sofar + [e] + Refs(buf, done + n, left - n, max) == sofar + Refs(buf, done, left, max)
    {
      assert rings[i].Valid();
      hide Good;
      ghost var t := Sys();
      QueueEntry(i, DmaRef(Min(left, max), buf, 4 * done), buf);
      NextRef(s, t, Sys(), i, sofar, buf, done, left, max);
      UsesKeptTrans(s.uses, t.uses, uses, {buf});
    }

    /** Offer the response buffer: one four-dword reference, rung at once. */
    method QueueResponse(r: nat, resp: nat)
      requires Valid() && r < |rings| && rings[r].live && FreeSlots(rings[r]) > 0 && OnlyOn(Sys(), resp, r)
      modifies `rings, `uses
      ensures Valid() && Queued(old(Sys()), Sys(), r, [DmaRef(4, resp, 0)]) && rings[r].target == |rings[r].hist|
      ensures OnlyOn(Sys(), resp, r) && UsesKept(old(uses), uses, {resp})
    {
      hide Good;
      ghost var s := Sys();
      QueueEntry(r, DmaRef(4, resp, 0), resp);
      ghost var t := Sys();
      Doorbell(r);
      QueuedTrans(s, t, Sys(), r, [DmaRef(4, resp, 0)], []);
      QueueingElsewhere(t, Sys(), resp, r, r, []);
      assert [DmaRef(4, resp, 0)] + [] == [DmaRef(4, resp, 0)];
    }

    /** Header, data references, one doorbell for all of them. */
    method QueueCommand(c: nat, cmd: nat, size: nat, chunk: nat, hdr: nat, data: nat)
      requires Valid() && c < |rings| && rings[c].live && IsChunk(chunk) && hdr != data
      requires OnlyOn(Sys(), hdr, c) && OnlyOn(Sys(), data, c)
      requires FreeSlots(rings[c]) >= |BlockEntries(cmd, size, chunk, hdr, data)|
      modifies `rings, `uses
      ensures Valid() && Queued(old(Sys()), Sys(), c, BlockEntries(cmd, size, chunk, hdr, data))
      ensures c < |rings| && rings[c].target == |rings[c].hist|
      ensures OnlyOn(Sys(), hdr, c) && OnlyOn(Sys(), data, c)
      ensures UsesKept(old(uses), uses, {hdr, data})
    {
      hide Good, FreeSlots, Refs;
      ghost var s, first, rest := Sys(), [DmaRef(|Header(cmd, size)|, hdr, 0)], Refs(data, 0, size / 4, chunk / 4);
      QueueHeader(c, cmd, size, hdr, data, rest);
      ghost var t := Sys();
      QueueRefs(c, data, size / 4, chunk / 4);
      ghost var u := Sys();
      QueueingElsewhere(t, u, hdr, c, c, rest);
      QueuedTrans(s, t, u, c, first, rest);
      Doorbell(c);
      QueueingElsewhere(u, Sys(), hdr, c, c, []);
      QueueingElsewhere(u, Sys(), data, c, c, []);
      QueuedTrans(s, u, Sys(), c, first + rest, []);
      assert first + rest + [] == BlockEntries(cmd, size, chunk, hdr, data);
    }

    method QueueHeader(c: nat, cmd: nat, size: nat, hdr: nat, data: nat, ghost rest: seq<Entry>)
      requires Valid() && c < |rings| && rings[c].live && hdr != data
      requires OnlyOn(Sys(), hdr, c) && OnlyOn(Sys(), data, c) && FreeSlots(rings[c]) >= 1 + |rest|
      modifies `rings, `uses
      ensures Valid() && Queued(old(Sys()), Sys(), c, [DmaRef(|Header(cmd, size)|, hdr, 0)])
      ensures c < |rings| && OnlyOn(Sys(), hdr, c) && OnlyOn(Sys(), data, c) && RoomFor(c, data, rest)
      ensures UsesKept(old(uses), uses, {hdr})
    {
      assert rings[c].Valid();
      hide Good, FreeSlots, OnlyOn;
      var n := if size < FW_LARGE_THRESHOLD then 1 else 2;
      ghost var s := Sys();
      QueueEntry(c, DmaRef(n, hdr, 0), hdr);
      QueueingElsewhere(s, Sys(), data, c, c, [DmaRef(n, hdr, 0)]);
      assert RingQueued(s.rings[c], rings[c], [DmaRef(n, hdr, 0)]);
    }

    /** A response ring with nothing of an earlier command left on it; only a descriptor still
        outstanding there can make this lag. */
    method PrepareResponse(r: nat) returns (lagged: bool)
      requires Valid() && r < |rings| && rings[r].live
      modifies `orphans, `rings, `pass
      ensures old(rings[r].Idle()) ==> !lagged
      ensures OnRun() && pass == NoPass && uses == old(uses) && next == old(next)
      ensures !lagged ==> Valid() && RingsKeep(old(rings), rings, {r})
      ensures orphanCount == old(orphanCount) && orphanBytes == old(orphanBytes) && leaked == old(leaked)
      ensures !lagged ==> |rings[r].hist| == |rings[r].log| && FreeSlots(rings[r]) == rings[r].capacity - 1
    {
      hide Anywhere;
      ghost var s := Sys();
      UpdatePosition(r);
      LooksKeep(s, Sys());
      Distances(rings[r]);
      if s.rings[r].Idle() { LooksKeepsIdle(s.rings[r], rings[r]); }
      ghost var t := Sys();
      lagged := false;
      if Pending(rings[r]) != 0 {
        lagged := Program(r);
        if !lagged { RingsKeepTrans(s.rings, t.rings, rings, {}, {r}); }
      } else {
        GoodIsAnywhere(probe, Sys());
      }
    }

    /** Wait for the answer.  A block is answered only when both rings have passed its entries. */
    method AwaitAnswer(c: nat, r: nat, polls: nat) returns (answered: bool)
      requires Valid() && c < |rings| && r < |rings|
      modifies `rings
      ensures Valid() && Looks(old(Sys()), Sys())
      ensures answered ==> |rings[c].log| == |rings[c].hist| && |rings[r].log| == |rings[r].hist|
    {
      var n := 0;
      while n < polls
        invariant Valid() && Looks(old(Sys()), Sys())
      {
        DeviceMoves();
        var response: bool := *;
        if response && |rings[c].log| == |rings[c].hist| && |rings[r].log| == |rings[r].hist| { return true; }
        n := n + 1;
      }
      return false;
    }

    /** The three buffers of a block, or none. */
    method AllocBlockBuffers() returns (ok: bool, hdr: nat, data: nat, resp: nat)
      requires Valid()
      modifies `uses, `next, `freed
      ensures Valid() && next >= old(next) && (ok ==> next == old(next) + 3)
      ensures !ok ==> uses == old(uses)
      ensures ok ==> hdr == old(next) && data == hdr + 1 && resp == hdr + 2
      ensures ok ==> hdr !in old(uses) && data !in old(uses) && resp !in old(uses)
      ensures ok ==> uses == old(uses)[hdr := map[]][data := map[]][resp := map[]]
    {
      hide Good;
      data, resp := 0, 0;
      ghost var none: map<nat, Use> := map[];
      ok, hdr := AllocBuffer();
      if !ok { return; }
      ok, data := AllocBuffer();
      if !ok { FreeUnqueued(hdr); return; }
      ok, resp := AllocBuffer();
      if !ok {
        FreeUnqueued(data);
        FreeUnqueued(hdr);
        assert uses == old(uses);
      }
    }

    method FreeUnqueued(b: nat)
      requires Valid() && b in uses && uses[b] == map[]
      modifies `uses, `freed
      ensures Valid() && uses == old(uses) - {b} && freed == old(freed) + {b}
    {
      FreeBuffer(b);
    }

    /** The end of a block send: answered blocks are freed, the buffers of a silent one parked. */
    method FinishBlock(c: nat, r: nat, hdr: nat, data: nat, resp: nat, dataSize: nat, short: set<nat>)
        returns (st: Status)
      requires Valid() && c < |rings| && r < |rings| && hdr != data && data != resp && hdr != resp
      requires OnlyOn(Sys(), hdr, c) && OnlyOn(Sys(), data, c) && OnlyOn(Sys(), resp, r)
      modifies this
      ensures Valid() && RingsKeep(old(rings), rings, {}) && next == old(next)
      ensures uses == old(uses) - {hdr, data, resp}
      ensures (st == Ok || st == EIo || st == ETimedOut) && Accounted(st, {hdr, data, resp}, short)
      ensures st != ETimedOut ==> |rings[r].log| == |rings[r].hist|
      ensures st != ETimedOut ==>
              {hdr, data, resp} <= freed && orphanCount == old(orphanCount) && orphanBytes == old(orphanBytes)
      ensures orphanCount <= old(orphanCount) + 3 && orphanBytes <= old(orphanBytes) + 2 * PAGE + dataSize
    {
      hide Good;
      ghost var s := Sys();
      var answered := AwaitAnswer(c, r, 5000);
      LooksKeep(s, Sys());
      OnlyOnKept(s, Sys(), hdr, c);
      OnlyOnKept(s, Sys(), data, c);
      OnlyOnKept(s, Sys(), resp, r);
      if !answered {
        ghost var t := Sys();
        ParkBlock(c, r, hdr, data, resp, dataSize, short);
        RingsKeepTrans(s.rings, t.rings, rings, {}, {});
        return ETimedOut;
      }
      FreeBlock(c, r, hdr, data, resp);
      var bad: bool := *;      // the status word, under block_strict
      return if bad then EIo else Ok;
    }

    method FreeBlock(c: nat, r: nat, hdr: nat, data: nat, resp: nat)
      requires Valid() && c < |rings| && r < |rings| && hdr != data && data != resp && hdr != resp
      requires OnlyOn(Sys(), hdr, c) && OnlyOn(Sys(), data, c) && OnlyOn(Sys(), resp, r)
      requires |rings[c].log| == |rings[c].hist| && |rings[r].log| == |rings[r].hist|
      modifies `uses, `freed
      ensures Valid() && uses == old(uses) - {hdr, data, resp} && freed == old(freed) + {hdr, data, resp}
    {
      hide Good;
      FreeAnswered(resp, r);
      FreeAnswered(data, c);
      FreeAnswered(hdr, c);
      assert uses == old(uses) - {hdr, data, resp};
    }

    method ParkBlock(c: nat, r: nat, hdr: nat, data: nat, resp: nat, dataSize: nat, short: set<nat>)
      requires Valid() && c < |rings| && r < |rings| && hdr != data && data != resp && hdr != resp
      requires OnlyOn(Sys(), hdr, c) && OnlyOn(Sys(), data, c) && OnlyOn(Sys(), resp, r)
      modifies this
      ensures Valid() && RingsKeep(old(rings), rings, {}) && next == old(next)
      ensures uses == old(uses) - {hdr, data, resp} && HandedOver({hdr, data, resp}, short)
      ensures orphanCount <= old(orphanCount) + 3 && orphanBytes <= old(orphanBytes) + 2 * PAGE + dataSize
    {
      hide Good, Ring.Valid;
      ghost var s := Sys();
      OrphanDma(resp, PAGE, r, short);
      OnlyOnKept(s, Sys(), data, c);
      OnlyOnKept(s, Sys(), hdr, c);
      ghost var t := Sys();
      ParkTwo(c, data, dataSize, c, hdr, PAGE, short);
      RingsKeepTrans(s.rings, t.rings, rings, {}, {});
      assert uses == old(uses) - {hdr, data, resp};
    }

    method ParkTwo(i: nat, b: nat, size: nat, i': nat, b': nat, size': nat, short: set<nat>)
      requires Valid() && i < |rings| && i' < |rings| && b != b' && OnlyOn(Sys(), b, i) && OnlyOn(Sys(), b', i')
      modifies this
      ensures Valid() && RingsKeep(old(rings), rings, {}) && next == old(next)
      ensures uses == old(uses) - {b, b'} && HandedOver({b, b'}, short)
      ensures old(ParkedSet(orphans) + freed) <= ParkedSet(orphans) + freed
      ensures orphanCount <= old(orphanCount) + 2 && orphanBytes <= old(orphanBytes) + size + size'
    {
      hide Good, Ring.Valid;
      ghost var s := Sys();
      OrphanDma(b, size, i, short);
      OnlyOnKept(s, Sys(), b', i');
      ghost var t := Sys();
      OrphanDma(b', size', i', short);
      RingsKeepTrans(s.rings, t.rings, rings, {}, {});
      assert uses == old(uses) - {b, b'};
    }

    /** Response descriptor, command, answer: the part of a block send that touches the rings. */
    method DeliverBlock(c: nat, r: nat, cmd: nat, size: nat, chunk: nat, hdr: nat, data: nat, resp: nat,
                        dataSize: nat, short: set<nat>) returns (st: Status)
      requires Valid() && c < |rings| && r < |rings| && c != r && rings[c].live && rings[r].live && IsChunk(chunk)
      requires hdr != data && data != resp && hdr != resp
      requires OnlyOn(Sys(), hdr, c) && OnlyOn(Sys(), data, c) && OnlyOn(Sys(), resp, r)
      requires FreeSlots(rings[c]) >= |BlockEntries(cmd, size, chunk, hdr, data)|
      requires |rings[r].hist| == |rings[r].log| && FreeSlots(rings[r]) > 0
      modifies this
      ensures Valid() && RingsKeep(old(rings), rings, {c, r}) && next == old(next)
      ensures uses == old(uses) - {hdr, data, resp}
      ensures Rung(rings[c], old(rings)[c].hist + BlockEntries(cmd, size, chunk, hdr, data))
      ensures Rung(rings[r], old(rings)[r].hist + [DmaRef(4, resp, 0)]) && |rings[r].log| >= |rings[r].hist| - 1
      ensures (st == Ok || st == EIo || st == ETimedOut) && Accounted(st, {hdr, data, resp}, short)
      ensures st != ETimedOut ==> {hdr, data, resp} <= freed && rings[r].Idle()
      ensures orphanCount <= old(orphanCount) + 3 && orphanBytes <= old(orphanBytes) + 2 * PAGE + dataSize
    {
      hide Good, FreeSlots, Refs;
      ghost var s, all := Sys(), {hdr, data, resp};
      OfferResponse(c, r, hdr, data, resp, BlockEntries(cmd, size, chunk, hdr, data));
      ghost var t := Sys();
      QueueCommand(c, cmd, size, chunk, hdr, data);
      ghost var u := Sys();
      QueueingElsewhere(t, u, resp, r, c, BlockEntries(cmd, size, chunk, hdr, data));
      GoodRing(probe, u, r);
      BlockQueued(s, t, u, c, r, BlockEntries(cmd, size, chunk, hdr, data), [DmaRef(4, resp, 0)]);
      UsesMinus(s.uses, t.uses, {resp}, all);
      UsesMinus(t.uses, u.uses, {hdr, data}, all);
      st := FinishBlock(c, r, hdr, data, resp, dataSize, short);
      RingsKeepTrans(s.rings, u.rings, rings, {c, r}, {});
      GoodRing(probe, Sys(), c);
      GoodRing(probe, Sys(), r);
      KeptRung(u.rings, rings, c);
      KeptRung(u.rings, rings, r);
    }

    method OfferResponse(c: nat, r: nat, hdr: nat, data: nat, resp: nat, ghost es: seq<Entry>)
      requires Valid() && c < |rings| && r < |rings| && c != r && rings[c].live && rings[r].live
      requires hdr != data && data != resp && hdr != resp
      requires OnlyOn(Sys(), hdr, c) && OnlyOn(Sys(), data, c) && OnlyOn(Sys(), resp, r)
      requires FreeSlots(rings[c]) >= |es| && FreeSlots(rings[r]) > 0
      modifies `rings, `uses
      ensures Valid() && Queued(old(Sys()), Sys(), r, [DmaRef(4, resp, 0)]) && UsesKept(old(uses), uses, {resp})
      ensures c < |rings| && rings[c].live && IsCapacity(rings[c].capacity) && FreeSlots(rings[c]) >= |es|
      ensures rings[r].target == |rings[r].hist|
      ensures OnlyOn(Sys(), hdr, c) && OnlyOn(Sys(), data, c) && OnlyOn(Sys(), resp, r)
    {
      assert rings[c].Valid();
      ghost var s := Sys();
      QueueResponse(r, resp);
      assert rings[c].Valid();
      QueueingElsewhere(s, Sys(), hdr, c, r, [DmaRef(4, resp, 0)]);
      QueueingElsewhere(s, Sys(), data, c, r, [DmaRef(4, resp, 0)]);
      assert RingQueued(s.rings[c], rings[c], []);
      QueueingUsesRoom(s.rings[c], rings[c], []);
    }

    /** The gate, room for n command entries, and a response ring with nothing left on it. */
    method AdmitBlock(c: nat, r: nat, n: nat) returns (st: Status)
      requires Valid() && c < |rings| && r < |rings| && c != r && rings[c].live && rings[r].live
      modifies this
      ensures old(rings[r].Idle()) ==> st != Lagged
      ensures st == Lagged ==> OnRun() && pass == NoPass && uses == old(uses) && next == old(next)
      ensures st != Lagged ==> Valid() && RingsKeep(old(rings), rings, {r}) && uses == old(uses) && next == old(next)
      ensures st in {Ok, EBusy, E2Big, ENoSpc, Lagged} && (n >= old(rings)[c].capacity ==> st != Ok)
      ensures st == E2Big ==> n >= old(rings)[c].capacity
      ensures orphanCount <= old(orphanCount) && orphanBytes <= old(orphanBytes) && leaked == old(leaked)
      ensures st == Ok ==>
                && orphanCount < ORPHAN_MAX && orphanBytes < ORPHAN_MAX_BYTES
                && IsCapacity(rings[c].capacity) && IsCapacity(rings[r].capacity)
                && FreeSlots(rings[c]) >= n && FreeSlots(rings[r]) > 0
                && |rings[r].hist| == |rings[r].log|
                && rings[c].hist == old(rings)[c].hist
    {
      hide Good, Anywhere;
      ghost var s := Sys();
      st := Admit(c, n);
      if st != Ok { WidenKeep(s.rings, rings, r); return; }
      ghost var t := Sys();
      GoodRings(probe, Sys());
      if s.rings[r].Idle() { LooksKeepsIdle(s.rings[r], rings[r]); }
      var lagged := PrepareResponse(r);
      if lagged { return Lagged; }
      GoodRings(probe, Sys());
      RingsKeepTrans(s.rings, t.rings, rings, {}, {r});
      RoomKept(s.rings, t.rings, rings, c, r);
    }

    /** A block send past its gates: buffers, contents, delivery. */
    method SendAdmitted(c: nat, r: nat, cmd: nat, size: nat, payload: seq<nat>, chunk: nat, memory: DmaMemory,
                        short: set<nat>) returns (st: Status)
      requires Valid() && c < |rings| && r < |rings| && c != r && rings[c].live && rings[r].live && IsChunk(chunk)
      requires FreeSlots(rings[c]) >= |BlockEntries(cmd, size, chunk, next, next + 1)|
      requires |rings[r].hist| == |rings[r].log| && FreeSlots(rings[r]) > 0
      modifies this, memory
      ensures Valid() && uses == old(uses) && next >= old(next) && (Delivered(st) ==> next == old(next) + 3)
      ensures (st == ENoMem || Delivered(st)) && Accounted(st, {old(next), old(next) + 1, old(next) + 2}, short)
      ensures st == ENoMem ==>
              RingsKeep(old(rings), rings, {}) && orphanCount == old(orphanCount) && orphanBytes == old(orphanBytes)
      ensures orphanCount <= old(orphanCount) + 3 && orphanBytes <= old(orphanBytes) + 2 * PAGE + PageAlign(size)
      ensures Delivered(st) ==>
                && RingsKeep(old(rings), rings, {c, r})
                && Rung(rings[c], old(rings)[c].hist + BlockEntries(cmd, size, chunk, old(next), old(next) + 1))
                && Rung(rings[r], old(rings)[r].hist + [DmaRef(4, old(next) + 2, 0)])
                && |rings[r].hist| <= |rings[r].log| + 1
                && memory.words == old(memory.words)[old(next) := Header(cmd, size)][old(next) + 1 := payload]
      ensures Delivered(st) && st != ETimedOut ==> {old(next), old(next) + 1, old(next) + 2} <= freed && rings[r].Idle()
    {
      hide Good, FreeSlots, Refs, RingsKeep, PageAlign;
      RingsKeepRefl(rings);
      var ok, hdr, data, resp := AllocBlockBuffers();
      if !ok { return ENoMem; }
      memory.words := memory.words[hdr := Header(cmd, size)][data := payload];
      st := DeliverBlock(c, r, cmd, size, chunk, hdr, data, resp, PageAlign(size), short);
      assert uses == old(uses);
    }

    /** A block send past its argument checks. */
    method SendChecked(dsp: nat, cmd: nat, size: nat, payload: seq<nat>, chunk: nat, memory: DmaMemory,
                       short: set<nat>) returns (st: Status)
      requires Valid() && 2 * dsp + 1 < |rings| && Ready(rings, dsp) && IsChunk(chunk)
      requires size % 4 == 0 && |payload| == size / 4 && size <= FW_MAX_SIZE
      modifies this, memory
      ensures old(rings[2 * dsp + 1].Idle()) ==> st != Lagged
      ensures st == Lagged ==> OnRun() && pass == NoPass && uses == old(uses) && next == old(next)
      ensures st != Lagged ==> Valid() && Sent(if Delivered(st) then {2 * dsp + 1, 2 * dsp} else {2 * dsp + 1})
      ensures Accounted(st, {old(next), old(next) + 1, old(next) + 2}, short)
      ensures st in {Ok, EIo, ETimedOut, EBusy, E2Big, ENoSpc, ENoMem, Lagged}
      ensures 1 + DivRoundUp(size, chunk) >= RING_ENTRIES ==> !Delivered(st)
      ensures st == E2Big ==> 1 + DivRoundUp(size, chunk) >= RING_ENTRIES
      ensures Delivered(st) ==>
                BlockSent(old(Sys()), Sys(), old(memory.words), memory.words, dsp, cmd, size, chunk, payload)
      ensures Delivered(st) && st != ETimedOut ==>
                {old(next), old(next) + 1, old(next) + 2} <= freed && 2 * dsp + 1 < |rings| && rings[2 * dsp + 1].Idle()
    {
      hide Good, FreeSlots, Refs, Ring.Valid, Header, Anywhere, DivRoundUp;
      var c, r := 2 * dsp, 2 * dsp + 1;
      ghost var s := Sys();
      st := AdmitBlock(c, r, 1 + DivRoundUp(size, chunk));
      if st != Ok { return; }
      ghost var t := Sys();
      ReservedSlotsSuffice(next + 1, size, chunk, 0);
      st := SendAdmitted(c, r, cmd, size, payload, chunk, memory, short);
      if st == ENoMem {
        RingsKeepTrans(s.rings, t.rings, rings, {r}, {});
        assert {r} + {} == {r};
      } else {
        RingsKeepTrans(s.rings, t.rings, rings, {r}, {c, r});
        assert {r} + {c, r} == {r, c};
      }
    }

    /** ua_dsp_send_block(): at every exit each buffer has met one fate; a delivered block is on the
        command ring in full, rung, and its response descriptor is the only one outstanding.  It lags
        only if an earlier command's response descriptor was still outstanding. */
    method SendBlock(dsp: nat, cmd: nat, size: nat, payload: seq<nat>, param: nat, memory: DmaMemory, short: set<nat>)
        returns (st: Status)
      requires Valid() && Ready(rings, dsp) && (size % 4 == 0 ==> |payload| == size / 4)
      modifies this, memory
      ensures old(2 * dsp + 1 < |rings| && rings[2 * dsp + 1].Idle()) ==> st != Lagged
      ensures st == Lagged ==> OnRun() && pass == NoPass && uses == old(uses) && next == old(next)
      ensures st != Lagged ==> Valid() && Sent(if Delivered(st) then {2 * dsp + 1, 2 * dsp} else {2 * dsp + 1})
      ensures Accounted(st, {old(next), old(next) + 1, old(next) + 2}, short)
      ensures st == ENoDev <==> old(|rings|) < 2
      ensures st == EInval <==> old(|rings|) >= 2 && (2 * dsp + 1 >= old(|rings|) || size % 4 != 0)
      ensures size > FW_MAX_SIZE || 1 + DivRoundUp(size, SendblockChunk(param)) >= RING_ENTRIES ==> !Delivered(st)
      ensures st == E2Big ==> size > FW_MAX_SIZE || 1 + DivRoundUp(size, SendblockChunk(param)) >= RING_ENTRIES
      ensures Delivered(st) ==>
                BlockSent(old(Sys()), Sys(), old(memory.words), memory.words, dsp, cmd, size, SendblockChunk(param),
                    payload)
      ensures Delivered(st) && st != ETimedOut ==>
                {old(next), old(next) + 1, old(next) + 2} <= freed && 2 * dsp + 1 < |rings| && rings[2 * dsp + 1].Idle()
    {
      hide Good, BlockSent, Anywhere;
      RingsKeepRefl(rings);
      WidenKeep(rings, rings, 2 * dsp + 1);
      if |rings| < 2 { return ENoDev; }
      if 2 * dsp + 1 >= |rings| || size % 4 != 0 { return EInval; }
      if size > FW_MAX_SIZE { return E2Big; }
      st := SendChecked(dsp, cmd, size, payload, SendblockChunk(param), memory, short);
    }

    /** ua_dsp_load_mixer_blocks(): once the table check has passed, no block fails for its size, its
        range or the ring's capacity; success means that every block went out, in table order.  Begun
        on an idle response ring, no block lags. */
    method LoadMixerBlocks(blob: seq<byte>, param: nat, memory: DmaMemory, short: set<nat>) returns (st: Status)
      requires Valid() && |rings| >= 2 && Ready(rings, 0)
      modifies this, memory
      ensures old(rings[1].Idle()) ==> st != Lagged
      ensures st == Lagged ==> OnRun() && pass == NoPass && uses == old(uses)
      ensures st != Lagged ==> Valid() && uses == old(uses)
      ensures st != Lagged && old(WithinCaps(orphanCount, orphanBytes)) ==> WithinCaps(orphanCount, orphanBytes)
      ensures if st == ETimedOut then old(leaked) <= leaked <= old(leaked) + short else leaked == old(leaked)
      ensures st in {EInval, E2Big} <==>
              !(GoodHeader(blob) && GoodTable(blob, TableEnd(Le32(blob, 8)), Le32(blob, 8), SendblockChunk(param)))
      ensures st in {EInval, E2Big} ==> Sys() == old(Sys())
      ensures st == Ok ==>
                && GoodHeader(blob) && |rings| >= 2
                && rings[0].hist ==
                    old(rings)[0].hist + TableEntries(blob, Le32(blob, 8), SendblockChunk(param), old(next))
    {
      hide Good, Ready, WithinCaps, BlockEntries, Ring.Valid, Anywhere;
      ghost var chunk := SendblockChunk(param);
      var check := MixerFwCheck(blob, SendblockChunk(param));
      if check.Invalid? { return EInval; }
      if check.TooBig? { return E2Big; }
      st := Ok;
      var i := 0;
      assert rings[0].hist + [] == rings[0].hist;
      while i < check.count
        invariant 0 <= i <= check.count && Valid() && |rings| >= 2 && Ready(rings, 0) && uses == old(uses) && st == Ok
        invariant old(WithinCaps(orphanCount, orphanBytes)) ==> WithinCaps(orphanCount, orphanBytes)
        invariant old(rings[1].Idle()) ==> rings[1].Idle()
        invariant leaked == old(leaked) && TableEnd(i) <= |blob| && next == old(next) + 3 * i
        invariant rings[0].hist == old(rings)[0].hist + TableEntries(blob, i, chunk, old(next))
      {
        st := SendTableBlock(blob, i, check.count, param, memory, short);
        if st != Ok { return; }
        assert old(rings)[0].hist + (TableEntries(blob, i, chunk, old(next)) + TableBlock(blob, i, chunk, old(next))) ==
          old(rings)[0].hist + TableEntries(blob, i, chunk, old(next)) + TableBlock(blob, i, chunk, old(next));
        i := i + 1;
      }
    }

    method SendTableBlock(blob: seq<byte>, i: nat, count: nat, param: nat, memory: DmaMemory, short: set<nat>)
        returns (st: Status)
      requires Valid() && |rings| >= 2 && Ready(rings, 0)
      requires i < count && TableEnd(count) <= |blob| && GoodTable(blob, TableEnd(count), count, SendblockChunk(param))
      modifies this, memory
      ensures old(rings[1].Idle()) ==> st != Lagged
      ensures st == Lagged ==> OnRun() && pass == NoPass && uses == old(uses)
      ensures st != Lagged ==> Valid() && |rings| >= 2 && Ready(rings, 0) && uses == old(uses) && st !in {EInval, E2Big}
      ensures st != Lagged && old(WithinCaps(orphanCount, orphanBytes)) ==> WithinCaps(orphanCount, orphanBytes)
      ensures if st == ETimedOut then old(leaked) <= leaked <= old(leaked) + short else leaked == old(leaked)
      ensures st == Ok ==>
                && next == old(next) + 3 && rings[1].Idle()
                && rings[0].hist == old(rings)[0].hist
                     + BlockEntries(FW_CMD, BlockSize(blob, i), SendblockChunk(param), old(next), old(next) + 1)
    {
      hide Good, FreeSlots, RingQueued, Anywhere;
      assert GoodBlock(blob, TableEnd(count), i, SendblockChunk(param));
      st := SendBlock(0, FW_CMD, BlockSize(blob, i), BlockWords(blob, i), param, memory, short);
    }

    /** Response descriptor, image references, answer. */
    method DeliverImage(size: nat, buf: nat, resp: nat, short: set<nat>) returns (st: Status)
      requires Valid() && |rings| >= 2 && rings[0].live && rings[1].live && buf != resp
      requires OnlyOn(Sys(), buf, 0) && OnlyOn(Sys(), resp, 1)
      requires |rings[1].hist| == |rings[1].log| && FreeSlots(rings[1]) > 0
      requires FreeSlots(rings[0]) >= |ImageEntries(size, buf)|
      modifies this
      ensures Valid() && RingsKeep(old(rings), rings, {0, 1}) && next == old(next)
      ensures uses == old(uses) - {buf, resp}
      ensures Rung(rings[0], old(rings)[0].hist + ImageEntries(size, buf)) && old(rings)[0].log <= rings[0].log
      ensures Rung(rings[1], old(rings)[1].hist + [DmaRef(4, resp, 0)]) && |rings[1].hist| <= |rings[1].log| + 1
      ensures (st == Ok || st == EIo || st == ETimedOut) && Accounted(st, {buf, resp}, short)
      ensures st != ETimedOut ==> {buf, resp} <= freed
      ensures orphanCount <= old(orphanCount) + 2
      ensures orphanBytes <= old(orphanBytes) + PAGE + 4 * (|Header(FW_CMD, size)| + size / 4)
    {
      hide Good, FreeSlots, Refs;
      ghost var s, all, es := Sys(), {buf, resp}, ImageEntries(size, buf);
      OfferForImage(buf, resp, es);
      ghost var t := Sys();
      QueueImage(size, buf);
      ghost var u := Sys();
      QueueingElsewhere(t, u, resp, 1, 0, es);
      GoodRing(probe, u, 1);
      BlockQueued(s, t, u, 0, 1, es, [DmaRef(4, resp, 0)]);
      UsesMinus(s.uses, t.uses, {resp}, all);
      UsesMinus(t.uses, u.uses, {buf}, all);
      st := FinishImage(buf, resp, 4 * (|Header(FW_CMD, size)| + size / 4), short);
      RingsKeepTrans(s.rings, u.rings, rings, {0, 1}, {});
      GoodRing(probe, Sys(), 0);
      GoodRing(probe, Sys(), 1);
      KeptRung(u.rings, rings, 0);
      KeptRung(u.rings, rings, 1);
    }

    method OfferForImage(buf: nat, resp: nat, ghost es: seq<Entry>)
      requires Valid() && |rings| >= 2 && rings[0].live && rings[1].live && buf != resp
      requires OnlyOn(Sys(), buf, 0) && OnlyOn(Sys(), resp, 1) && FreeSlots(rings[1]) > 0
      requires FreeSlots(rings[0]) >= |es|
      modifies `rings, `uses
      ensures Valid() && Queued(old(Sys()), Sys(), 1, [DmaRef(4, resp, 0)]) && UsesKept(old(uses), uses, {resp})
      ensures |rings| >= 2 && RoomFor(0, buf, es) && OnlyOn(Sys(), buf, 0) && OnlyOn(Sys(), resp, 1)
      ensures rings[1].target == |rings[1].hist|
    {
      ghost var s := Sys();
      assert rings[0].Valid();
      QueueResponse(1, resp);
      QueueingElsewhere(s, Sys(), buf, 0, 1, [DmaRef(4, resp, 0)]);
      assert RingQueued(s.rings[0], rings[0], []);
      assert rings[0].Valid();
      QueueingUsesRoom(s.rings[0], rings[0], []);
    }

    /** DMA references of at most 0xFFFF dwords over header and image, then the doorbell. */
    method QueueImage(size: nat, buf: nat)
      requires Valid() && |rings| >= 2 && OnlyOn(Sys(), buf, 0) && RoomFor(0, buf, ImageEntries(size, buf))
      modifies `rings, `uses
      ensures Valid() && Queued(old(Sys()), Sys(), 0, ImageEntries(size, buf)) && UsesKept(old(uses), uses, {buf})
      ensures |rings| >= 2 && OnlyOn(Sys(), buf, 0) && rings[0].target == |rings[0].hist|
    {
      hide Good, FreeSlots, Refs, RoomFor, Ring.Valid;
      ghost var s, es := Sys(), ImageEntries(size, buf);
      QueueRefs(0, buf, |Header(FW_CMD, size)| + size / 4, FW_REF_MAX);
      ghost var t := Sys();
      Doorbell(0);
      QueueingElsewhere(t, Sys(), buf, 0, 0, []);
      QueuedTrans(s, t, Sys(), 0, es, []);
      assert es + [] == es;
    }

    method FinishImage(buf: nat, resp: nat, size: nat, short: set<nat>) returns (st: Status)
      requires Valid() && |rings| >= 2 && buf != resp && OnlyOn(Sys(), buf, 0) && OnlyOn(Sys(), resp, 1)
      modifies this
      ensures Valid() && RingsKeep(old(rings), rings, {}) && next == old(next)
      ensures uses == old(uses) - {buf, resp}
      ensures (st == Ok || st == EIo || st == ETimedOut) && Accounted(st, {buf, resp}, short)
      ensures st != ETimedOut ==> {buf, resp} <= freed
      ensures orphanCount <= old(orphanCount) + 2 && orphanBytes <= old(orphanBytes) + PAGE + size
    {
      hide Good;
      ghost var s := Sys();
      var answered := AwaitAnswer(0, 1, 15000);
      LooksKeep(s, Sys());
      OnlyOnKept(s, Sys(), buf, 0);
      OnlyOnKept(s, Sys(), resp, 1);
      ghost var t := Sys();
      if !answered {
        ParkTwo(1, resp, PAGE, 0, buf, size, short);
        RingsKeepTrans(s.rings, t.rings, rings, {}, {});
        return ETimedOut;
      }
      FreeAnswered(resp, 1);
      FreeAnswered(buf, 0);
      assert uses == old(uses) - {buf, resp};
      var bad: bool := *;      // wrong response match, or a bad status under block_strict
      return if bad then EIo else Ok;
    }

    /** Both rings of DSP 0, reprogrammed and empty. */
    method ProgramBoth() returns (lagged: bool)
      requires Valid() && |rings| >= 2
      modifies `orphans, `rings, `pass
      ensures old(rings[0].Idle() && rings[1].Idle()) ==> !lagged
      ensures orphanCount == old(orphanCount) && orphanBytes == old(orphanBytes) && leaked == old(leaked)
      ensures OnRun() && pass == NoPass && uses == old(uses) && next == old(next)
      ensures !lagged ==> Valid() && RingsKeep(old(rings), rings, {0, 1})
      ensures !lagged ==> Emptied(rings)
    {
      hide Good, Anywhere;
      ghost var s := Sys();
      lagged := Program(0);
      if lagged { return; }
      GoodRings(probe, Sys());
      ghost var t := Sys();
      if s.rings[1].Idle() { LooksKeepsIdle(s.rings[1], rings[1]); }
      lagged := Program(1);
      if lagged { return; }
      RingsKeepTrans(s.rings, t.rings, rings, {0}, {1});
      assert {0 as nat} + {1} == {0, 1};
      assert RingQueued(t.rings[0], rings[0], []);
      GoodRings(probe, Sys());
      StillEmpty(t.rings[0], rings[0]);
    }

    /** ua_dsp_load_firmware(): header and image in one buffer, both rings programmed first.  Begun on
        idle rings it does not lag. */
    method LoadFirmware(size: nat, image: seq<nat>, memory: DmaMemory, short: set<nat>) returns (st: Status)
      requires Valid() && (size % 4 == 0 ==> |image| == size / 4)
      requires |rings| >= 2 ==> rings[0].capacity == RING_ENTRIES && rings[1].capacity == RING_ENTRIES
      modifies this, memory
      ensures old(|rings| >= 2 && rings[0].Idle() && rings[1].Idle()) ==> st != Lagged
      ensures st == Lagged ==> OnRun() && pass == NoPass
      ensures st != Lagged ==> Valid() && Sent({0, 1})
      ensures Accounted(st, {old(next), old(next) + 1}, short)
      ensures st == EInval <==> size == 0 || size > FW_MAX_SIZE || size % 4 != 0
      ensures st == ENoDev ==> old(|rings|) < 2
      ensures Delivered(st) ==> ImageSent(Sys(), old(memory.words), memory.words, old(next), size, image)
      ensures Delivered(st) && st != ETimedOut ==> {old(next), old(next) + 1} <= freed
    {
      hide Good, ImageSent, Ring.Valid, RingsKeep, Anywhere;
      RingsKeepRefl(rings);
      WidenBoth(rings, rings);
      if size == 0 || size > FW_MAX_SIZE || size % 4 != 0 { return EInval; }
      if |rings| < 2 { return ENoDev; }
      ghost var s := Sys();
      st := OrphanRoom();
      LooksKeep(s, Sys());
      WidenBoth(s.rings, rings);
      if st != Ok { return; }
      ghost var t := Sys();
      GoodRings(probe, Sys());
      if s.rings[0].Idle() { LooksKeepsIdle(s.rings[0], rings[0]); }
      if s.rings[1].Idle() { LooksKeepsIdle(s.rings[1], rings[1]); }
      st := LoadAdmitted(size, image, memory, short);
      if st == Lagged { return; }
      RingsKeepTrans(s.rings, t.rings, rings, {0, 1}, {0, 1});
      assert {0 as nat, 1} + {0, 1} == {0, 1};
    }

    /** An image load past the gate. */
    method LoadAdmitted(size: nat, image: seq<nat>, memory: DmaMemory, short: set<nat>) returns (st: Status)
      requires Valid() && |rings| >= 2 && rings[0].capacity == RING_ENTRIES && rings[1].capacity == RING_ENTRIES
      requires 0 < size <= FW_MAX_SIZE && size % 4 == 0 && |image| == size / 4
      modifies this, memory
      ensures old(rings[0].Idle() && rings[1].Idle()) ==> st != Lagged
      ensures st == Lagged ==> OnRun() && pass == NoPass
      ensures st != Lagged ==> Valid() && uses == old(uses) && next >= old(next) && RingsKeep(old(rings), rings, {0, 1})
      ensures (st == ENoMem || st == Lagged || Delivered(st)) && Accounted(st, {old(next), old(next) + 1}, short)
      ensures orphanCount <= old(orphanCount) + 2 && orphanBytes <= old(orphanBytes) + PAGE + 4 * (2 + size / 4)
      ensures Delivered(st) ==> ImageSent(Sys(), old(memory.words), memory.words, old(next), size, image)
      ensures Delivered(st) && st != ETimedOut ==> {old(next), old(next) + 1} <= freed
    {
      hide Good, RingsKeep, Ends, Refs, Header, Ring.Valid, Anywhere;
      RingsKeepRefl(rings);
      WidenBoth(rings, rings);
      var ok, buf, resp := AllocImageBuffers();
      if !ok { return ENoMem; }
      memory.words := memory.words[buf := Header(FW_CMD, size) + image];
      st := LoadInto(size, buf, resp, short);
      if st != Lagged { assert uses == old(uses); }
    }

    method AllocImageBuffers() returns (ok: bool, buf: nat, resp: nat)
      requires Valid()
      modifies `uses, `next, `freed
      ensures Valid() && next >= old(next)
      ensures !ok ==> uses == old(uses)
      ensures ok ==> buf == old(next) && resp == buf + 1 && buf !in old(uses) && resp !in old(uses)
      ensures ok ==> uses == old(uses)[buf := map[]][resp := map[]]
    {
      hide Good;
      resp := 0;
      ok, buf := AllocBuffer();
      if !ok { return; }
      ok, resp := AllocBuffer();
      if !ok {
        FreeUnqueued(buf);
        assert uses == old(uses);
      }
    }

    method LoadInto(size: nat, buf: nat, resp: nat, short: set<nat>) returns (st: Status)
      requires Valid() && |rings| >= 2 && rings[0].capacity == RING_ENTRIES && rings[1].capacity == RING_ENTRIES
      requires size <= FW_MAX_SIZE && size % 4 == 0 && buf != resp
      requires buf in uses && uses[buf] == map[] && resp in uses && uses[resp] == map[]
      modifies this
      ensures old(rings[0].Idle() && rings[1].Idle()) ==> st != Lagged
      ensures st == Lagged ==> OnRun() && pass == NoPass
      ensures st != Lagged ==>
                Valid() && next == old(next) && uses == old(uses) - {buf, resp} && RingsKeep(old(rings), rings, {0, 1})
      ensures (st == Lagged || (Delivered(st) && |rings| >= 2)) && Accounted(st, {buf, resp}, short)
      ensures orphanCount <= old(orphanCount) + 2 && orphanBytes <= old(orphanBytes) + PAGE + 4 * (2 + size / 4)
      ensures st != Lagged ==> Ends(rings[0], ImageEntries(size, buf)) && Ends(rings[1], [DmaRef(4, resp, 0)])
      ensures st !in {ETimedOut, Lagged} ==> {buf, resp} <= freed
    {
      hide Good, FreeSlots, Refs, Anywhere;
      ghost var s := Sys();
      var lagged := ProgramBoth();
      if lagged { return Lagged; }
      ghost var t := Sys();
      RefsCount(buf, 0, |Header(FW_CMD, size)| + size / 4, FW_REF_MAX);
      st := DeliverImage(size, buf, resp, short);
      RingsKeepTrans(s.rings, t.rings, rings, {0, 1}, {0, 1});
      assert {0 as nat, 1} + {0, 1} == {0, 1};
      assert rings[0].hist == t.rings[0].hist + ImageEntries(size, buf);
      assert rings[1].hist == t.rings[1].hist + [DmaRef(4, resp, 0)];
    }
  }

  /** Both rings live, at full room, with nothing on them. */
  predicate Emptied(rings: seq<Ring>) {
    && |rings| >= 2 && EmptyRing(rings[0]) && EmptyRing(rings[1])
  }

  predicate EmptyRing(r: Ring) {
    r.live && IsCapacity(r.capacity) && FreeSlots(r) == r.capacity - 1 && |r.hist| == |r.log|
  }

  /** The image is all that is outstanding on the command ring, its answer on the response ring. */
  ghost predicate ImageSent(t: System, mem: Memory, mem': Memory, buf: nat, size: nat, image: seq<nat>) {
    && |t.rings| >= 2
    && Ends(t.rings[0], ImageEntries(size, buf)) && Ends(t.rings[1], [DmaRef(4, buf + 1, 0)])
    && mem' == mem[buf := Header(FW_CMD, size) + image]
  }

  /** The last entries rung are `es`, and everything before them has been consumed. */
  ghost predicate Ends(r: Ring, es: seq<Entry>) {
    && exists before :: r.hist == before + es && |before| <= |r.log| && r.target == |r.hist|
  }

  lemma WidenBoth(rs: seq<Ring>, rs': seq<Ring>)
    requires RingsKeep(rs, rs', {})
    ensures RingsKeep(rs, rs', {0, 1})
  {
  }

  lemma StillEmpty(r: Ring, r': Ring)
    requires r.Valid() && r'.Valid() && RingQueued(r, r', [])
    requires |r.hist| == |r.log| && FreeSlots(r) == r.capacity - 1
    ensures |r'.hist| == |r'.log| && FreeSlots(r') == r'.capacity - 1
  {
    Distances(r);
    Distances(r');
  }

  predicate Delivered(st: Status) {
    st == Ok || st == EIo || st == ETimedOut
  }

  /** The device has been told of everything queued, and that is `hist`. */
  predicate Rung(r: Ring, hist: seq<Entry>) {
    r.hist == hist && r.target == |r.hist|
  }

  ghost predicate BlockSent(s: System, t: System, mem: Memory, mem': Memory,
                            dsp: nat, cmd: nat, size: nat, chunk: nat, payload: seq<nat>)
    requires IsChunk(chunk)
  {
    var c, r, hdr := 2 * dsp, 2 * dsp + 1, s.next;
    && r < |s.rings| == |t.rings| && t.next == s.next + 3
    && Rung(t.rings[c], s.rings[c].hist + BlockEntries(cmd, size, chunk, hdr, hdr + 1))
    && 0 < |t.rings[r].hist| <= |t.rings[r].log| + 1 && t.rings[r].target == |t.rings[r].hist|
    && t.rings[r].hist[|t.rings[r].hist| - 1] == DmaRef(4, hdr + 2, 0)
    && mem' == mem[hdr := Header(cmd, size)][hdr + 1 := payload]
  }

  /** Size of the allocation behind a block's data: whole pages, at least one. */
  function PageAlign(size: nat): (r: nat)
    ensures size <= FW_MAX_SIZE ==> r <= FW_MAX_SIZE
    ensures r >= size && r >= PAGE && r % PAGE == 0
  {
    if size == 0 then PAGE else DivRoundUp(size, PAGE) * PAGE
  }

  lemma WidenKeep(rs: seq<Ring>, rs': seq<Ring>, i: nat)
    requires RingsKeep(rs, rs', {})
    ensures RingsKeep(rs, rs', {i})
  {
  }

  lemma RoomKept(a: seq<Ring>, b: seq<Ring>, d: seq<Ring>, c: nat, r: nat)
    requires c != r && c < |a| && RingsKeep(a, b, {}) && RingsKeep(b, d, {r})
    requires b[c].Valid() && d[c].Valid()
    ensures FreeSlots(d[c]) >= FreeSlots(b[c]) && d[c].hist == a[c].hist
  {
    assert RingQueued(a[c], b[c], []) && RingQueued(b[c], d[c], []);
    QueueingUsesRoom(b[c], d[c], []);
  }

  lemma BlockQueued(s: System, t: System, u: System, c: nat, r: nat, es: seq<Entry>, answer: seq<Entry>)
    requires c < |s.rings| && r < |s.rings| && c != r
    requires Queued(s, t, r, answer) && Queued(t, u, c, es)
    requires t.rings[r].target == |t.rings[r].hist| && u.rings[r].Valid()
    ensures RingsKeep(s.rings, u.rings, {c, r})
    ensures u.rings[c].hist == s.rings[c].hist + es && Rung(u.rings[r], s.rings[r].hist + answer)
    ensures s.rings[r].log <= u.rings[r].log
  {
  }

  lemma UsesMinus(u: map<nat, map<nat, Use>>, v: map<nat, map<nat, Use>>, but: set<nat>, all: set<nat>)
    requires UsesKept(u, v, but) && but <= all
    ensures u - all == v - all
  {
  }

  lemma KeptRung(rs: seq<Ring>, rs': seq<Ring>, i: nat)
    requires i < |rs| && RingsKeep(rs, rs', {}) && rs[i].target == |rs[i].hist|
    requires rs'[i].Valid()
    ensures Rung(rs'[i], rs[i].hist) && rs[i].log <= rs'[i].log
  {
  }

  lemma NextRef(s: System, t: System, u: System, i: nat, sofar: seq<Entry>, buf: nat, done: nat, left: nat, max: nat)
    requires max > 0 && left > 0 && i < |s.rings| && Queued(s, t, i, sofar)
    requires Queued(t, u, i, [DmaRef(Min(left, max), buf, 4 * done)])
    ensures var n, all := Min(left, max), Refs(buf, done, left, max);
            var e, rest := DmaRef(n, buf, 4 * done), Refs(buf, done + n, left - n, max);
            && sofar + [e] + rest == sofar + all && |all| == 1 + |rest| && Queued(s, u, i, sofar + [e])
    ensures |u.rings| == |s.rings|
    ensures u.rings[i].capacity == s.rings[i].capacity && u.rings[i].live == s.rings[i].live
  {
  }

  lemma QueuedRefl(s: System, i: nat)
    ensures Queued(s, s, i, [])
  {
  }

  lemma KeptThenQueued(s: System, t: System, u: System, i: nat, es: seq<Entry>)
    requires i < |s.rings| && RingsKeep(s.rings, t.rings, {}) && Queued(t, u, i, es)
    ensures RingsKeep(s.rings, u.rings, {i}) && u.rings[i].hist == s.rings[i].hist + es
  {
  }

  lemma RingsKeepRefl(rs: seq<Ring>)
    ensures RingsKeep(rs, rs, {})
  {
  }

  lemma FirstParked(os: seq<Orphan>)
    requires os != []
    ensures ParkedSet(os) == {os[0].buf} + ParkedSet(os[1..])
  {
  }

  lemma KeptAtTeardown(os: seq<Orphan>, quiet: bool)
    requires Distinct(os)
    ensures var kept := if quiet then {} else Unsettled(os);
            && ParkedSet(os) * kept == kept
            && forall o <- os :: o.buf in kept <==> !(quiet || AllSettled(o))
  {
  }

  /** Nothing queued, and the driver knows it. */
  predicate Drained(r: Ring) {
    IsCapacity(r.capacity) && |r.hist| == |r.log| && Pending(r) == 0
  }

  lemma LooksKeepsDrained(r: Ring, r': Ring)
    requires r.Valid() && r'.Valid() && RingLooks(r, r') && Drained(r)
    ensures Drained(r')
  {
    Distances(r);
    Distances(r');
  }

  lemma ClearedRing(r: Ring, zero: Entry)
    requires r.Valid() && Drained(r)
    ensures Clear(r, zero).Valid() && FreeSlots(Clear(r, zero)) == r.capacity - 1
  {
    Distances(r);
    Distances(Clear(r, zero));
  }
}
