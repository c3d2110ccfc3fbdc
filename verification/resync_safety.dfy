/** When a ring resync is safe.  Its register half writes DOORBELL with a POSITION read earlier; an
    entry consumed in between sends the device a whole ring ahead, over slots of other commands.
    That can happen exactly when the resync begins with something rung outstanding, and then some
    run gets a freed buffer into the device: at once, if a slot still names one, or later. */
module ResyncSafety {
  import opened Indices
  import opened RingModel
  import opened Orphans
  import opened DmaProof

  // ---------- runs do not get stuck ----------

  ghost predicate StaysShaped(s: System, t: System) {
    Shaped(t) && PassShaped(t) && |t.rings| == |s.rings|
  }

  lemma RingKeepsShape(s: System, i: nat, r: Ring)
    requires Shaped(s) && PassShaped(s) && i < |s.rings| && r.Shaped() && r.capacity == s.rings[i].capacity
    ensures StaysShaped(s, SetRing(s, i, r))
  {
  }

  lemma RingStepKeepsShape(s: System, op: SysOp)
    requires Shaped(s) && Allowed(s, op)
    requires op.DevFetch? || op.DevConsume? || op.HostUpdatePos? || op.HostPut? || op.HostDoorbell? || op.HostUnwind?
    ensures StaysShaped(s, Step(s, op))
  {
    hide StaysShaped;
    match op
    case DevFetch(i, p) => RingKeepsShape(s, i, Fetch(s.rings[i], p));
    case DevConsume(i, e) => RingKeepsShape(s, i, Consume(s.rings[i], e));
    case HostUpdatePos(i) => RingKeepsShape(s, i, UpdatePos(s.rings[i]));
    case HostPut(i, e) =>
      RingKeepsShape(s, i, PutSlot(s.rings[i], e));
      SameShape(s, SetRing(s, i, PutSlot(s.rings[i], e)), Step(s, op));
    case HostDoorbell(i) => RingKeepsShape(s, i, RingDoorbell(s.rings[i]));
    case HostUnwind(i, start) => RingKeepsShape(s, i, Unwind(s.rings[i], start));
  }

  lemma SameShape(s: System, t: System, u: System)
    requires StaysShaped(s, t) && u.rings == t.rings
    requires PassShaped(u)
    ensures StaysShaped(s, u)
  {
  }

  lemma ResyncStepKeepsShape(s: System, op: SysOp)
    requires Shaped(s) && Allowed(s, op)
    requires op.HostRead? || op.HostWrite? || op.HostCompare? || op.HostResync? || op.HostClear?
    ensures StaysShaped(s, Step(s, op))
  {
    hide StaysShaped, NoGenerationAlias;
    match op
    case HostRead(i) => SameShape(s, s, Step(s, op));
    case HostCompare => SameShape(s, s, Step(s, op));
    case HostWrite =>
      var r := WriteDoorbell(s.rings[s.pass.ring], s.pass.pos);
      RingKeepsShape(s, s.pass.ring, r);
      SameShape(s, SetRing(s, s.pass.ring, r), Step(s, op));
    case HostResync(_) =>
      var r := ResyncGen(s.rings[s.pass.ring], s.pass.pos);
      RingKeepsShape(s, s.pass.ring, r);
      SameShape(s, SetRing(s, s.pass.ring, r), Step(s, op));
    case HostClear(zero) =>
      var r := Clear(s.rings[s.pass.ring], zero);
      RingKeepsShape(s, s.pass.ring, r);
      SameShape(s, SetRing(s, s.pass.ring, r), Step(s, op));
  }

  /** Indices stay in range over every step. */
  lemma StepKeepsShape(s: System, op: SysOp)
    requires Shaped(s) && Allowed(s, op)
    ensures Shaped(Step(s, op)) && PassShaped(Step(s, op)) && |Step(s, op).rings| == |s.rings|
  {
    hide Ring.Shaped, NoGenerationAlias, MayFree, MayPark, NothingHot;
    if op.HostRead? || op.HostWrite? || op.HostCompare? || op.HostResync? || op.HostClear? {
      ResyncStepKeepsShape(s, op);
    } else if op.DevFetch? || op.DevConsume? || op.HostUpdatePos? || op.HostPut? || op.HostDoorbell? || op.HostUnwind? {
      RingStepKeepsShape(s, op);
    } else {
      BufferStepKeepsShape(s, op);
    }
  }

  lemma BufferStepKeepsShape(s: System, op: SysOp)
    requires Shaped(s) && Allowed(s, op)
    requires op.HostAlloc? || op.HostFree? || op.HostFreeAnswered? || op.HostLeak? || op.HostPark? || op.HostCheckRef?
             || op.HostReclaim? || op.HostTeardown?
    ensures StaysShaped(s, Step(s, op))
  {
  }

  // ---------- resyncs begun on an idle ring ----------

  predicate BeginIdle(s: System, op: SysOp) {
    op.HostRead? && op.i < |s.rings| ==> s.rings[op.i].Idle()
  }

  /** Among the first n steps, every resync begins with nothing rung outstanding on its ring. */
  ghost predicate BeginsIdle(run: seq<System>, ops: seq<SysOp>, n: nat)
    requires n <= |ops| < |run|
  {
    forall k {:trigger ops[k]} :: 0 <= k < n ==> BeginIdle(run[k], ops[k])
  }

  /** The device is still where the resync in progress read it. */
  predicate Standing(s: System) {
    s.pass.HasRead? && s.pass.ring < |s.rings| ==>
      s.rings[s.pass.ring].Idle() && s.pass.at == |s.rings[s.pass.ring].log|
  }

  lemma StandingStep(s: System, op: SysOp)
    requires Inv(s) && PassOk(s) && Allowed(s, op) && Standing(s) && BeginIdle(s, op)
    ensures InStep(s, op) && Standing(Step(s, op))
  {
  }

  lemma {:induction false} StandsThrough(run: seq<System>, ops: seq<SysOp>, k: nat)
    requires IsRun(run, ops) && Inv(run[0]) && run[0].pass == NoPass && k < |run| && BeginsIdle(run, ops, k)
    ensures KeepsStep(run, ops, k) && Inv(run[k]) && PassOk(run[k]) && Standing(run[k])
    ensures |run[k].rings| == |run[0].rings|
    decreases k
  {
    hide Inv, Allowed, Step;
    if k > 0 {
      StandsThrough(run, ops, k - 1);
      assert StepsTo(run[k - 1], ops[k - 1], run[k]) && BeginIdle(run[k - 1], ops[k - 1]);
      StandingStep(run[k - 1], ops[k - 1]);
      StepKeepsShape(run[k - 1], ops[k - 1]);
      StepKeepsInv(run[k - 1], ops[k - 1]);
    }
  }

  /** A driver that resyncs only idle rings keeps in step, and is safe in every run. */
  lemma SafeWhenIdle(run: seq<System>, ops: seq<SysOp>, k: nat)
    requires IsRun(run, ops) && Init(run[0]) && k < |run| && BeginsIdle(run, ops, k)
    ensures KeepsStep(run, ops, k) && Standing(run[k])
    ensures Safe(run[k]) && Inv(run[k])
  {
    DmaSafety(run, ops, 0);
    StandsThrough(run, ops, k);
    InvIsSafe(run[k]);
  }

  /** What a caller can check: a drained ring is idle, and a ring rung in full is idle only then. */
  lemma DrainedIsIdle(r: Ring)
    requires r.Valid()
    ensures Pending(UpdatePos(r)) == 0 ==> r.Idle()
    ensures r.target == |r.hist| ==> (r.Idle() <==> Pending(UpdatePos(r)) == 0)
  {
    UpdatePosValid(r);
  }

  // ---------- resyncs begun with something outstanding ----------

  predicate Accesses(op: SysOp) {
    op.DevFetch? || op.DevConsume? || op.HostWrite? || op.HostCompare?
  }

  /** The register half of a resync of ring i, as far as it goes, with the device in between. */
  ghost predicate IsResync(s: System, i: nat, run: seq<System>, ops: seq<SysOp>) {
    && IsRun(run, ops) && run[0] == s && ops != [] && ops[0] == HostRead(i)
    && forall k {:trigger ops[k]} :: 0 < k < |ops| ==> Accesses(ops[k])
  }

  /** The device can be sent past what the driver has queued on ring i. */
  predicate Beyond(t: System, i: nat) {
    i < |t.rings| && t.rings[i].target > |t.rings[i].hist|
  }

  lemma NextIndexDiffers(p: nat, n: nat)
    requires p < n && n > 1
    ensures (p + 1) % n != p
  {
    if p + 1 < n { SmallRemainder(p + 1, n); } else { RemainderIsUnique(p + 1, n, 1, 0); }
  }

  /** Read, one entry consumed, write: the device's new target is a ring ahead. */
  lemma LagStates(s: System, i: nat) returns (s1: System, s2: System, s3: System)
    requires Inv(s) && s.pass == NoPass && i < |s.rings| && !s.rings[i].Idle()
    ensures var r := s.rings[i];
            && r.Shaped()
            && StepsTo(s, HostRead(i), s1)
            && StepsTo(s1, DevConsume(i, r.slots[r.position]), s2)
            && StepsTo(s2, HostWrite, s3)
            && s3 == SetRing(s, i, s3.rings[i]).(pass := HasWritten(i, r.position, |r.log|, 0))
            && s3.rings[i] == Consume(r, r.slots[r.position]).(
                 doorbell := r.position, target := |r.log| + r.capacity)
            && Beyond(s3, i) && Shaped(s3) && PassShaped(s3) && s3.rings[i].position != r.position
  {
    hide UsesOk, OrphansOk, OthersClean, OneFate;
    var r := s.rings[i];
    var e := r.slots[r.position];
    s1 := Step(s, HostRead(i));
    s2 := Step(s1, DevConsume(i, e));
    ConsumeValid(r, e);
    ResyncWrite(Consume(r, e), |r.log|);
    NextIndexDiffers(r.position, r.capacity);
    s3 := Step(s2, HostWrite);
    StepKeepsShape(s2, HostWrite);
  }

  /** With the ring idle, every resync of the run begins on an idle ring. */
  lemma ResyncBeginsIdle(s: System, i: nat, run: seq<System>, ops: seq<SysOp>)
    requires i < |s.rings| && s.rings[i].Idle() && IsResync(s, i, run, ops)
    ensures BeginsIdle(run, ops, |ops|)
  {
    forall k | 0 <= k < |ops| ensures BeginIdle(run[k], ops[k]) {
      assert k > 0 ==> Accesses(ops[k]);
    }
  }

  lemma ValidIsInside(t: System, i: nat)
    requires Inv(t)
    ensures !Beyond(t, i)
  {
    assert i < |t.rings| ==> t.rings[i].Valid();
  }

  /** No interleaving of a resync sends the device beyond the queue if and only if the resync begins
      on an idle ring. */
  lemma StaysInsideIffIdle(s: System, i: nat)
    requires Inv(s) && s.pass == NoPass && i < |s.rings|
    ensures s.rings[i].Idle() <==>
              forall run: seq<System>, ops: seq<SysOp>, k: nat | IsResync(s, i, run, ops) && k < |run| ::
                  !Beyond(run[k], i)
  {
    hide Inv, StepsTo, Beyond;
    if s.rings[i].Idle() {
      forall run: seq<System>, ops: seq<SysOp>, k: nat | IsResync(s, i, run, ops) && k < |run|
        ensures !Beyond(run[k], i)
      {
        ResyncBeginsIdle(s, i, run, ops);
        StandsThrough(run, ops, k);
        ValidIsInside(run[k], i);
      }
    } else {
      var s1, s2, s3 := LagStates(s, i);
      var r := s.rings[i];
      var run, ops := [s, s1, s2, s3], [HostRead(i), DevConsume(i, r.slots[r.position]), HostWrite];
      assert IsResync(s, i, run, ops) && Beyond(run[3], i);
    }
  }

  // ---------- how the bounded loop ends ----------

  predicate OnIndex(r: Ring)
    requires r.capacity > 0
  {
    r.position == |r.log| % r.capacity
  }

  /** r' is r after the device consumed entries and DOORBELL was written with the index before the
      last of them: the target is a whole ring beyond that index. */
  predicate RingAhead(r: Ring, r': Ring)
    requires r.capacity > 0
  {
    && r' == r.(log := r'.log, position := r'.position, doorbell := r'.doorbell, target := r'.target)
    && |r'.log| > 0 && OnIndex(r') && r'.target == |r'.log| - 1 + r.capacity
  }

  /** The index before the device's own. */
  function Behind(r: Ring): int
    requires r.capacity > 0
  {
    (|r.log| - 1) % r.capacity
  }

  /** From s only ring i and the progress of its resync have changed. */
  predicate Ahead(s: System, i: nat, t: System) {
    && i < |s.rings| == |t.rings| && s.rings[i].capacity > 1
    && t == SetRing(s, i, t.rings[i]).(pass := t.pass) && RingAhead(s.rings[i], t.rings[i])
  }

  predicate AboutToWrite(s: System, i: nat) {
    && Shaped(s) && s.pass.HasRead? && s.pass.ring == i < |s.rings| && s.pass.tries <= RESYNC_TRIES
    && OnIndex(s.rings[i]) && s.pass.pos == s.rings[i].position && s.pass.at == |s.rings[i].log| < s.rings[i].target
  }

  /** An entry consumed just before the write. */
  lemma LagPass(s: System, i: nat) returns (run: seq<System>, ops: seq<SysOp>)
    requires AboutToWrite(s, i)
    ensures IsRun(run, ops) && run[0] == s && |ops| == 2 && (forall op <- ops :: Accesses(op))
    ensures Ahead(s, i, run[2]) && Shaped(run[2]) && s.pass.pos == Behind(run[2].rings[i])
    ensures run[2].rings[i].position != s.pass.pos < run[2].rings[i].capacity
    ensures run[2].pass == if s.pass.tries < RESYNC_TRIES then HasWritten(i, s.pass.pos, s.pass.at, s.pass.tries)
                           else Settled(i, s.pass.pos)
  {
    var r := s.rings[i];
    var e := r.slots[r.position];
    var s1 := Step(s, DevConsume(i, e));
    StepKeepsShape(s, DevConsume(i, e));
    NextIndex(|r.log|, r.capacity);
    NextIndexDiffers(r.position, r.capacity);
    IndexBehind(|r.log|, |r.log| + 1, r.capacity);
    var s2 := Step(s1, HostWrite);
    StepKeepsShape(s1, HostWrite);
    run, ops := [s, s1, s2], [DevConsume(i, e), HostWrite];
  }

  lemma ComparesUnequal(s: System, i: nat) returns (t: System)
    requires Shaped(s) && i < |s.rings| && s.pass.HasWritten? && s.pass.ring == i && s.pass.tries < RESYNC_TRIES
    requires OnIndex(s.rings[i]) && |s.rings[i].log| < s.rings[i].target
    requires s.pass.pos < s.rings[i].capacity && s.pass.pos != s.rings[i].position
    ensures StepsTo(s, HostCompare, t) && AboutToWrite(t, i) && t.pass.tries == s.pass.tries + 1
    ensures t == s.(pass := t.pass)
  {
    t := Step(s, HostCompare);
    StepKeepsShape(s, HostCompare);
  }

  lemma BeginsOutstanding(s: System, i: nat) returns (t: System)
    requires Inv(s) && s.pass == NoPass && i < |s.rings| && !s.rings[i].Idle()
    ensures StepsTo(s, HostRead(i), t) && AboutToWrite(t, i) && t == s.(pass := t.pass)
  {
    t := Step(s, HostRead(i));
    assert s.rings[i].Valid();
    StepKeepsShape(s, HostRead(i));
  }

  lemma AheadTrans(s: System, i: nat, t: System, u: System)
    requires Ahead(s, i, t) && Ahead(t, i, u)
    ensures Ahead(s, i, u)
  {
  }

  /** ... and so before each of the four writes. */
  lemma LagPasses(s: System, i: nat) returns (run: seq<System>, ops: seq<SysOp>)
    requires AboutToWrite(s, i)
    ensures IsRun(run, ops) && run[0] == s && forall op <- ops :: Accesses(op)
    ensures Ahead(s, i, run[|ops|]) && Shaped(run[|ops|])
    ensures run[|ops|].pass == Settled(i, Behind(run[|ops|].rings[i]))
    decreases RESYNC_TRIES - s.pass.tries
  {
    hide StepsTo, OnIndex, Behind;
    run, ops := LagPass(s, i);
    if s.pass.tries < RESYNC_TRIES {
      var t := run[2];
      var u := ComparesUnequal(t, i);
      Joined(run, ops, [t, u], [HostCompare]);
      run, ops := run + [t, u][1..], ops + [HostCompare];
      var r2, o2 := LagPasses(u, i);
      Joined(run, ops, r2, o2);
      run, ops := run + r2[1..], ops + o2;
      assert Ahead(t, i, r2[|o2|]);
      AheadTrans(s, i, t, r2[|o2|]);
    }
  }

  /** A resync that begins with something outstanding can fall through its loop with the target a
      ring ahead of the index it settles on. */
  lemma FallsThrough(s: System, i: nat) returns (run: seq<System>, ops: seq<SysOp>)
    requires Inv(s) && s.pass == NoPass && i < |s.rings| && !s.rings[i].Idle()
    ensures IsResync(s, i, run, ops) && Ahead(s, i, run[|ops|]) && Shaped(run[|ops|])
    ensures run[|ops|].pass == Settled(i, Behind(run[|ops|].rings[i]))
  {
    hide Inv, StepsTo, OnIndex, Behind;
    var t := BeginsOutstanding(s, i);
    var r2, o2 := LagPasses(t, i);
    Joined([s, t], [HostRead(i)], r2, o2);
    run, ops := [s, t] + r2[1..], [HostRead(i)] + o2;
  }

  lemma {:induction false} OnItsRing(s: System, i: nat, run: seq<System>, ops: seq<SysOp>, k: nat)
    requires IsResync(s, i, run, ops) && 0 < k < |run|
    ensures !run[k].pass.NoPass? && !run[k].pass.Clearing? && run[k].pass.ring == i
    decreases k
  {
    assert StepsTo(run[k - 1], ops[k - 1], run[k]);
    if k > 1 {
      OnItsRing(s, i, run, ops, k - 1);
      assert Accesses(ops[k - 1]);
    }
  }

  /** Every interleaving of the bounded loop ends with target and position equal if and only if the
      resync begins on an idle ring: otherwise it can fall through with the target a ring ahead. */
  lemma LoopStopsIffIdle(s: System, i: nat)
    requires Inv(s) && s.pass == NoPass && i < |s.rings|
    ensures s.rings[i].Idle() <==>
              forall run: seq<System>, ops: seq<SysOp> | IsResync(s, i, run, ops) && run[|ops|].pass.Settled? ::
                i < |run[|ops|].rings| && run[|ops|].rings[i].Idle()
  {
    hide Inv, StepsTo, Behind;
    if s.rings[i].Idle() {
      forall run: seq<System>, ops: seq<SysOp> | IsResync(s, i, run, ops) && run[|ops|].pass.Settled?
        ensures i < |run[|ops|].rings| && run[|ops|].rings[i].Idle()
      {
        ResyncBeginsIdle(s, i, run, ops);
        StandsThrough(run, ops, |ops|);
        OnItsRing(s, i, run, ops, |ops|);
      }
    } else {
      var run, ops := FallsThrough(s, i);
      assert !run[|ops|].rings[i].Idle();
    }
  }

  // ---------- what a device sent beyond the queue may do ----------

  /** The device still has descriptor f.1, read for a place it has yet to pass. */
  predicate Holds(s: System, i: nat, f: (nat, Entry)) {
    i < |s.rings| && f in s.rings[i].fetched && f.0 >= |s.rings[i].log|
  }

  lemma HoldsFreed(s: System, i: nat, f: (nat, Entry))
    requires Holds(s, i, f) && f.1.DmaRef? && f.1.buf in s.freed
    ensures !Safe(s)
  {
    assert s.rings[i].Hot(f.0, f.1);
  }

  /** The place, next in line or later, at which the device would read slot k. */
  function PlaceOf(r: Ring, k: nat): nat
    requires r.capacity > 0
  {
    |r.log| + (k - |r.log|) % r.capacity
  }

  lemma PlaceIndex(r: Ring, k: nat)
    requires k < r.capacity
    ensures PlaceOf(r, k) % r.capacity == k && |r.log| <= PlaceOf(r, k) < |r.log| + r.capacity
  {
    var c, n := |r.log|, r.capacity;
    var q := (k - c) / n;
    assert k - c == q * n + (k - c) % n;
    RemainderIsUnique(c + (k - c) % n, n, -q, k);
  }

  lemma FetchAt(s: System, i: nat, p: nat) returns (t: System)
    requires Shaped(s) && PassShaped(s) && i < |s.rings| && |s.rings[i].log| <= p < s.rings[i].target
    ensures StepsTo(s, DevFetch(i, p), t) && t == SetRing(s, i, Fetch(s.rings[i], p)) && Shaped(t) && PassShaped(t)
    ensures Holds(t, i, (p, s.rings[i].slots[p % s.rings[i].capacity]))
  {
    t := Step(s, DevFetch(i, p));
    StepKeepsShape(s, DevFetch(i, p));
  }

  /** The ring after one entry consumed, one lagging write and one slot read. */
  function Fetched(r: Ring, k: nat): Ring
    requires r.Shaped() && |r.slots| == r.capacity
  {
    Fetch(Consume(r, r.slots[r.position]).(doorbell := r.position, target := |r.log| + r.capacity), PlaceOf(r, k))
  }

  /** One lagging write and one fetch, and the device holds what any other slot says. */
  lemma LagFetches(s: System, i: nat, k: nat) returns (run: seq<System>, ops: seq<SysOp>)
    requires Inv(s) && s.pass == NoPass && i < |s.rings| && !s.rings[i].Idle()
    requires k < s.rings[i].capacity && PlaceOf(s.rings[i], k) > |s.rings[i].log|
    ensures IsResync(s, i, run, ops) && |ops| == 4
    ensures s.rings[i].Shaped() && Shaped(run[4]) && PassShaped(run[4])
    ensures run[4] ==
              SetRing(s, i, Fetched(s.rings[i], k)).(pass := HasWritten(i, s.rings[i].position, |s.rings[i].log|, 0))
    ensures Holds(run[4], i, (PlaceOf(s.rings[i], k), s.rings[i].slots[k]))
    ensures run[4].rings[i].position != s.rings[i].position
  {
    hide Inv, Step, Allowed, Ring.Valid, PlaceOf;
    var r := s.rings[i];
    PlaceIndex(r, k);
    var s1, s2, s3 := LagStates(s, i);
    var p, e := PlaceOf(r, k), r.slots[r.position];
    var s4 := FetchAt(s3, i, p);
    run, ops := [s, s1, s2, s3, s4], [HostRead(i), DevConsume(i, e), HostWrite, DevFetch(i, p)];
  }

  /** A slot of the ring still holds a descriptor of a buffer freed since. */
  predicate Relic(s: System, i: nat, k: nat) {
    i < |s.rings| && k < |s.rings[i].slots| && s.rings[i].slots[k].DmaRef? && s.rings[i].slots[k].buf in s.freed
  }

  lemma QueuedIsNotFreed(s: System, i: nat, p: nat)
    requires Inv(s) && i < |s.rings| && |s.rings[i].log| <= p < |s.rings[i].hist|
    ensures var e := s.rings[i].hist[p]; e.DmaRef? ==> e.buf !in s.freed
  {
    var e := s.rings[i].hist[p];
    InvIsSafe(s);
    assert s.rings[i].Hot(p, e);
  }

  lemma RelicIsBeyond(s: System, i: nat, k: nat)
    requires Inv(s) && Relic(s, i, k)
    ensures k < s.rings[i].capacity && |s.rings[i].hist| <= PlaceOf(s.rings[i], k)
  {
    var r := s.rings[i];
    assert r.Valid();
    hide Inv, Ring.Hot, PlaceOf;
    PlaceIndex(r, k);
    if PlaceOf(r, k) < |r.hist| { QueuedIsNotFreed(s, i, PlaceOf(r, k)); }
  }

  /** Without relics a lagging resync sends the device over harmless slots. */
  ghost predicate Contained(s: System, t: System, i: nat)
    requires i < |s.rings|
  {
    && |t.rings| == |s.rings| && t.freed == s.freed && Shaped(t)
    && (forall h :: 0 <= h < |t.rings| && h != i ==> t.rings[h].Valid() && CleanOf(t.rings[h], s.freed))
    && t.rings[i].capacity == s.rings[i].capacity && t.rings[i].slots == s.rings[i].slots
    && t.rings[i].hist == s.rings[i].hist && |s.rings[i].log| <= |t.rings[i].log|
    && (forall f <- t.rings[i].fetched :: f in s.rings[i].fetched || f.1 in s.rings[i].slots)
    && (t.pass.NoPass? || (!t.pass.Clearing? && t.pass.ring == i))
  }

  ghost predicate CleanOf(r: Ring, bs: set<nat>) {
    forall b <- bs :: Clean(r, b)
  }

  lemma ContainedFetch(s: System, t: System, i: nat, h: nat, p: nat)
    requires i < |s.rings| && Contained(s, t, i) && Allowed(t, DevFetch(h, p))
    ensures Contained(s, Step(t, DevFetch(h, p)), i)
  {
    hide CleanOf, Moves, Clean;
    StepKeepsShape(t, DevFetch(h, p));
    if h != i {
      FetchMoves(t.rings[h], p);
      MovesKeepsCleanOf(t.rings[h], Fetch(t.rings[h], p), s.freed);
    }
  }

  lemma ContainedConsume(s: System, t: System, i: nat, h: nat, e: Entry)
    requires i < |s.rings| && Contained(s, t, i) && Allowed(t, DevConsume(h, e))
    ensures Contained(s, Step(t, DevConsume(h, e)), i)
  {
    hide CleanOf, Moves, Clean;
    StepKeepsShape(t, DevConsume(h, e));
    if h != i {
      ConsumeMoves(t.rings[h], e);
      MovesKeepsCleanOf(t.rings[h], Consume(t.rings[h], e), s.freed);
    }
  }

  lemma ContainedStep(s: System, t: System, i: nat, op: SysOp)
    requires i < |s.rings| && Contained(s, t, i) && Allowed(t, op) && (Accesses(op) || op == HostRead(i))
    ensures Contained(s, Step(t, op), i)
  {
    hide CleanOf;
    match op
    case DevFetch(h, p) => ContainedFetch(s, t, i, h, p);
    case DevConsume(h, e) => ContainedConsume(s, t, i, h, e);
    case _ => StepKeepsShape(t, op);
  }

  lemma MovesKeepsCleanOf(r: Ring, r': Ring, bs: set<nat>)
    requires Moves(r, r') && CleanOf(r, bs)
    ensures CleanOf(r', bs)
  {
    forall b <- bs ensures Clean(r', b) { MovesKeepsClean(r, r', b); }
  }

  lemma CleanIsHarmless(r: Ring, p: nat, e: Entry, bs: set<nat>)
    requires CleanOf(r, bs) && r.Hot(p, e) && e.DmaRef?
    ensures e.buf !in bs
  {
    if e.buf in bs { assert Clean(r, e.buf) && Names(e, e.buf); }
  }

  lemma ContainedIsSafe(s: System, t: System, i: nat)
    requires Inv(s) && i < |s.rings| && Contained(s, t, i) && forall k: nat :: !Relic(s, i, k)
    ensures Safe(t)
  {
    InvIsSafe(s);
    forall h: nat, p: nat, e: Entry | h < |t.rings| && t.rings[h].Hot(p, e) && e.DmaRef? ensures e.buf !in t.freed {
      if h != i {
        CleanIsHarmless(t.rings[h], p, e, s.freed);
      } else if e in s.rings[i].slots {
        var k :| 0 <= k < |s.rings[i].slots| && s.rings[i].slots[k] == e;
        assert !Relic(s, i, k);
      } else {
        assert s.rings[i].Hot(p, e);
      }
    }
  }

  lemma {:induction false} ContainedRun(s: System, i: nat, run: seq<System>, ops: seq<SysOp>, k: nat)
    requires Inv(s) && s.pass == NoPass && i < |s.rings| && IsResync(s, i, run, ops) && k < |run|
    ensures Contained(s, run[k], i)
    decreases k
  {
    if k == 0 {
      forall h: nat, b: nat | h < |s.rings| && b in s.freed ensures Clean(s.rings[h], b) {}
    } else {
      ContainedRun(s, i, run, ops, k - 1);
      assert StepsTo(run[k - 1], ops[k - 1], run[k]);
      assert k == 1 || Accesses(ops[k - 1]);
      ContainedStep(s, run[k - 1], i, ops[k - 1]);
    }
  }

  /** The register accesses of a resync alone, whatever the interleaving, are safe if and only if it
      begins on an idle ring or no slot of the ring holds a descriptor of a buffer already freed. */
  lemma AccessesSafeIff(s: System, i: nat)
    requires Inv(s) && s.pass == NoPass && i < |s.rings|
    ensures (s.rings[i].Idle() || forall k: nat :: !Relic(s, i, k)) <==>
              forall run: seq<System>, ops: seq<SysOp>, k: nat | IsResync(s, i, run, ops) && k < |run| :: Safe(run[k])
  {
    hide Inv, Safe, PlaceOf, StepsTo;
    if s.rings[i].Idle() || forall k: nat :: !Relic(s, i, k) {
      forall run: seq<System>, ops: seq<SysOp>, k: nat | IsResync(s, i, run, ops) && k < |run| ensures Safe(run[k]) {
        if s.rings[i].Idle() {
          ResyncBeginsIdle(s, i, run, ops);
          StandsThrough(run, ops, k);
          InvIsSafe(run[k]);
        } else {
          ContainedRun(s, i, run, ops, k);
          ContainedIsSafe(s, run[k], i);
        }
      }
    } else {
      var k: nat :| Relic(s, i, k);
      RelicIsBeyond(s, i, k);
      assert |s.rings[i].log| < |s.rings[i].hist| by { NotIdleIsLive(s, i); }
      var run, ops := LagFetches(s, i, k);
      HoldsFreed(run[4], i, (PlaceOf(s.rings[i], k), s.rings[i].slots[k]));
    }
  }

  lemma NotIdleIsLive(s: System, i: nat)
    requires Inv(s) && i < |s.rings| && !s.rings[i].Idle()
    ensures s.rings[i].live && |s.rings[i].log| < |s.rings[i].hist|
  {
    assert s.rings[i].Valid();
  }

  // ---------- two failing runs ----------

  /** What a pass that finds the device where it stands makes of ring i, resync included. */
  function Settles(s: System, i: nat): System
    requires i < |s.rings| && IsCapacity(s.rings[i].capacity)
  {
    var pos := s.rings[i].position;
    var stopped := SetRing(s, i, WriteDoorbell(s.rings[i], pos));
    SetRing(s, i, ResyncGen(stopped.rings[i], pos)).(orphans := ResyncOrphans(stopped, i, pos), pass := NoPass)
  }

  lemma CompareStep(s: System) returns (t: System)
    requires Shaped(s) && PassShaped(s) && s.pass.HasWritten?
    ensures StepsTo(s, HostCompare, t) && Shaped(t) && PassShaped(t) && t == s.(pass := t.pass)
    ensures var HasWritten(i, pos, _, tries) := s.pass; var r := s.rings[i];
            t.pass == if r.position == pos then Settled(i, pos) else HasRead(i, r.position, |r.log|, tries + 1)
  {
    t := Step(s, HostCompare);
    StepKeepsShape(s, HostCompare);
  }

  lemma WriteStep(s: System) returns (t: System)
    requires Shaped(s) && PassShaped(s) && s.pass.HasRead? && s.pass.tries < RESYNC_TRIES
    ensures StepsTo(s, HostWrite, t) && Shaped(t) && PassShaped(t)
    ensures var HasRead(i, pos, at, tries) := s.pass;
            t == SetRing(s, i, WriteDoorbell(s.rings[i], pos)).(pass := HasWritten(i, pos, at, tries))
  {
    t := Step(s, HostWrite);
    StepKeepsShape(s, HostWrite);
  }

  lemma SettleStep(s: System, t: System, i: nat) returns (u: System)
    requires Shaped(s) && PassShaped(s) && i < |s.rings| && NoGenerationAlias(s, i)
    requires var pos := s.rings[i].position;
             t == SetRing(s, i, WriteDoorbell(s.rings[i], pos)).(pass := Settled(i, pos))
    requires Shaped(t) && PassShaped(t)
    ensures StepsTo(t, HostResync(false), u) && u == Settles(s, i)
  {
    assert NoGenerationAlias(t, i);
    u := Step(t, HostResync(false));
  }

  lemma SettlesHolding(s: System, i: nat, f: (nat, Entry))
    requires i < |s.rings| && IsCapacity(s.rings[i].capacity) && Holds(s, i, f)
    ensures Holds(Settles(s, i), i, f)
  {
  }

  /** The second pass finds the device, stops it and settles: too late for what it has read. */
  lemma SecondPass(s: System, i: nat, f: (nat, Entry)) returns (run: seq<System>, ops: seq<SysOp>)
    requires Shaped(s) && PassShaped(s) && Holds(s, i, f) && s.pass.HasWritten? && s.pass.ring == i
    requires s.pass.tries < RESYNC_TRIES - 1 && s.pass.pos != s.rings[i].position
    requires NoGenerationAlias(s, i)
    ensures IsRun(run, ops) && run[0] == s && ops == [HostCompare, HostWrite, HostCompare, HostResync(false)]
    ensures run[4] == Settles(s, i) && Holds(run[4], i, f)
  {
    hide StepsTo, NoGenerationAlias, Settles, Holds;
    SettlesHolding(s, i, f);
    var s1 := CompareStep(s);
    var s2 := WriteStep(s1);
    var s3 := CompareStep(s2);
    var s4 := SettleStep(s, s3, i);
    run, ops := [s, s1, s2, s3, s4], [HostCompare, HostWrite, HostCompare, HostResync(false)];
  }

  lemma SettlesFrom(s: System, t: System, i: nat)
    requires i < |s.rings| && IsCapacity(s.rings[i].capacity) && t == s.(pass := t.pass)
    ensures Settles(t, i) == Settles(s, i)
  {
  }

  /** Begun on a ring that is not idle, a resync can settle and leave the device with the descriptor
      in any slot but the next. */
  lemma LagSettles(s: System, i: nat, k: nat) returns (run: seq<System>, ops: seq<SysOp>)
    requires Inv(s) && s.pass == NoPass && i < |s.rings| && !s.rings[i].Idle() && NoGenerationAlias(s, i)
    requires k < s.rings[i].capacity && PlaceOf(s.rings[i], k) > |s.rings[i].log|
    ensures IsRun(run, ops) && run[0] == s && |ops| == 8 && ops[0] == HostRead(i)
    ensures forall j :: 0 < j < 8 ==> !ops[j].HostRead?
    ensures s.rings[i].Shaped() && run[8] == Settles(SetRing(s, i, Fetched(s.rings[i], k)), i)
    ensures Holds(run[8], i, (PlaceOf(s.rings[i], k), s.rings[i].slots[k]))
  {
    hide Inv, StepsTo, PlaceOf, Settles, Ring.Valid;
    var r1, o1 := LagFetches(s, i, k);
    var f := (PlaceOf(s.rings[i], k), s.rings[i].slots[k]);
    var t := SetRing(s, i, Fetched(s.rings[i], k));
    SettlesFrom(t, r1[4], i);
    assert NoGenerationAlias(r1[4], i);
    var r2, o2 := SecondPass(r1[4], i, f);
    Joined(r1, o1, r2, o2);
    run, ops := r1 + r2[1..], o1 + o2;
  }

  const BLANK := Inline(0, 0, 0, 0)
  const FIRST := DmaRef(1, 0, 0)
  const SECOND := DmaRef(1, 1, 0)
  const NEXT := DmaRef(1, 0, 4)

  /** A four-slot ring after its first p entries, of which the device was told of t and took c. */
  function Small(slots: seq<Entry>, hist: seq<Entry>, t: nat, c: nat, seen: nat): Ring
    requires |hist| < 4 && c <= |hist|
  {
    Ring(4, |hist|, seen, 0, true, slots, t, c, hist, hist[..c], seen, t, t, 0, {})
  }

  function Alone(r: Ring, uses: map<nat, map<nat, Use>>, freed: set<nat>, next: nat): System {
    System([r], NoPass, [], 0, 0, uses, freed, {}, next)
  }

  lemma FourIsCapacity()
    ensures IsCapacity(4)
  {
    assert IsPowerOfTwo(2);
  }

  lemma PutsSmall(slots: seq<Entry>, hist: seq<Entry>, c: nat, uses: map<nat, map<nat, Use>>, freed: set<nat>,
          n: nat, e: Entry)
    requires |slots| == 4 && c <= |hist| < 3 && (e.DmaRef? ==> e.buf in uses)
    ensures var r := Small(slots, hist, c, c, c);
            StepsTo(Alone(r, uses, freed, n), HostPut(0, e),
                Alone(Small(slots[|hist| := e], hist + [e], c, c, c), NoteUse(uses, e, 0, r), freed, n))
  {
    FourIsCapacity();
    assert (hist + [e])[..c] == hist[..c];
  }

  lemma RingsSmall(slots: seq<Entry>, hist: seq<Entry>, c: nat, uses: map<nat, map<nat, Use>>, freed: set<nat>, n: nat)
    requires |slots| == 4 && c <= |hist| < 4
    ensures StepsTo(Alone(Small(slots, hist, c, c, c), uses, freed, n), HostDoorbell(0),
                    Alone(Small(slots, hist, |hist|, c, c), uses, freed, n))
  {
    FourIsCapacity();
  }

  lemma ConsumesSmall(slots: seq<Entry>, hist: seq<Entry>, t: nat, c: nat, uses: map<nat, map<nat, Use>>,
          freed: set<nat>, n: nat)
    requires |slots| == 4 && c < t <= |hist| < 4 && hist[c] == slots[c]
    ensures StepsTo(Alone(Small(slots, hist, t, c, c), uses, freed, n), DevConsume(0, hist[c]),
                    Alone(Small(slots, hist, t, c + 1, c), uses, freed, n))
  {
    FourIsCapacity();
    assert hist[..c] + [hist[c]] == hist[..c + 1];
  }

  lemma AllocStep(s: System) returns (t: System)
    requires Shaped(s) && s.pass == NoPass
    ensures StepsTo(s, HostAlloc, t) && Shaped(t)
    ensures var none: map<nat, Use> := map[]; t == s.(uses := s.uses[s.next := none], next := s.next + 1)
  {
    t := Step(s, HostAlloc);
  }

  /** A buffer allocated, its descriptor queued on the idle ring and rung. */
  lemma Queues(slots: seq<Entry>, hist: seq<Entry>, freed: set<nat>, b: nat) returns (run: seq<System>, ops: seq<SysOp>)
    requires |slots| == 4 && |hist| < 3
    ensures var c, e := |hist|, DmaRef(1, b, 0);
            && IsRun(run, ops) && ops == [HostAlloc, HostPut(0, e), HostDoorbell(0)]
            && run[0] == Alone(Small(slots, hist, c, c, c), map[], freed, b)
            && run[3] ==
                Alone(Small(slots[c := e], hist + [e], c + 1, c, c), map[b := map[0 := Use(0, c)]], freed, b + 1)
  {
    hide StepsTo;
    var c, e := |hist|, DmaRef(1, b, 0);
    var none: map<nat, Use> := map[];
    var s0 := Alone(Small(slots, hist, c, c, c), map[], freed, b);
    var s1 := Alone(Small(slots, hist, c, c, c), map[b := none], freed, b + 1);
    var s2 := Alone(Small(slots[c := e], hist + [e], c, c, c), map[b := map[0 := Use(0, c)]], freed, b + 1);
    var s3 := Alone(Small(slots[c := e], hist + [e], c + 1, c, c), s2.uses, freed, b + 1);
    FourIsCapacity();
    var s1' := AllocStep(s0);
    assert s1' == s1;
    PutsSmall(slots, hist, c, map[b := none], freed, b + 1, e);
    assert none[0 := Use(0, c)] == map[0 := Use(0, c)];
    assert NoteUse(map[b := none], e, 0, s1.rings[0]) == s2.uses;
    RingsSmall(slots[c := e], hist + [e], c, s2.uses, freed, b + 1);
    run, ops := [s0, s1, s2, s3], [HostAlloc, HostPut(0, e), HostDoorbell(0)];
  }

  /** The device consumes it, the driver looks and frees the buffer. */
  lemma Completes() returns (run: seq<System>, ops: seq<SysOp>)
    ensures var slots := [FIRST, BLANK, BLANK, BLANK];
            && IsRun(run, ops) && ops == [DevConsume(0, FIRST), HostUpdatePos(0), HostFree(0)]
            && run[0] == Alone(Small(slots, [FIRST], 1, 0, 0), map[0 := map[0 := Use(0, 0)]], {}, 1)
            && run[3] == Alone(Small(slots, [FIRST], 1, 1, 1), map[], {0}, 1)
  {
    FourIsCapacity();
    var slots, uses := [FIRST, BLANK, BLANK, BLANK], map[0 := map[0 := Use(0, 0)]];
    var s0 := Alone(Small(slots, [FIRST], 1, 0, 0), uses, {}, 1);
    var s1 := Alone(Small(slots, [FIRST], 1, 1, 0), uses, {}, 1);
    var s2 := Alone(Small(slots, [FIRST], 1, 1, 1), uses, {}, 1);
    var s3 := Alone(Small(slots, [FIRST], 1, 1, 1), map[], {0}, 1);
    ConsumesSmall(slots, [FIRST], 1, 0, uses, {}, 1);
    assert StepsTo(s1, HostUpdatePos(0), s2);
    assert StepsTo(s2, HostFree(0), s3);
    run, ops := [s0, s1, s2, s3], [DevConsume(0, FIRST), HostUpdatePos(0), HostFree(0)];
  }

  /** One command over and freed, a second rung behind it. */
  lemma TwoCommands() returns (run: seq<System>, ops: seq<SysOp>)
    ensures IsRun(run, ops) && Init(run[0]) && KeepsStep(run, ops, |ops|)
    ensures run[|ops|] ==
              Alone(Small([FIRST, SECOND, BLANK, BLANK], [FIRST, SECOND], 2, 1, 1), map[1 := map[0 := Use(0, 1)]],
                  {0}, 2)
  {
    hide StepsTo;
    FourIsCapacity();
    var blank, one := [BLANK, BLANK, BLANK, BLANK], [FIRST, BLANK, BLANK, BLANK];
    var r1, o1 := Queues(blank, [], {}, 0);
    assert blank[0 := FIRST] == one && [] + [FIRST] == [FIRST];
    var r2, o2 := Completes();
    Joined(r1, o1, r2, o2);
    var r3, o3 := Queues(one, [FIRST], {0}, 1);
    assert one[1 := SECOND] == [FIRST, SECOND, BLANK, BLANK] && [FIRST] + [SECOND] == [FIRST, SECOND];
    Joined(r1 + r2[1..], o1 + o2, r3, o3);
    run, ops := r1 + r2[1..] + r3[1..], o1 + o2 + o3;
  }

  /** A single entry outstanding at the start of one resync, and the device holds a descriptor of a
      buffer freed before it: a run from a probe state. */
  lemma ResyncCanFail() returns (run: seq<System>, ops: seq<SysOp>)
    ensures IsRun(run, ops) && Init(run[0]) && run[|ops|].pass == NoPass && !Safe(run[|ops|])
  {
    var r1, o1 := TwoCommands();
    DmaSafety(r1, o1, |o1|);
    FourIsCapacity();
    var s := r1[|o1|];
    assert PlaceOf(s.rings[0], 0) == 4;
    var r2, o2 := LagSettles(s, 0, 0);
    HoldsFreed(r2[8], 0, (4, FIRST));
    Joined(r1, o1, r2, o2);
    run, ops := r1 + r2[1..], o1 + o2;
  }

  const TWICE: map<nat, map<nat, Use>> := map[0 := map[0 := Use(0, 0)]]

  /** A ring with two references to buffer 0, both rung and one consumed; the command timed out. */
  function Parked(refs: seq<Ref>): System {
    Alone(Small([FIRST, NEXT, BLANK, BLANK], [FIRST, NEXT], 2, 1, 0), map[], {}, 1).(
      orphans := [Orphan(0, 8, refs)], count := 1, bytes := 8)
  }

  const WAITING := Ref(0, 0, 2, 0, 0, false, 2, 0, 0)

  lemma Allocates(slots: seq<Entry>)
    requires |slots| == 4
    ensures var s, none: map<nat, Use> := Alone(Small(slots, [], 0, 0, 0), map[], {}, 0), map[];
            Init(s) && StepsTo(s, HostAlloc, s.(uses := map[0 := none], next := 1))
  {
    FourIsCapacity();
  }

  /** The command queued, rung, half consumed. */
  lemma HalfDone() returns (run: seq<System>, ops: seq<SysOp>)
    ensures IsRun(run, ops) && Init(run[0])
    ensures ops == [HostAlloc, HostPut(0, FIRST), HostPut(0, NEXT), HostDoorbell(0), DevConsume(0, FIRST)]
    ensures run[5] == Alone(Small([FIRST, NEXT, BLANK, BLANK], [FIRST, NEXT], 2, 1, 0), TWICE, {}, 1)
  {
    hide StepsTo;
    var blank, one := [BLANK, BLANK, BLANK, BLANK], [FIRST, BLANK, BLANK, BLANK];
    var both := [FIRST, NEXT, BLANK, BLANK];
    assert one[1 := NEXT] == both && blank[0 := FIRST] == one && [] + [FIRST] == [FIRST];
    assert [FIRST] + [NEXT] == [FIRST, NEXT];
    var none: map<nat, Use> := map[];
    var s0 := Alone(Small(blank, [], 0, 0, 0), map[], {}, 0);
    var s1 := Alone(Small(blank, [], 0, 0, 0), map[0 := none], {}, 1);
    Allocates(blank);
    PutsSmall(blank, [], 0, map[0 := none], {}, 1, FIRST);
    assert NoteUse(map[0 := none], FIRST, 0, s1.rings[0]) == TWICE;
    var s2 := Alone(Small(one, [FIRST], 0, 0, 0), TWICE, {}, 1);
    PutsSmall(one, [FIRST], 0, TWICE, {}, 1, NEXT);
    assert TWICE[0][0 := Use(0, 0)] == TWICE[0];
    assert NoteUse(TWICE, NEXT, 0, s2.rings[0]) == TWICE;
    var s3 := Alone(Small(both, [FIRST, NEXT], 0, 0, 0), TWICE, {}, 1);
    RingsSmall(both, [FIRST, NEXT], 0, TWICE, {}, 1);
    var s4 := Alone(Small(both, [FIRST, NEXT], 2, 0, 0), TWICE, {}, 1);
    ConsumesSmall(both, [FIRST, NEXT], 2, 0, TWICE, {}, 1);
    var s5 := Alone(Small(both, [FIRST, NEXT], 2, 1, 0), TWICE, {}, 1);
    run := [s0, s1, s2, s3, s4, s5];
    ops := [HostAlloc, HostPut(0, FIRST), HostPut(0, NEXT), HostDoorbell(0), DevConsume(0, FIRST)];
  }

  lemma Parks()
    ensures StepsTo(Alone(Small([FIRST, NEXT, BLANK, BLANK], [FIRST, NEXT], 2, 1, 0), TWICE, {}, 1),
                    HostPark(0, 8, [OnRing(0, 0), Nobody]), Parked([WAITING, NoRing]))
  {
    FourIsCapacity();
    var s := Alone(Small([FIRST, NEXT, BLANK, BLANK], [FIRST, NEXT], 2, 1, 0), TWICE, {}, 1);
    var on := [OnRing(0, 0), Nobody];
    assert MayPark(s, 0, on) by { assert on[0].OnRing?; }
    assert RaiseFloor(s.rings, on) == s.rings;
    assert Step(s, HostPark(0, 8, on)).orphans[0].refs == [WAITING, NoRing];
  }

  /** The command times out and its buffer is parked: nothing has been freed yet. */
  lemma TimesOut() returns (run: seq<System>, ops: seq<SysOp>)
    ensures IsRun(run, ops) && Init(run[0]) && KeepsStep(run, ops, |ops|) && forall op <- ops :: !op.HostRead?
    ensures run[|ops|] == Parked([WAITING, NoRing])
  {
    hide StepsTo;
    var r1, o1 := HalfDone();
    Parks();
    var r2, o2 := [r1[5], Parked([WAITING, NoRing])], [HostPark(0, 8, [OnRing(0, 0), Nobody])];
    Joined(r1, o1, r2, o2);
    run, ops := r1 + r2[1..], o1 + o2;
  }

  /** After the resync the reference passes its test, and the buffer is freed. */
  lemma Reclaims(s: System) returns (run: seq<System>, ops: seq<SysOp>)
    requires |s.rings| == 1 && s.rings[0].Shaped() && s.pass == NoPass
    requires s.orphans == [Orphan(0, 8, [WAITING, NoRing])]
    requires var r := s.rings[0]; r.capacity == 4 && r.position == 2 && r.gen == 0
    ensures IsRun(run, ops) && run[0] == s && ops == [HostCheckRef(0, 0), HostReclaim(0)]
    ensures 0 in run[2].freed && forall f :: Holds(s, 0, f) ==> Holds(run[2], 0, f)
  {
    var s1, s2 := Step(s, HostCheckRef(0, 0)), Step(Step(s, HostCheckRef(0, 0)), HostReclaim(0));
    run, ops := [s, s1, s2], [HostCheckRef(0, 0), HostReclaim(0)];
  }

  /** No slot names a freed buffer when the resync of a timed-out command begins, and no access of
      it is unsafe; but it reads the parked buffer's descriptor a ring ahead, its reference then
      passes the test, and the device is left with a descriptor of a buffer freed afterwards. */
  lemma ParkedResyncCanFail() returns (run: seq<System>, ops: seq<SysOp>, m: nat)
    ensures IsRun(run, ops) && Init(run[0]) && m < |ops| && !Safe(run[|ops|])
    ensures forall j :: 0 <= j < |ops| ==> (ops[j].HostRead? <==> j == m)
    ensures ops[m] == HostRead(0) && Inv(run[m]) && forall k: nat :: !Relic(run[m], 0, k)
  {
    var r1, o1 := TimesOut();
    DmaSafety(r1, o1, |o1|);
    FourIsCapacity();
    var s := r1[|o1|];
    assert PlaceOf(s.rings[0], 0) == 4;
    var r2, o2 := LagSettles(s, 0, 0);
    var r3, o3 := Reclaims(r2[8]);
    HoldsFreed(r3[2], 0, (4, FIRST));
    Joined(r1, o1, r2, o2);
    Joined(r1 + r2[1..], o1 + o2, r3, o3);
    run, ops, m := r1 + r2[1..] + r3[1..], o1 + o2 + o3, |o1|;
  }

  // ---------- the exact condition over whole runs ----------

  /** A run that begins with a resync of ring i and from then on resyncs only idle rings. */
  ghost predicate IdleAfter(s: System, i: nat, run: seq<System>, ops: seq<SysOp>) {
    && IsRun(run, ops) && run[0] == s && ops != [] && ops[0] == HostRead(i)
    && forall k {:trigger ops[k]} :: 0 < k < |ops| ==> BeginIdle(run[k], ops[k])
  }

  /** The ring as the software half of a fallen-through resync leaves it: producer and cached position
      one index behind the device, which may go on almost a whole ring. */
  predicate OneBehind(r: Ring) {
    && r.Shaped() && r.live && |r.log| > 0 && OnIndex(r) && r.writePtr == r.hwPos == Behind(r)
    && |r.hist| == |r.log| == r.floor && r.target == |r.log| - 1 + r.capacity
  }

  lemma ResyncsBehind(r: Ring)
    requires r.Shaped() && r.live && |r.log| > 0 && OnIndex(r) && r.target == |r.log| - 1 + r.capacity
    ensures OneBehind(ResyncGen(r, Behind(r)))
  {
  }

  lemma LeavesBehind(s: System, i: nat, t: System) returns (u: System)
    requires Inv(s) && i < |s.rings| && !s.rings[i].Idle() && NoGenerationAlias(s, i)
    requires Ahead(s, i, t) && Shaped(t) && t.pass == Settled(i, Behind(t.rings[i]))
    ensures StepsTo(t, HostResync(false), u)
    ensures Shaped(u) && u.pass == NoPass && i < |u.rings| && OneBehind(u.rings[i])
  {
    NotIdleIsLive(s, i);
    assert NoGenerationAlias(t, i);
    ResyncsBehind(t.rings[i]);
    hide Behind, OnIndex, NoGenerationAlias, Inv, OneBehind;
    u := Step(t, HostResync(false));
    StepKeepsShape(t, HostResync(false));
  }

  lemma EmptyHasRoom(r: Ring)
    requires r.Shaped() && r.writePtr == r.hwPos
    ensures FreeSlots(r) > 0
  {
    RingRoom(0, 0, r.capacity);
  }

  lemma NextAfterBehind(r: Ring)
    requires r.Shaped() && |r.log| > 0
    ensures Masked(Behind(r) + 1, r.capacity) == |r.log| % r.capacity
  {
    RemainderOfDifference(|r.log| - 1, 0, 1, r.capacity);
    SmallRemainder(0, r.capacity);
  }

  /** The first put goes to the slot the device has just passed; the driver's next look finds the
      ring empty again. */
  lemma FirstPut(r: Ring, e: Entry)
    requires OneBehind(r)
    ensures FreeSlots(r) > 0 && r.writePtr < |r.slots|
    ensures var r2 := UpdatePos(PutSlot(r, e)); r2.Shaped() && FreeSlots(r2) > 0 && r2.writePtr == |r.log| % r.capacity
  {
    EmptyHasRoom(r);
    NextAfterBehind(r);
    EmptyHasRoom(UpdatePos(PutSlot(r, e)));
  }

  /** ... and the second to the slot next in line. */
  function TwoPuts(r: Ring, e: Entry): (r': Ring)
    requires OneBehind(r)
    ensures r' == r.(slots := r'.slots, writePtr := r'.writePtr, hwPos := r'.hwPos, seen := r'.seen,
                     hist := r.hist + [e, e])
    ensures r'.Shaped() && r'.slots[|r.log| % r.capacity] == e
  {
    FirstPut(r, e);
    assert r.hist + [e] + [e] == r.hist + [e, e];
    PutSlot(UpdatePos(PutSlot(r, e)), e)
  }

  lemma PutStep(s: System, i: nat, e: Entry) returns (t: System)
    requires Shaped(s) && s.pass == NoPass && i < |s.rings| && s.rings[i].live && FreeSlots(s.rings[i]) > 0
    requires e.DmaRef? ==> e.buf in s.uses
    ensures StepsTo(s, HostPut(i, e), t) && Shaped(t)
    ensures t == SetRing(s, i, PutSlot(s.rings[i], e)).(uses := NoteUse(s.uses, e, i, s.rings[i]))
  {
    t := Step(s, HostPut(i, e));
    StepKeepsShape(s, HostPut(i, e));
  }

  lemma LookStep(s: System, i: nat) returns (t: System)
    requires Shaped(s) && s.pass == NoPass && i < |s.rings|
    ensures StepsTo(s, HostUpdatePos(i), t) && Shaped(t) && t == SetRing(s, i, UpdatePos(s.rings[i]))
  {
    t := Step(s, HostUpdatePos(i));
    StepKeepsShape(s, HostUpdatePos(i));
  }

  /** What the two puts record for the buffer. */
  lemma UsesBehind(uses: map<nat, map<nat, Use>>, b: nat, i: nat, r: Ring, r2: Ring)
    requires r2.gens == r.gens && |r.hist| <= |r2.hist|
    ensures var e, none: map<nat, Use> := DmaRef(1, b, 0), map[];
            NoteUse(NoteUse(uses[b := none], e, i, r), e, i, r2) == uses[b := map[i := Use(r.gens, |r.hist|)]]
  {
    var u := Use(r.gens, |r.hist|);
    var none: map<nat, Use> := map[];
    assert none[i := u] == map[i := u] && map[i := u][i := u] == map[i := u];
  }

  /** A new buffer, two descriptors of it queued on ring i. */
  lemma QueuesBehind(s: System, i: nat) returns (run: seq<System>, ops: seq<SysOp>)
    requires Shaped(s) && s.pass == NoPass && i < |s.rings| && OneBehind(s.rings[i])
    ensures var e, r := DmaRef(1, s.next, 0), s.rings[i];
            && ops == [HostAlloc, HostPut(i, e), HostUpdatePos(i), HostPut(i, e)]
            && IsRun(run, ops) && run[0] == s && Shaped(run[4])
            && run[4] == SetRing(s, i, TwoPuts(r, e)).(
                 uses := s.uses[s.next := map[i := Use(r.gens, |r.log|)]], next := s.next + 1)
  {
    hide Behind, FreeSlots, StepsTo, NoteUse, Ring.Shaped;
    var b, r, e := s.next, s.rings[i], DmaRef(1, s.next, 0);
    FirstPut(r, e);
    var r1 := PutSlot(r, e);
    var s1 := AllocStep(s);
    NoteKeeps(s1.uses, e, i, r);
    var s2 := PutStep(s1, i, e);
    var s3 := LookStep(s2, i);
    var s4 := PutStep(s3, i, e);
    UsesBehind(s.uses, b, i, r, UpdatePos(r1));
    assert s2.rings == s.rings[i := r1] && s3.rings == s.rings[i := UpdatePos(r1)];
    assert s4.rings == s.rings[i := TwoPuts(r, e)];
    run, ops := [s, s1, s2, s3, s4], [HostAlloc, HostPut(i, e), HostUpdatePos(i), HostPut(i, e)];
  }

  lemma NoteKeeps(uses: map<nat, map<nat, Use>>, e: Entry, i: nat, r: Ring)
    requires e.DmaRef? && e.buf in uses
    ensures e.buf in NoteUse(uses, e, i, r)
  {
  }

  /** The device reads the entry next in line; the command withdraws both and frees its buffer. */
  lemma WithdrawsBehind(s: System, i: nat, b: nat, e: Entry) returns (run: seq<System>, ops: seq<SysOp>)
    requires Shaped(s) && s.pass == NoPass && i < |s.rings| && e == DmaRef(1, b, 0)
    requires var r, c := s.rings[i], |s.rings[i].log|;
             && r.slots[c % r.capacity] == e && c == r.floor <= |r.hist| && c < r.target
             && b in s.uses && s.uses[b] == map[i := Use(r.gens, c)]
    ensures IsRun(run, ops) && run[0] == s
    ensures var c := |s.rings[i].log|; ops == [DevFetch(i, c), HostUnwind(i, c), HostFree(b)]
    ensures !Safe(run[3])
  {
    var c := |s.rings[i].log|;
    var s1 := FetchAt(s, i, c);
    var s2 := Step(s1, HostUnwind(i, c));
    StepKeepsShape(s1, HostUnwind(i, c));
    var s3 := Step(s2, HostFree(b));
    run, ops := [s, s1, s2, s3], [DevFetch(i, c), HostUnwind(i, c), HostFree(b)];
    HoldsFreed(s3, i, (c, e));
  }

  lemma FailsBehind(s: System, i: nat) returns (run: seq<System>, ops: seq<SysOp>)
    requires Shaped(s) && s.pass == NoPass && i < |s.rings| && OneBehind(s.rings[i])
    ensures IsRun(run, ops) && run[0] == s && !Safe(run[|ops|]) && forall op <- ops :: !op.HostRead?
  {
    hide StepsTo, Safe, Behind, OnIndex;
    var r1, o1 := QueuesBehind(s, i);
    var r2, o2 := WithdrawsBehind(r1[4], i, s.next, DmaRef(1, s.next, 0));
    Joined(r1, o1, r2, o2);
    run, ops := r1 + r2[1..], o1 + o2;
  }

  /** A resync begun with something outstanding, and a run after it that resyncs nothing else. */
  lemma FailsWhenBusy(s: System, i: nat) returns (run: seq<System>, ops: seq<SysOp>)
    requires Inv(s) && s.pass == NoPass && i < |s.rings| && !s.rings[i].Idle() && NoGenerationAlias(s, i)
    ensures IdleAfter(s, i, run, ops) && !Safe(run[|ops|])
  {
    hide Inv, StepsTo, Safe, Behind, OnIndex, OneBehind, NoGenerationAlias, Ahead;
    var r1, o1 := FallsThrough(s, i);
    var u := LeavesBehind(s, i, r1[|o1|]);
    Joined(r1, o1, [r1[|o1|], u], [HostResync(false)]);
    run, ops := r1 + [r1[|o1|], u][1..], o1 + [HostResync(false)];
    var r2, o2 := FailsBehind(u, i);
    Joined(run, ops, r2, o2);
    run, ops := run + r2[1..], ops + o2;
    forall k | 0 < k < |ops| ensures !ops[k].HostRead? {
      if k < |o1| { assert ops[k] == o1[k] && Accesses(o1[k]); }
    }
  }

  /** Over whole runs, too, it is the idle ring that makes a resync safe: of the runs that begin with
      a resync of ring i and from then on resync only idle rings, all are safe if and only if ring i
      is idle when it begins. */
  lemma SafeIffIdle(s: System, i: nat)
    requires Inv(s) && s.pass == NoPass && i < |s.rings|
    ensures s.rings[i].Idle() ==>
              forall run: seq<System>, ops: seq<SysOp>, k: nat | IdleAfter(s, i, run, ops) && k < |run| :: Safe(run[k])
    ensures NoGenerationAlias(s, i) ==>
              (s.rings[i].Idle() <==>
                 forall run: seq<System>, ops: seq<SysOp>, k: nat | IdleAfter(s, i, run, ops) && k < |run| ::
                   Safe(run[k]))
  {
    hide Inv, StepsTo, Safe, NoGenerationAlias;
    if s.rings[i].Idle() {
      forall run: seq<System>, ops: seq<SysOp>, k: nat | IdleAfter(s, i, run, ops) && k < |run| ensures Safe(run[k]) {
        forall m | 0 <= m < |ops| ensures BeginIdle(run[m], ops[m]) {}
        StandsThrough(run, ops, k);
        InvIsSafe(run[k]);
      }
    } else if NoGenerationAlias(s, i) {
      var run, ops := FailsWhenBusy(s, i);
      assert !Safe(run[|ops|]);
    }
  }
}
