/** The cached interrupt masks and the hardware's, and the one-shot DSP vectors that are masked as
    they fire and re-enabled by a work item. */
module IrqMasks {
  import opened Options

  const MAX_DSPS := 8
  const VEC_NOTIFICATION := 0x28
  const VEC_PERIODIC := 0x46
  const VEC_END_BUFFER := 0x47

  /** ua_vector_to_hwbit() */
  function HwBit(vector: nat): (b: Option<nat>)
    ensures b.Some? ==> b.value < 64
  {
    if vector == VEC_NOTIFICATION then Some(32)
    else if vector == VEC_PERIODIC then Some(62)
    else if vector == VEC_END_BUFFER then Some(63)
    else if vector < 32 then Some(vector)
    else None
  }

  /** ua_dsp_vec_hwbit(): vectors 0 and 1 of a DSP are its rings', 2 its message FIFO's. */
  function DspBit(dsps: nat, dsp: nat, j: nat): Option<nat> {
    if dsp >= MAX_DSPS || j > 4 then None
    else if dsps > 4 then if j == 4 then None else Some(dsp * 4 + j)
    else Some(dsp * 5 + j)
  }

  /** Different vectors have different bits, all in the low register. */
  lemma DspBitsDiffer(dsps: nat, d: nat, j: nat, d': nat, j': nat)
    requires dsps <= MAX_DSPS && d < dsps && d' < dsps && DspBit(dsps, d, j).Some? &&
             DspBit(dsps, d, j) == DspBit(dsps, d', j')
    ensures d == d' && j == j' && DspBit(dsps, d, j).value < 32
  {
  }

  datatype RingVec = RingVec(dsp: nat, j: nat)

  class Interrupts {
    const dsps: nat
    const hasRings: seq<bool>
    const is64: bool
    var up: bool                        // shutdown flag clear: register writes reach the device
    var maskLo: set<nat>
    var maskHi: set<nat>
    var imrLo: set<nat>                 // registers
    var imrHi: set<nat>
    var vecMask: set<nat>
    var armed: bool
    var tripped: bool
    var pendRearm: set<RingVec>
    var scheduled: bool                 // the message work is queued
    var taken: set<RingVec>             // re-arms the running work item holds
    ghost var promised: bool            // armed, and not masked, disarmed or tripped since

    /** Cached masks equal the hardware's whenever the lock is free. */
    ghost predicate CacheMatches()
      reads this
    {
      up ==> maskLo == imrLo && (if is64 then maskHi == imrHi else maskHi == {} && imrHi == {})
    }

    /** A one-shot vector is enabled, or its re-arm is queued with the work, or under way. */
    ghost predicate Owed(v: RingVec)
      reads this
    {
      DspBit(dsps, v.dsp, v.j).Some? && DspBit(dsps, v.dsp, v.j).value in vecMask ==>
        DspBit(dsps, v.dsp, v.j).value in maskLo || (v in pendRearm && scheduled) || v in taken
    }

    ghost predicate Promise()
      reads this
    {
      && armed && |hasRings| == dsps
      && (forall v: RingVec | v.dsp < dsps && v.j < 2 :: Owed(v))
      && (forall d: nat | d < dsps && hasRings[d] :: FifoOn(d))
      && (forall d: nat, j: nat | d < dsps && j < 2 && DspBit(dsps, d, j).Some? &&
          DspBit(dsps, d, j).value in vecMask :: hasRings[d])
    }

    ghost predicate FifoOn(d: nat)
      reads this
    {
      DspBit(dsps, d, 2).Some? && DspBit(dsps, d, 2).value in vecMask && DspBit(dsps, d, 2).value in maskLo
    }

    ghost predicate Valid()
      reads this
    {
      dsps <= MAX_DSPS && |hasRings| == dsps && CacheMatches() && (promised && up ==> Promise())
    }

    constructor (dsps: nat, hasRings: seq<bool>, is64: bool)
      requires dsps <= MAX_DSPS && |hasRings| == dsps
      ensures Valid() && up && !armed && maskLo == {}
    {
      this.dsps, this.hasRings, this.is64 := dsps, hasRings, is64;
      up, maskLo, maskHi, imrLo, imrHi, vecMask := true, {}, {}, {}, {}, {};
      armed, tripped, pendRearm, scheduled, taken, promised := false, false, {}, false, {}, false;
    }

    method Shutdown()
      requires Valid()
      modifies `up
      ensures Valid() && !up
    {
      up := false;
    }

    // ---------- generic vectors ----------

    /** ua_enable_vector() */
    method EnableVector(vector: nat)
      requires Valid()
      modifies `maskLo, `maskHi, `imrLo, `imrHi
      ensures Valid()
      ensures maskLo ==
              old(maskLo) + (if HwBit(vector).Some? && HwBit(vector).value < 32 then {HwBit(vector).value} else {})
      ensures maskHi ==
              old(maskHi) +
                  (if HwBit(vector).Some? && HwBit(vector).value >= 32 && is64 then {HwBit(vector).value - 32} else {})
    {
      var b := HwBit(vector);
      if b.None? || (b.value >= 32 && !is64) { return; }
      if b.value < 32 {
        maskLo := maskLo + {b.value};
        if up { imrLo := maskLo; }
      } else {
        maskHi := maskHi + {b.value - 32};
        if up { imrHi := maskHi; }
      }
    }

    /** ua_disable_vector(); masking a DSP vector this way ends the promise. */
    method DisableVector(vector: nat)
      requires Valid()
      modifies `maskLo, `maskHi, `imrLo, `imrHi, `promised
      ensures Valid()
      ensures maskLo ==
              old(maskLo) - (if HwBit(vector).Some? && HwBit(vector).value < 32 then {HwBit(vector).value} else {})
      ensures maskHi ==
              old(maskHi) -
                  (if HwBit(vector).Some? && HwBit(vector).value >= 32 && is64 then {HwBit(vector).value - 32} else {})
      ensures promised == (old(promised) && (HwBit(vector).Some? ==> HwBit(vector).value !in vecMask))
    {
      var b := HwBit(vector);
      if b.Some? && b.value in vecMask { promised := false; }
      if b.None? || (b.value >= 32 && !is64) { return; }
      if b.value < 32 {
        maskLo := maskLo - {b.value};
        if up { imrLo := maskLo; }
      } else {
        maskHi := maskHi - {b.value - 32};
        if up { imrHi := maskHi; }
      }
    }

    /** ua_irq_mask_all() */
    method MaskAll()
      requires Valid()
      modifies `maskLo, `maskHi, `imrLo, `imrHi, `promised
      ensures Valid() && maskLo == {} && maskHi == {} && !promised && (up ==> imrLo == {})
    {
      maskLo, maskHi, promised := {}, {}, false;
      if up {
        imrLo := {};
        if is64 { imrHi := {}; }
      }
    }

    /** ua_period_timer_rearm() */
    method TimerRearm(transportWithTimer: bool)
      requires Valid()
      modifies `maskHi, `imrHi
      ensures Valid() && maskHi == old(maskHi) + (if is64 && up && transportWithTimer then {30} else {})
      ensures is64 && up && transportWithTimer ==> imrHi == maskHi
    {
      if !is64 || !up { return; }
      if transportWithTimer {
        maskHi := maskHi + {30};
        imrHi := maskHi;
      }
    }

    // ---------- DSP vectors ----------

    /** The bits an arm enables: with level 1 from the FIFO vector up, with level 2 all. */
    function ArmBits(level: nat): set<nat>
    {
      set b: nat | b < 64 && IsArmBit(level, b)
    }

    predicate IsArmBit(level: nat, b: nat)
    {
      exists d: nat, j: nat ::
          d < dsps && j < 5 && d < |hasRings| && hasRings[d] && ArmsTo(d, j, b) && (level >= 2 || j >= 2)
    }

    predicate ArmsTo(d: nat, j: nat, b: nat)
    {
      DspBit(dsps, d, j) == Some(b)
    }

    /** ua_dsp_irq_arm() */
    method Arm(level: nat)
      requires Valid()
      modifies this
      ensures Valid() && up == old(up)
      ensures up && level > 0 && ArmBits(level) != {} ==>
                promised && vecMask == ArmBits(level) && maskLo == old(maskLo) + vecMask && imrLo == maskLo
      ensures !(up && level > 0 && ArmBits(level) != {}) ==>
              maskLo == old(maskLo) && vecMask == old(vecMask) && armed == old(armed)
    {
      if level == 0 || !up { return; }
      var bits := CollectBits(level);
      if bits == {} { return; }
      vecMask := bits;
      armed, tripped, promised := true, false, true;
      maskLo := maskLo + bits;
      imrLo := maskLo;
      ArmFulfils(level);
    }

    method CollectBits(level: nat) returns (bits: set<nat>)
      requires dsps <= MAX_DSPS && |hasRings| == dsps
      ensures bits == ArmBits(level)
    {
      var first := if level >= 2 then 0 else 2;
      bits := {};
      var d := 0;
      while d < dsps
        invariant 0 <= d <= dsps
        invariant forall b: nat :: b in bits <==>
                  exists e: nat, j: nat :: e < d && hasRings[e] && first <= j < 5 && ArmsTo(e, j, b)
      {
        if hasRings[d] {
          var more := CollectDsp(d, first);
          bits := bits + more;
        }
        d := d + 1;
      }
      forall b: nat ensures b in bits <==> b in ArmBits(level) {
        if d: nat, j: nat :| d < dsps && hasRings[d] && first <= j < 5 && ArmsTo(d, j, b) {
          assert IsArmBit(level, b) && b < 64;
        }
      }
    }

    method CollectDsp(d: nat, first: nat) returns (bits: set<nat>)
      requires first <= 5
      ensures forall b: nat :: b in bits <==> exists j: nat :: first <= j < 5 && ArmsTo(d, j, b)
    {
      bits := {};
      var j := first;
      while j < 5
        invariant first <= j <= 5
        invariant forall b: nat :: b in bits <==> exists i: nat :: first <= i < j && ArmsTo(d, i, b)
      {
        var hw := DspBit(dsps, d, j);
        ghost var before := bits;
        if hw.Some? { bits := bits + {hw.value}; }
        forall b: nat ensures b in bits <==> exists i: nat :: first <= i < j + 1 && ArmsTo(d, i, b) {
          if ArmsTo(d, j, b) { assert hw.Some? && hw.value == b && j < j + 1; }
          if i: nat :| first <= i < j && ArmsTo(d, i, b) { assert b in before; }
        }
        j := j + 1;
      }
    }

    lemma ArmFulfils(level: nat)
      requires dsps <= MAX_DSPS && |hasRings| == dsps && level > 0
      requires vecMask == ArmBits(level) && vecMask <= maskLo && armed
      ensures Promise()
    {
      forall d: nat | d < dsps && hasRings[d] ensures FifoOn(d) {
        var b := DspBit(dsps, d, 2).value;
        assert ArmsTo(d, 2, b) && IsArmBit(level, b);
      }
      forall d: nat, j: nat | d < dsps && j < 2 && DspBit(dsps, d, j).Some? && DspBit(dsps, d, j).value in vecMask
        ensures hasRings[d]
      {
        var b := DspBit(dsps, d, j).value;
        assert IsArmBit(level, b);
        var e: nat, i: nat :| e < dsps && i < 5 && hasRings[e] && ArmsTo(e, i, b);
        DspBitsDiffer(dsps, d, j, e, i);
      }
    }

    /** ua_dsp_irq_disarm(); the work item is cancelled or waited for. */
    method Disarm()
      requires Valid() && taken == {}
      modifies this
      ensures Valid() && !armed && !promised && vecMask == {} && maskLo == old(maskLo - vecMask) && !scheduled
    {
      armed, promised := false, false;
      if vecMask != {} {
        maskLo := maskLo - vecMask;
        if up { imrLo := maskLo; }
        vecMask := {};
      }
      scheduled := false;
    }

    /** Ring vectors among the fired bits. */
    function OneShots(fired: set<nat>): set<RingVec>
    {
      set d: nat, j: nat | d < dsps && j < 2 && FiredRing(fired, d, j) :: RingVec(d, j)
    }

    predicate FiredRing(fired: set<nat>, d: nat, j: nat)
    {
      DspBit(dsps, d, j).Some? && DspBit(dsps, d, j).value in fired
    }

    function OneShotBits(fired: set<nat>): set<nat>
    {
      set b <- fired | IsRingBit(b)
    }

    predicate IsRingBit(b: nat)
    {
      exists d: nat, j: nat :: d < dsps && j < 2 && ArmsTo(d, j, b)
    }

    /** Any of the DSP's vectors fired? */
    predicate FiredAny(fired: set<nat>)
    {
      exists d: nat, j: nat :: d < dsps && j < 5 && FiredRing(fired, d, j)
    }

    /** ua_dsp_irq(): fired ring vectors are masked and their re-arm queued; a storm gives up all. */
    method Isr(fired: set<nat>, storm: bool)
      requires Valid()
      modifies this
      ensures Valid() && up == old(up) && taken == old(taken)
      ensures old(armed) && FiredAny(fired) && !storm ==>
                maskLo == old(maskLo) - OneShotBits(fired) && OneShots(fired) <= pendRearm && scheduled &&
                    promised == old(promised)
      ensures old(armed) && FiredAny(fired) && storm ==>
              maskLo == old(maskLo - vecMask) && vecMask == {} && !armed && !promised
      ensures !(old(armed) && FiredAny(fired)) ==>
              maskLo == old(maskLo) && pendRearm == old(pendRearm) && promised == old(promised)
    {
      if !armed || !FiredAny(fired) { return; }
      if storm {
        maskLo := maskLo - vecMask;
        if up { imrLo := maskLo; }
        vecMask, armed, tripped, promised, scheduled := {}, false, true, false, true;
        return;
      }
      var bits := OneShotBits(fired);
      if bits != {} {
        maskLo := maskLo - bits;
        if up { imrLo := maskLo; }
      }
      pendRearm := pendRearm + OneShots(fired);
      scheduled := true;
      if promised && up { MaskingOwes(fired, old(maskLo), old(pendRearm)); }
    }

    lemma MaskingOwes(fired: set<nat>, before: set<nat>, pendBefore: set<RingVec>)
      requires dsps <= MAX_DSPS && |hasRings| == dsps && armed && scheduled
      requires maskLo == before - OneShotBits(fired) && pendRearm == pendBefore + OneShots(fired)
      requires forall v: RingVec | v.dsp < dsps && v.j < 2 ::
                 DspBit(dsps, v.dsp, v.j).Some? && DspBit(dsps, v.dsp, v.j).value in vecMask ==>
                   DspBit(dsps, v.dsp, v.j).value in before || v in pendBefore || v in taken
      requires forall d: nat | d < dsps && hasRings[d] ::
                 DspBit(dsps, d, 2).Some? && DspBit(dsps, d, 2).value in vecMask && DspBit(dsps, d, 2).value in before
      requires forall d: nat, j: nat | d < dsps && j < 2 && DspBit(dsps, d, j).Some? &&
               DspBit(dsps, d, j).value in vecMask :: hasRings[d]
      ensures Promise()
    {
    }

    /** ua_dsp_msg_work(), first half: the queued re-arms become the running item's. */
    method WorkTake()
      requires Valid() && scheduled && taken == {}
      modifies `taken, `pendRearm, `scheduled
      ensures Valid() && taken == old(pendRearm) && pendRearm == {} && !scheduled
    {
      taken, pendRearm, scheduled := pendRearm, {}, false;
    }

    /** Second half: re-enable what it took, while the FIFO vectors are still on. */
    method WorkRearm()
      requires Valid()
      modifies `taken, `maskLo, `imrLo
      ensures Valid() && taken == {}
      ensures old(maskLo) <= maskLo <= old(maskLo) + vecMask && (!up || old(taken) == {} ==> maskLo == old(maskLo))
      ensures up && promised ==>
                forall v <- old(taken) ::
                    v.dsp < dsps && v.j < 2 && DspBit(dsps, v.dsp, v.j).Some? &&
                        DspBit(dsps, v.dsp, v.j).value in vecMask ==>
                  DspBit(dsps, v.dsp, v.j).value in maskLo
    {
      if !up || taken == {} {
        taken := {};
        return;
      }
      var bits := RearmBits();
      maskLo := maskLo + bits;
      imrLo := maskLo;
      taken := {};
    }

    /** The bits the re-arm loop sets. */
    method RearmBits() returns (bits: set<nat>)
      requires Valid() && up
      ensures forall b :: b in bits ==> b in vecMask
      ensures promised ==>
                forall v <- taken ::
                    v.dsp < dsps && v.j < 2 && DspBit(dsps, v.dsp, v.j).Some? &&
                        DspBit(dsps, v.dsp, v.j).value in vecMask ==>
                  DspBit(dsps, v.dsp, v.j).value in bits
    {
      bits := {};
      var d := 0;
      while d < dsps
        invariant 0 <= d <= dsps && forall b :: b in bits ==> b in vecMask
        invariant promised ==>
                    forall v <- taken ::
                        v.dsp < d && v.j < 2 && DspBit(dsps, v.dsp, v.j).Some? &&
                            DspBit(dsps, v.dsp, v.j).value in vecMask ==>
                      DspBit(dsps, v.dsp, v.j).value in bits
      {
        var fifo := DspBit(dsps, d, 2);
        if fifo.Some? && fifo.value in maskLo {
          var v0, v1 := DspBit(dsps, d, 0), DspBit(dsps, d, 1);
          if v0.Some? && RingVec(d, 0) in taken && v0.value in vecMask { bits := bits + {v0.value}; }
          if v1.Some? && RingVec(d, 1) in taken && v1.value in vecMask { bits := bits + {v1.value}; }
        }
        d := d + 1;
      }
    }
  }
}
