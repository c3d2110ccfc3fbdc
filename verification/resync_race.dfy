/** The register half of a ring resync as the loop it is, with the device consuming between any two
    accesses.  ResyncSafety shows that its condition for success cannot be weakened. */
module ResyncRace {
  import opened Indices

  const RING_SIZE := 0x400
  const TRIES := 3

  /** Consumption counter and target counter behind POSITION and DOORBELL. */
  class Registers {
    var consumed: nat
    var target: nat

    predicate Valid()
      reads this
    {
      consumed <= target < consumed + RING_SIZE
    }

    constructor (consumed: nat, target: nat)
      requires consumed <= target < consumed + RING_SIZE
      ensures Valid() && this.consumed == consumed && this.target == target
    {
      this.consumed, this.target := consumed, target;
    }

    method DeviceMoves()
      requires Valid()
      modifies `consumed
      ensures Valid() && consumed >= old(consumed)
    {
      var n: nat :| consumed + n <= target;
      consumed := consumed + n;
    }

    method ReadPosition() returns (pos: nat)
      requires Valid()
      modifies `consumed
      ensures Valid() && consumed >= old(consumed) && pos == consumed % RING_SIZE
    {
      DeviceMoves();
      pos := consumed % RING_SIZE;
    }

    /** The device takes DOORBELL as the next counter with that index. */
    method WriteDoorbell(pos: nat)
      requires Valid() && pos < RING_SIZE
      modifies this
      ensures Valid() && old(consumed) <= consumed <= old(target)
      ensures target == consumed + (pos - consumed) % RING_SIZE
    {
      DeviceMoves();
      target := consumed + (pos - consumed) % RING_SIZE;
    }

    /** ua_dsp_ring_regs_resync().  `seen` is the counter at the last POSITION read the result came
        from, `written` the counter when DOORBELL was last written. */
    method RegsResync() returns (pos: nat, settled: bool, ghost seen: nat, ghost written: nat)
      requires Valid()
      modifies this
      ensures Valid() && pos < RING_SIZE && pos == seen % RING_SIZE
      ensures old(consumed) <= seen <= written <= consumed
      // begun with nothing rung outstanding, the first pass settles and the device stays put
      ensures old(target) == old(consumed) ==> settled && target == consumed == old(consumed)
      // left through the comparison: the device stands on the index it was told to stop at
      ensures settled ==> target == consumed && consumed % RING_SIZE == pos
      // settled on the latest index: right exactly if nothing was consumed since it was read
      ensures !settled ==> (target == consumed <==> seen == written)
      ensures !settled && seen < written ==> target == seen + RING_SIZE
    {
      pos := ReadPosition();
      seen := consumed;
      var tries := 0;
      while tries < TRIES
        invariant Valid() && 0 <= tries <= TRIES && old(consumed) <= seen == consumed && pos == seen % RING_SIZE
        invariant old(target) == old(consumed) ==> tries == 0 && target == consumed == old(consumed)
      {
        WriteDoorbell(pos);
        written := consumed;
        NextTarget(seen, written, target);
        var next := ReadPosition();
        if next == pos {
          StandsOnTarget(seen, written, consumed, target);
          return pos, true, seen, written;
        }
        pos, seen := next, consumed;
        tries := tries + 1;
      }
      WriteDoorbell(pos);
      written := consumed;
      NextTarget(seen, written, target);
      return pos, false, seen, written;
    }
  }

  /** A DOORBELL value read before the device moved on points a whole ring ahead. */
  lemma NextTarget(seen: nat, written: nat, target: int)
    requires seen <= written < seen + RING_SIZE
    requires target == written + (seen % RING_SIZE - written) % RING_SIZE
    ensures target == if written == seen then seen else seen + RING_SIZE
  {
  }

  /** Found again on the index it was given, the device has reached its target. */
  lemma StandsOnTarget(seen: nat, written: nat, consumed: nat, target: nat)
    requires seen <= written <= consumed <= target
    requires target == if written == seen then seen else seen + RING_SIZE
    requires consumed % RING_SIZE == seen % RING_SIZE
    ensures consumed == target
  {
  }
}
