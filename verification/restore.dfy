/** Giving owned preamp channels back: CUSTOM off first, ordinary gain only after the device has
    consumed that, both fenced by drained batches, while everyone else keeps running. */
module Restore {
  import opened Bits
  import opened Lanes
  import opened Mailbox
  import opened Unison

  const READBACK_WORDS := 40
  const DRAIN_TRIES := 100
  const ALL_ONES: Word := set k: nat | k < 32 && LowBit(32, k)

  class Restorer {
    const host: Host
    var epoch: nat
    var seen: bool
    var generation: nat
    var readback: seq<Word>
    ghost var readAt: nat          // states of the mailbox gone by when the last readback came in

    ghost predicate Valid()
      reads this, host, host.mixer, host.mixer.val, host.mixer.mask, host.mixer.wordA, host.mixer.wordB
    {
      host.Valid() && |readback| == READBACK_WORDS && readAt <= |host.mixer.history|
    }

    constructor (host: Host, epoch: nat)
      requires host.Valid()
      ensures Valid() && this.host == host && this.epoch == epoch && !seen
    {
      this.host, this.epoch, seen, generation := host, epoch, false, 0;
      readback, readAt := seq(READBACK_WORDS, _ => {}), 0;
    }

    /** Time passed: no image was written, and a new readback is newer than every state before. */
    twostate predicate Waited()
      requires old(Valid())
      reads this, host, host.mixer
    {
      && old(host.mixer.history) <= host.mixer.history && host.mixer.images == old(host.mixer.images)
      && old(generation) <= generation && old(readAt) <= readAt
      && (generation != old(generation) ==> |old(host.mixer.history)| <= readAt)
    }

    // ---------- everyone else ----------

    /** While the lock is free: the device, its front panel, host writers, the service loop's flush
        and readback.  The plug-in host vetoes writes to `bits`; the panel has no control for them. */
    method Meanwhile(i: nat, bits: Word, ghost want: Word)
      requires Valid() && i < SETTINGS
      modifies this, host.mixer, host.mixer.val, host.mixer.mask, host.mixer.wordA, host.mixer.wordB
      ensures Valid() && Waited()
      ensures old(Holds(host.mixer.Now(), i, bits, want)) ==> Holds(host.mixer.Now(), i, bits, want)
      ensures old(Shows(host.mixer.Now(), i, bits, want)) ==> Shows(host.mixer.Now(), i, bits, want)
    {
      var n: nat :| true;
      while n > 0
        invariant Valid() && Waited()
        invariant old(Holds(host.mixer.Now(), i, bits, want)) ==> Holds(host.mixer.Now(), i, bits, want)
        invariant old(Shows(host.mixer.Now(), i, bits, want)) ==> Shows(host.mixer.Now(), i, bits, want)
      {
        OneTurn(i, bits, want);
        n := n - 1;
      }
    }

    method OneTurn(i: nat, bits: Word, ghost want: Word)
      requires Valid() && i < SETTINGS
      modifies this, host.mixer, host.mixer.val, host.mixer.mask, host.mixer.wordA, host.mixer.wordB
      ensures Valid() && Waited()
      ensures old(Holds(host.mixer.Now(), i, bits, want)) ==> Holds(host.mixer.Now(), i, bits, want)
      ensures old(Shows(host.mixer.Now(), i, bits, want)) ==> Shows(host.mixer.Now(), i, bits, want)
    {
      hide Holds, Shows, FlushStep, WriteStep;
      var mixer := host.mixer;
      ghost var s := mixer.Now();
      var who: nat, j: nat, v: Word, m: Word := *, *, *, *;
      if who == 0 {
        var conflict: bool := *;
        if j == i && !(m !! bits) { conflict := true; }
        var st := mixer.WriteSetting(j, v, m, conflict);
        if st == Mailbox.Ok { HeldAndShown(s, Write(j, v, m), i, bits, want); }
      } else if who == 1 {
        mixer.FlushSettings();
        HeldAndShown(s, Flush, i, bits, want);
      } else if who == 2 && j < SETTINGS && mixer.seqRd != mixer.seqWr && j !in mixer.applied {
        mixer.DeviceTurn(DevApply(j));
        HeldAndShown(s, DevApply(j), i, bits, want);
      } else if who == 3 && mixer.seqRd != mixer.seqWr && forall r: nat :: r < SETTINGS ==> r in mixer.applied {
        mixer.DeviceTurn(DevAck);
        HeldAndShown(s, DevAck, i, bits, want);
      } else if who == 4 && j < SETTINGS && (j != i || m !! bits) {
        mixer.DeviceTurn(Panel(j, v, m));
        HeldAndShown(s, Panel(j, v, m), i, bits, want);
      } else {
        var words: seq<Word> := *;
        if |words| == READBACK_WORDS {
          readback, seen, generation := words, true, generation + 1;
          readAt := |mixer.history|;
        }
        epoch := *;
      }
    }

    /** ua_unison_drain(): success means that the cache was seen clean and the batch consumed, that a
        readback came in after that, and that cache and batch are so still. */
    method Drain(wanted: nat, i: nat, bits: Word, ghost want: Word) returns (st: Result)
      requires Valid() && i < SETTINGS
      modifies this, host.mixer, host.mixer.val, host.mixer.mask, host.mixer.wordA, host.mixer.wordB
      ensures Valid() && Waited() && st in {Done, Stale, TimedOut}
      ensures st == Done ==> Settled(host.mixer.Now()) && seen
      ensures st == Done ==> ReadSince(host.mixer.history, old(|host.mixer.history|) - 1, readAt)
      ensures old(Holds(host.mixer.Now(), i, bits, want)) ==> Holds(host.mixer.Now(), i, bits, want)
      ensures old(Shows(host.mixer.Now(), i, bits, want)) ==> Shows(host.mixer.Now(), i, bits, want)
    {
      hide Holds, Shows, FlushStep;
      var n: nat, after: nat, drained := 0, 0, false;
      ghost var clean: nat := 0;
      while n < DRAIN_TRIES
        invariant Valid() && Waited()
        invariant drained ==> Cleaned(old(|host.mixer.history|) - 1, clean, after)
        invariant old(Holds(host.mixer.Now(), i, bits, want)) ==> Holds(host.mixer.Now(), i, bits, want)
        invariant old(Shows(host.mixer.Now(), i, bits, want)) ==> Shows(host.mixer.Now(), i, bits, want)
      {
        Meanwhile(i, bits, want);
        if epoch != wanted || !host.mixer.ready { return Stale; }
        HeldAndShown(host.mixer.Now(), Flush, i, bits, want);
        host.mixer.FlushSettings();
        if !host.mixer.dirty && host.mixer.seqRd == host.mixer.seqWr {
          if !drained {
            after, drained := generation, true;
            clean := |host.mixer.history| - 1;
          }
          if seen && generation != after && readback[38] != ALL_ONES && readback[39] != ALL_ONES { return Done; }
        }
        n := n + 1;
      }
      return TimedOut;
    }

    /** State number `clean`, no earlier than `from`, was settled when readback number `after` was the
        latest; any newer readback came in later. */
    ghost predicate Cleaned(from: int, clean: nat, after: nat)
      reads this, host, host.mixer
    {
      && from <= clean < |host.mixer.history| && Settled(host.mixer.history[clean])
      && after <= generation && (generation != after ==> clean < readAt)
    }

    /** One owned channel's share of the two phases: CUSTOM always in the first, gains only in the
        second. */
    method SplitChannel(base: Image, ch: nat, first: seq<Word>, gain: seq<Word>)
        returns (first': seq<Word>, gain': seq<Word>)
      requires host.kind.Valid() && |first| == |gain| == SETTINGS && (ch != NO_CHANNEL ==> ch <= host.kind.maxArmCh)
      ensures |first'| == |gain'| == SETTINGS
      ensures first'[11] == first[11] + (if ch == NO_CHANNEL then {} else {8 + ch})
      ensures forall i :: 0 <= i < SETTINGS && i != 11 ==> first'[i] <= first[i]
      ensures forall i :: 0 <= i < SETTINGS ==> gain[i] <= gain'[i] && first[i] <= first'[i] + gain'[i]
      ensures ch != NO_CHANNEL ==> forall p | IsGain(p) :: GainSplit(host.kind, ch, p, first', gain')
    {
      hide PreampLane, Mask, GainSplit;
      first', gain' := first, gain;
      if ch == NO_CHANNEL { return; }
      OwnLanes(host.kind, ch);
      first' := first'[11 := first'[11] + Mask(PreampLane(host.kind, ch, CUSTOM).value)];
      var p := 0;
      while p < 3
        invariant 0 <= p <= 3 && |first'| == |gain'| == SETTINGS && first'[11] == first[11] + {8 + ch}
        invariant forall i :: 0 <= i < SETTINGS && i != 11 ==> first'[i] <= first[i]
        invariant forall i :: 0 <= i < SETTINGS ==> gain[i] <= gain'[i] && first[i] <= first'[i] + gain'[i]
        invariant forall q: nat :: q < p ==> GainSplit(host.kind, ch, GainParam(q), first', gain')
      {
        ghost var f, g := first', gain';
        var l := PreampLane(host.kind, ch, GainParam(p)).value;
        first' := first'[l.setting := first'[l.setting] - Mask(l)];
        gain' := gain'[l.setting := gain'[l.setting] + Mask(l)];
        forall q: nat | q < p + 1 ensures GainSplit(host.kind, ch, GainParam(q), first', gain') {
          if q < p {
            SplitKept(host.kind, ch, GainParam(q), f, g, first', gain');
          } else {
            SplitNow(host.kind, ch, GainParam(p), first', gain');
          }
        }
        p := p + 1;
      }
      forall p | IsGain(p) ensures GainSplit(host.kind, ch, p, first', gain') {
        assert GainParam(0) == GAIN_C && GainParam(1) == GAIN_A && GainParam(2) == GAIN_B;
      }
    }

    /** The masks of the two phases. */
    method PhaseMasks(base: Image) returns (first: seq<Word>, gain: seq<Word>)
      requires Valid() && Captured(host.kind, base)
      ensures Planned(host.kind, base, host.mixer.val[..], first, gain)
    {
      hide PreampLane, GainSplit, ChangedFields, Mask;
      first := host.ChangedMasks(base);
      ghost var changed := first;
      gain := seq(SETTINGS, _ => {});
      first, gain := SplitChannel(base, base.in0, first, gain);
      ghost var f, g := first, gain;
      first, gain := SplitChannel(base, base.in1, first, gain);
      forall ch, p | base.Owns(ch) && IsGain(p) ensures GainSplit(host.kind, ch, p, first, gain) {
        if ch == base.in0 { SplitKept(host.kind, ch, p, f, g, first, gain); }
      }
      assert Within(changed, first, gain);
    }

    /** ua_unison_restore(), at every exit: the image writes it made are in order. */
    method Restore(base: Image, wanted: nat) returns (st: Result)
      requires Valid() && Captured(host.kind, base)
      modifies this, host.mixer, host.mixer.val, host.mixer.mask, host.mixer.wordA, host.mixer.wordB
      ensures Valid() && old(host.mixer.history) <= host.mixer.history && old(host.mixer.images) <= host.mixer.images
      ensures var made := host.mixer.images[|old(host.mixer.images)|..];
              && InOrder(host.kind, base, old(host.mixer.val[..]), host.mixer.history, made)
              && (st == Done ==>
                    && |made| == 2 && ReadSince(host.mixer.history, made[1].at, readAt)
                    && GainsRead(host.kind, base, readback))
    {
      hide Captured, Shows, GainsRead, Planned, FlushStep, WriteAll, GainsApart, ReadSince, CustomBits;
      ghost var c, images := host.mixer.val[..], host.mixer.images;
      if epoch != wanted { return Stale; }
      var first, gain := PhaseMasks(base);
      CapturedShape(host.kind, base);
      PlannedParts(host.kind, base, c, first, gain);
      st := FirstPhase(base, first, wanted);
      if st != Done { return; }
      Meanwhile(11, CustomBits(base), base.value[11]);
      if epoch != wanted { return Stale; }
      ghost var mid := host.mixer.history;
      st := SecondPhase(base, gain, wanted);
      assert host.mixer.history[|mid| - 1] == mid[|mid| - 1];
    }

    /** The gains, drained, and the readback compared. */
    method SecondPhase(base: Image, gain: seq<Word>, wanted: nat) returns (st: Result)
      requires Valid() && base.Shaped() && |gain| == SETTINGS
      requires (base.in0 != NO_CHANNEL ==> base.in0 <= host.kind.maxArmCh) &&
               (base.in1 != NO_CHANNEL ==> base.in1 <= host.kind.maxArmCh)
      modifies this, host.mixer, host.mixer.val, host.mixer.mask, host.mixer.wordA, host.mixer.wordB
      ensures Valid() && old(host.mixer.history) <= host.mixer.history
      ensures WroteOnce(old(host.mixer.images), host.mixer.images, st == Done,
                        old(|host.mixer.history|), base.value, gain)
      ensures st == Done ==> ReadSince(host.mixer.history, old(|host.mixer.history|), readAt)
      ensures st == Done ==> GainsRead(host.kind, base, readback)
    {
      hide Shows, Holds, FlushStep, GainRead;
      st := host.WriteImage(base, gain);
      if st != Done { return; }
      st := Drain(wanted, 11, CustomBits(base), base.value[11]);
      if st != Done { return; }
      ghost var read, at := host.mixer.history, readAt;
      Meanwhile(11, CustomBits(base), base.value[11]);
      ReadSinceKept(read, host.mixer.history, old(|host.mixer.history|), at, readAt);
      var same := ReadsBack(base, base.in0);
      if !same { st := Mismatch; return; }
      same := ReadsBack(base, base.in1);
      if !same { st := Mismatch; return; }
    }

    /** Everything but the gains, drained: CUSTOM is then what the baseline had, in the device. */
    method FirstPhase(base: Image, masks: seq<Word>, wanted: nat) returns (st: Result)
      requires Valid() && base.Shaped() && |masks| == SETTINGS && CustomBits(base) <= masks[11]
      modifies this, host.mixer, host.mixer.val, host.mixer.mask, host.mixer.wordA, host.mixer.wordB
      ensures Valid() && old(host.mixer.history) <= host.mixer.history
      ensures WroteOnce(old(host.mixer.images), host.mixer.images, st == Done,
                        old(|host.mixer.history|), base.value, masks)
      ensures st == Done ==> Shows(host.mixer.Now(), 11, CustomBits(base), base.value[11])
    {
      hide FlushStep, Shows, CustomBits;
      ghost var s := host.mixer.Now();
      st := host.WriteImage(base, masks);
      if st != Done { return; }
      ghost var bits := CustomBits(base);
      WrittenIsHeld(s, base.value, masks, 11, bits);
      WriteAllMeets(s, base.value, masks, 11);
      HeldAndShown(WriteAll(s, base.value, masks), Flush, 11, bits, base.value[11]);
      st := Drain(wanted, 11, CustomBits(base), base.value[11]);
      if st == Done { HeldIsShown(host.mixer.Now(), 11, bits, base.value[11]); }
    }

    method ReadsBack(base: Image, ch: nat) returns (same: bool)
      requires Valid() && base.Shaped() && (ch != NO_CHANNEL ==> ch <= host.kind.maxArmCh)
      ensures same <==> ch == NO_CHANNEL || GainRead(host.kind, base, readback, ch)
    {
      if ch == NO_CHANNEL { return true; }
      OwnLanes(host.kind, ch);
      var l := PreampLane(host.kind, ch, GAIN_C).value;
      return readback[if ch < 4 then 3 else 7] * Mask(l) == base.value[if ch < 4 then 3 else 14] * Mask(l);
    }
  }

  /** A settled state no earlier than number `from`, and a readback after it. */
  ghost predicate ReadSince(history: seq<Mail>, from: int, readAt: nat) {
    exists k :: from <= k < readAt && 0 <= k < |history| && Settled(history[k])
  }

  lemma ReadSinceKept(history: seq<Mail>, later: seq<Mail>, from: int, readAt: nat, readAt': nat)
    requires ReadSince(history, from, readAt) && history <= later && readAt <= readAt'
    ensures ReadSince(later, from, readAt')
  {
  }

  /** One image write was made, or on the way there none. */
  predicate WroteOnce(before: seq<ImageWrite>, after: seq<ImageWrite>, must: bool,
                      at: nat, value: seq<Word>, masks: seq<Word>)
  {
    after == before + [ImageWrite(at, value, masks)] || (!must && after == before)
  }

  /** No gain field of an owned channel is in the masks. */
  ghost predicate GainsApart(k: Kind, base: Image, masks: seq<Word>)
    requires k.Valid() && base.Shaped()
  {
    |masks| == SETTINGS && forall ch, p | base.Owns(ch) && IsGain(p) && PreampLane(k, ch, p).Some? ::
      var l := PreampLane(k, ch, p).value; l.setting < SETTINGS && masks[l.setting] !! Mask(l)
  }

  /** At most two image writes: first everything but the gains; then, made in a state in which the
      device itself already showed the baseline CUSTOM bits, the gains, which with the first write
      cover every owned field that differed. */
  ghost predicate InOrder(k: Kind, base: Image, c: seq<Word>, history: seq<Mail>, made: seq<ImageWrite>)
    requires k.Valid() && base.Shaped() && |c| == SETTINGS
  {
    && |made| <= 2 && (forall w <- made :: w.value == base.value && |w.masks| == SETTINGS)
    && (|made| >= 1 ==> GainsApart(k, base, made[0].masks))
    && (|made| == 2 ==>
          && Planned(k, base, c, made[0].masks, made[1].masks)
          && 0 < made[1].at <= |history| && history[made[1].at - 1].Shaped()
          && Shows(history[made[1].at - 1], 11, CustomBits(base), base.value[11]))
  }

  /** The masks of the two phases: CUSTOM in the first, gains in the second alone, and together every
      owned field of the image that differs from the cache c. */
  ghost predicate Planned(k: Kind, base: Image, c: seq<Word>, first: seq<Word>, gain: seq<Word>)
    requires k.Valid() && base.Shaped() && |c| == SETTINGS
  {
    && |first| == |gain| == SETTINGS && CustomBits(base) <= first[11]
    && (forall ch, p | base.Owns(ch) && IsGain(p) :: GainSplit(k, ch, p, first, gain))
    && Covers(k, base, c, first, gain)
  }

  lemma PlannedParts(k: Kind, base: Image, c: seq<Word>, first: seq<Word>, gain: seq<Word>)
    requires k.Valid() && base.Shaped() && |c| == SETTINGS && Planned(k, base, c, first, gain)
    ensures |first| == |gain| == SETTINGS && CustomBits(base) <= first[11] && GainsApart(k, base, first)
  {
    forall ch, p | base.Owns(ch) && IsGain(p) && PreampLane(k, ch, p).Some?
      ensures var l := PreampLane(k, ch, p).value; l.setting < SETTINGS && first[l.setting] !! Mask(l)
    {
      assert GainSplit(k, ch, p, first, gain);
    }
  }

  /** The fields the two phases name exist on every owned channel. */
  lemma OwnLanes(k: Kind, ch: nat)
    requires k.Valid() && ch <= k.maxArmCh
    ensures forall p | p == CUSTOM || IsGain(p) ::
            PreampLane(k, ch, p).Some? && PreampLane(k, ch, p).value.setting < SETTINGS
    ensures forall p | IsGain(p) :: PreampLane(k, ch, p).value.setting != 11
    ensures PreampLane(k, ch, CUSTOM).value.setting == 11 && Mask(PreampLane(k, ch, CUSTOM).value) == {8 + ch}
    ensures PreampLane(k, ch, GAIN_C).value.setting == if ch < 4 then 3 else 14
  {
  }

  /** A gain field is outside the first phase and inside the second. */
  predicate GainSplit(k: Kind, ch: nat, p: nat, first: seq<Word>, gain: seq<Word>)
    requires k.Valid() && |first| == |gain| == SETTINGS
  {
    PreampLane(k, ch, p).Some? ==>
      var l := PreampLane(k, ch, p).value;
      l.setting < SETTINGS && l.setting != 11 && first[l.setting] !! Mask(l) && Mask(l) <= gain[l.setting]
  }

  function GainParam(p: nat): nat {
    if p == 0 then GAIN_C else if p == 1 then GAIN_A else GAIN_B
  }

  lemma SplitNow(k: Kind, ch: nat, p: nat, first: seq<Word>, gain: seq<Word>)
    requires k.Valid() && |first| == |gain| == SETTINGS && PreampLane(k, ch, p).Some?
    requires var l := PreampLane(k, ch, p).value;
             l.setting < SETTINGS && l.setting != 11 && first[l.setting] !! Mask(l) && Mask(l) <= gain[l.setting]
    ensures GainSplit(k, ch, p, first, gain)
  {
  }

  lemma SplitKept(k: Kind, ch: nat, p: nat, f: seq<Word>, g: seq<Word>, first: seq<Word>, gain: seq<Word>)
    requires k.Valid() && |f| == |g| == |first| == |gain| == SETTINGS && GainSplit(k, ch, p, f, g)
    requires forall i :: 0 <= i < SETTINGS && i != 11 ==> first[i] <= f[i]
    requires forall i :: 0 <= i < SETTINGS ==> g[i] <= gain[i]
    ensures GainSplit(k, ch, p, first, gain)
  {
  }

  /** The two masks hold every owned field of the image that differs from the cache c. */
  ghost predicate Covers(k: Kind, base: Image, c: seq<Word>, first: seq<Word>, gain: seq<Word>)
    requires k.Valid() && base.Shaped() && |c| == |first| == |gain| == SETTINGS
  {
    exists changed: seq<Word> :: ChangedFields(k, base, c, changed) && Within(changed, first, gain)
  }

  predicate Within(changed: seq<Word>, first: seq<Word>, gain: seq<Word>)
    requires |changed| == |first| == |gain|
  {
    forall i :: 0 <= i < |changed| ==> changed[i] <= first[i] + gain[i]
  }

  lemma CapturedShape(k: Kind, im: Image)
    requires k.Valid() && Captured(k, im)
    ensures im.Shaped()
    ensures (im.in0 != NO_CHANNEL ==> im.in0 <= k.maxArmCh) && (im.in1 != NO_CHANNEL ==> im.in1 <= k.maxArmCh)
  {
  }

  predicate GainRead(k: Kind, base: Image, readback: seq<Word>, ch: nat)
    requires k.Valid() && base.Shaped() && |readback| == READBACK_WORDS
  {
    PreampLane(k, ch, GAIN_C).Some? &&
    var m := Mask(PreampLane(k, ch, GAIN_C).value);
    readback[if ch < 4 then 3 else 7] * m == base.value[if ch < 4 then 3 else 14] * m
  }

  /** The gain the device reads back is the baseline's, on every owned channel. */
  ghost predicate GainsRead(k: Kind, base: Image, readback: seq<Word>)
    requires k.Valid() && base.Shaped() && |readback| == READBACK_WORDS
  {
    forall ch | base.Owns(ch) :: GainRead(k, base, readback, ch)
  }
}
