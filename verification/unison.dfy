/** Unison ownership of preamp channels: an image of the mixer settings, patched all or nothing,
    applied field by field, and restored in two phases around the mailbox. */
module Unison {
  import opened Bits
  import opened Lanes
  import opened Options
  import opened Mailbox

  datatype Result = Done | BadValue | NotOwned | Again | Stale | TimedOut | Mismatch

  /** struct ua_unison_image; each input is a channel or NO_CHANNEL. */
  datatype Image = Image(valid: bool, in0: nat, in1: nat, value: seq<Word>, mask: seq<Word>) {
    predicate Shaped() { |value| == |mask| == SETTINGS }

    predicate Owns(ch: nat) { (ch == in0 || ch == in1) && ch != NO_CHANNEL }
  }

  datatype Op = Op(ch: nat, param: nat, value: Word)

  // ---------- journals ----------

  function CheckOp(k: Kind, im: Image, op: Op): Result
    requires k.Valid() && im.Shaped()
  {
    if op.ch != im.in0 && op.ch != im.in1 then NotOwned
    else if op.ch == NO_CHANNEL || op.param == LINK then BadValue
    else match PreampLane(k, op.ch, op.param)
      case None => BadValue
      case Some(l) =>
        LaneFits(k, op.ch, op.param);
        if Mask(l) <= im.mask[l.setting] then Done else NotOwned
  }

  predicate GoodOps(k: Kind, im: Image, ops: seq<Op>)
    requires k.Valid() && im.Shaped()
  {
    forall j :: 0 <= j < |ops| ==> CheckOp(k, im, ops[j]).Done?
  }

  function LaneOf(k: Kind, im: Image, op: Op): (l: Lane)
    requires k.Valid() && im.Shaped() && CheckOp(k, im, op).Done?
    ensures l.setting < SETTINGS && Mask(l) <= im.mask[l.setting]
  {
    LaneFits(k, op.ch, op.param);
    PreampLane(k, op.ch, op.param).value
  }

  /** One operation on any copy of the settings: its field takes the encoded value. */
  function ApplyOp(k: Kind, im: Image, v: seq<Word>, op: Op): (w: seq<Word>)
    requires k.Valid() && im.Shaped() && |v| == SETTINGS && CheckOp(k, im, op).Done?
    ensures |w| == SETTINGS
  {
    var l := LaneOf(k, im, op);
    v[l.setting := Merge(v[l.setting], Encode(l, op.param, op.value), Mask(l))]
  }

  function ApplyOps(k: Kind, im: Image, v: seq<Word>, ops: seq<Op>): (w: seq<Word>)
    requires k.Valid() && im.Shaped() && |v| == SETTINGS && GoodOps(k, im, ops)
    ensures |w| == SETTINGS
    decreases |ops|
  {
    if ops == [] then v
    else
      var n := |ops| - 1;
      assert GoodOps(k, im, ops[..n]);
      ApplyOp(k, im, ApplyOps(k, im, v, ops[..n]), ops[n])
  }

  /** The fields a journal names. */
  function Requested(k: Kind, im: Image, ops: seq<Op>): (ms: seq<Word>)
    requires k.Valid() && im.Shaped() && GoodOps(k, im, ops)
    ensures |ms| == SETTINGS && forall i :: 0 <= i < SETTINGS ==> ms[i] <= im.mask[i]
    decreases |ops|
  {
    if ops == [] then seq(SETTINGS, _ => {})
    else
      var n := |ops| - 1;
      assert GoodOps(k, im, ops[..n]);
      var before, l := Requested(k, im, ops[..n]), LaneOf(k, im, ops[n]);
      before[l.setting := before[l.setting] + Mask(l)]
  }

  /** Writing the final image once under the union of the masks is the same, on any copy of the
      settings, as applying the operations one by one in order. */
  lemma {:induction false} BatchIsSequence(k: Kind, im: Image, v: seq<Word>, c: seq<Word>, ops: seq<Op>, i: nat)
    requires k.Valid() && im.Shaped() && |v| == |c| == SETTINGS && GoodOps(k, im, ops) && i < SETTINGS
    ensures Merge(c[i], ApplyOps(k, im, v, ops)[i], Requested(k, im, ops)[i]) == ApplyOps(k, im, c, ops)[i]
    decreases |ops|
  {
    if ops == [] {
      MergeNothing(c[i], v[i]);
    } else {
      var n := |ops| - 1;
      assert GoodOps(k, im, ops[..n]);
      BatchIsSequence(k, im, v, c, ops[..n], i);
      var l := LaneOf(k, im, ops[n]);
      if l.setting == i {
        Coalesce(c[i], ApplyOps(k, im, v, ops[..n])[i], Requested(k, im, ops[..n])[i],
                 Encode(l, ops[n].param, ops[n].value), Mask(l));
      }
    }
  }

  /** Bits outside every field of the owned channels. */
  ghost predicate Foreign(k: Kind, im: Image, i: nat, bits: Word)
    requires k.Valid()
  {
    forall ch, p | im.Owns(ch) && p != LINK && PreampLane(k, ch, p).Some? ::
      PreampLane(k, ch, p).value.setting == i ==> Mask(PreampLane(k, ch, p).value) !! bits
  }

  /** Another channel's fields, and every link bit, are foreign. */
  lemma OthersAreForeign(k: Kind, im: Image, ch: nat, p: nat)
    requires k.Valid() && PreampLane(k, ch, p).Some? && (p == LINK || !im.Owns(ch))
    ensures Foreign(k, im, PreampLane(k, ch, p).value.setting, Mask(PreampLane(k, ch, p).value))
  {
    var l := PreampLane(k, ch, p).value;
    forall c, q | im.Owns(c) && q != LINK && PreampLane(k, c, q).Some? && PreampLane(k, c, q).value.setting == l.setting
      ensures Mask(PreampLane(k, c, q).value) !! Mask(l)
    {
      if p == LINK { LinkApart(k, c, q, ch); } else { FieldsApart(k, c, q, ch, p); }
    }
  }

  /** A journal touches only fields of the owned channels. */
  lemma {:induction false} JournalIsFramed(k: Kind, im: Image, v: seq<Word>, ops: seq<Op>, i: nat, bits: Word)
    requires k.Valid() && im.Shaped() && |v| == SETTINGS && GoodOps(k, im, ops) && i < SETTINGS
    requires Foreign(k, im, i, bits)
    ensures ApplyOps(k, im, v, ops)[i] * bits == v[i] * bits && Requested(k, im, ops)[i] !! bits
    decreases |ops|
  {
    if ops != [] {
      var n := |ops| - 1;
      assert GoodOps(k, im, ops[..n]);
      JournalIsFramed(k, im, v, ops[..n], i, bits);
      var l := LaneOf(k, im, ops[n]);
      assert im.Owns(ops[n].ch) && PreampLane(k, ops[n].ch, ops[n].param) == Some(l);
      if l.setting == i {
        MergeKeeps(ApplyOps(k, im, v, ops[..n])[i], Encode(l, ops[n].param, ops[n].value), Mask(l), bits);
      }
    }
  }

  // ---------- the driver's code ----------

  class Host {
    const kind: Kind
    const mixer: Mixer
    var image: Image

    constructor (kind: Kind, mixer: Mixer, image: Image)
      requires kind.Valid() && image.Shaped()
      ensures this.kind == kind && this.mixer == mixer && this.image == image
    {
      this.kind, this.mixer, this.image := kind, mixer, image;
    }

    ghost predicate Valid()
      reads this, mixer, mixer.val, mixer.mask, mixer.wordA, mixer.wordB
    {
      kind.Valid() && image.Shaped() && mixer.Valid()
    }

    /** The masks ua_unison_capture_locked() builds: every field of the owned channels but the pair
        link, and the channel's six flag bits whole. */
    method CaptureMasks(in0: nat, in1: nat) returns (masks: seq<Word>)
      requires kind.Valid()
      requires (in0 != NO_CHANNEL ==> in0 <= kind.maxArmCh) && (in1 != NO_CHANNEL ==> in1 <= kind.maxArmCh)
      ensures |masks| == SETTINGS
      ensures forall value: seq<Word> | |value| == SETTINGS :: Captured(kind, Image(true, in0, in1, value, masks))
      ensures forall i: nat, b: nat :: i < SETTINGS && b in masks[i] ==>
                (in0 != NO_CHANNEL && OwnBit(kind, in0, i, b)) || (in1 != NO_CHANNEL && OwnBit(kind, in1, i, b))
    {
      masks := seq(SETTINGS, _ => {});
      masks := CaptureChannel(in0, masks);
      ghost var some := masks;
      masks := CaptureChannel(in1, masks);
      if in0 != NO_CHANNEL { assert HasFields(kind, in0, some, PARAMS); }
      if in1 != NO_CHANNEL { assert HasFields(kind, in1, masks, PARAMS); }
    }

    method CaptureChannel(ch: nat, before: seq<Word>) returns (masks: seq<Word>)
      requires kind.Valid() && |before| == SETTINGS && (ch != NO_CHANNEL ==> ch <= kind.maxArmCh)
      ensures |masks| == SETTINGS && forall i :: 0 <= i < SETTINGS ==> before[i] <= masks[i]
      ensures ch != NO_CHANNEL ==> HasFields(kind, ch, masks, PARAMS)
      ensures forall i: nat, b: nat :: i < SETTINGS && b in masks[i] ==>
                b in before[i] || (ch != NO_CHANNEL && OwnBit(kind, ch, i, b))
    {
      masks := before;
      if ch == NO_CHANNEL { return; }
      var p := 0;
      while p < PARAMS
        invariant 0 <= p <= PARAMS && |masks| == SETTINGS
        invariant forall i :: 0 <= i < SETTINGS ==> before[i] <= masks[i]
        invariant HasFields(kind, ch, masks, p)
        invariant forall i: nat, b: nat :: i < SETTINGS && b in masks[i] ==> b in before[i] || OwnBit(kind, ch, i, b)
      {
        var lane := PreampLane(kind, ch, p);
        if p != LINK && lane.Some? {
          LaneFits(kind, ch, p);
          masks := masks[lane.value.setting := masks[lane.value.setting] + Mask(lane.value)];
        }
        p := p + 1;
      }
      var i := if ch < 4 then 0 else 12;
      masks := masks[i := masks[i] + Shl(Low(6), 6 * (ch % 4))];
    }

    /** ua_unison_write_image_locked(), without the user-interface copies of gain and CUSTOM. */
    method WriteImage(im: Image, masks: seq<Word>) returns (st: Result)
      requires mixer.Valid() && im.Shaped() && |masks| == SETTINGS
      modifies mixer, mixer.val, mixer.mask, mixer.wordA, mixer.wordB
      ensures mixer.Valid()
      ensures st == if im.valid && old(mixer.ready) then Done else Again
      ensures mixer.Now() ==
              if st.Done? then FlushStep(WriteAll(old(mixer.Now()), im.value, masks)) else old(mixer.Now())
      ensures old(mixer.history) <= mixer.history && (st.Done? ==> old(mixer.history) < mixer.history)
      ensures mixer.images ==
              old(mixer.images) + if st.Done? then [ImageWrite(|old(mixer.history)|, im.value, masks)] else []
    {
      if !im.valid || !mixer.ready { return Again; }
      mixer.WriteMasked(im.value, masks);
      mixer.FlushSettings();
      return Done;
    }

    /** One operation's checks, and the field it names. */
    method FindLane(op: Op) returns (st: Result, lane: Option<Lane>)
      requires kind.Valid() && image.Shaped()
      ensures st == CheckOp(kind, image, op) && (st.Done? ==> lane == Some(LaneOf(kind, image, op)))
    {
      lane := None;
      if op.ch != image.in0 && op.ch != image.in1 { st := NotOwned; return; }
      if op.ch == NO_CHANNEL || op.param == LINK { st := BadValue; return; }
      lane := PreampLane(kind, op.ch, op.param);
      if lane.None? { st := BadValue; return; }
      LaneFits(kind, op.ch, op.param);
      st := if Mask(lane.value) <= image.mask[lane.value.setting] then Done else NotOwned;
    }

    /** The first half of a patch: the whole journal is checked on a copy. */
    method CheckJournal(ops: seq<Op>) returns (st: Result, next: Image, requested: seq<Word>)
      requires kind.Valid() && image.Shaped()
      ensures st.Done? <==> GoodOps(kind, image, ops)
      ensures st.Done? ==> next == image.(value := ApplyOps(kind, image, image.value, ops))
      ensures st.Done? ==> requested == Requested(kind, image, ops)
      ensures !st.Done? ==>
                exists j :: 0 <= j < |ops| && st == CheckOp(kind, image, ops[j]) && GoodOps(kind, image, ops[..j])
    {
      hide PreampLane, Mask, Encode, Merge;
      st, next, requested := Done, image, seq(SETTINGS, _ => {});
      var n := 0;
      while n < |ops|
        invariant 0 <= n <= |ops| && GoodOps(kind, image, ops[..n])
        invariant next == image.(value := ApplyOps(kind, image, image.value, ops[..n]))
        invariant requested == Requested(kind, image, ops[..n]) && st.Done?
      {
        var op := ops[n];
        assert ops[..n + 1][..n] == ops[..n];
        var lane;
        st, lane := FindLane(op);
        if !st.Done? { return; }
        var l := lane.value;
        requested := requested[l.setting := requested[l.setting] + Mask(l)];
        var word := Merge(next.value[l.setting], Encode(l, op.param, op.value), Mask(l));
        next := next.(value := next.value[l.setting := word]);
        n := n + 1;
      }
      assert ops[..n] == ops;
    }

    /** ua_unison_patch_locked(): either every operation takes effect, in image and cache, or none. */
    method Patch(ops: seq<Op>) returns (st: Result)
      requires Valid()
      modifies this, mixer, mixer.val, mixer.mask, mixer.wordA, mixer.wordB
      ensures Valid()
      ensures st.Done? <==> old(GoodOps(kind, image, ops) && image.valid && mixer.ready)
      ensures st.Done? ==> image == old(image.(value := ApplyOps(kind, image, image.value, ops)))
      ensures st.Done? ==>
              mixer.Now() == FlushStep(WriteAll(old(mixer.Now()), image.value, old(Requested(kind, image, ops))))
      ensures st.Done? ==> mixer.val[..] == old(ApplyOps(kind, image, mixer.val[..], ops))
      ensures !st.Done? ==> image == old(image) && mixer.Now() == old(mixer.Now())
      ensures old(GoodOps(kind, image, ops) && !(image.valid && mixer.ready)) ==> st == Again
      ensures !old(GoodOps(kind, image, ops)) ==>
                exists j ::
                    0 <= j < |ops| && st == old(CheckOp(kind, image, ops[j])) && old(GoodOps(kind, image, ops[..j]))
    {
      var next, requested;
      st, next, requested := CheckJournal(ops);
      if !st.Done? { return; }
      ghost var c, im := mixer.val[..], image;
      st := WriteImage(next, requested);
      if st.Done? {
        image := next;
        forall i | 0 <= i < SETTINGS ensures mixer.val[i] == ApplyOps(kind, im, c, ops)[i] {
          BatchIsSequence(kind, im, im.value, c, ops, i);
        }
      }
    }

    /** ua_unison_changed_masks(): whole fields of the image that differ from the cache. */
    method ChangedMasks(im: Image) returns (masks: seq<Word>)
      requires mixer.Valid() && kind.Valid() && im.Shaped()
      ensures ChangedFields(kind, im, mixer.val[..], masks)
    {
      masks := seq(SETTINGS, _ => {});
      masks := ChangedOn(im, im.in0, masks);
      masks := ChangedOn(im, im.in1, masks);
    }

    method ChangedOn(im: Image, ch: nat, before: seq<Word>) returns (masks: seq<Word>)
      requires mixer.Valid() && kind.Valid() && im.Shaped() && |before| == SETTINGS && (ch == im.in0 || ch == im.in1)
      ensures |masks| == SETTINGS
      ensures forall i: nat, b: nat :: i < SETTINGS ==>
                (b in masks[i] <==> (b in before[i] ||
                   exists p :: Differs(kind, im, mixer.val[..], ch, p, i) && b in Mask(PreampLane(kind, ch, p).value)))
    {
      masks := before;
      if ch == NO_CHANNEL { return; }
      var p := 0;
      while p < PARAMS
        invariant 0 <= p <= PARAMS && |masks| == SETTINGS
        invariant forall i: nat, b: nat :: i < SETTINGS ==>
                    (b in masks[i] <==> (b in before[i] ||
                       exists q: nat ::
                           q < p && Differs(kind, im, mixer.val[..], ch, q, i) &&
                               b in Mask(PreampLane(kind, ch, q).value)))
      {
        var lane := PreampLane(kind, ch, p);
        if p != LINK && lane.Some? {
          var l := lane.value;
          LaneFits(kind, ch, p);
          if Mask(l) <= im.mask[l.setting] && Mask(l) * im.value[l.setting] != Mask(l) * mixer.val[l.setting] {
            masks := masks[l.setting := masks[l.setting] + Mask(l)];
          }
        }
        p := p + 1;
      }
    }

    /** ua_unison_apply_locked() */
    method Apply(im: Image) returns (st: Result)
      requires Valid() && im.Shaped()
      modifies mixer, mixer.val, mixer.mask, mixer.wordA, mixer.wordB
      ensures Valid()
      ensures st == if im.valid && old(mixer.ready) then Done else Again
      ensures !st.Done? ==> mixer.Now() == old(mixer.Now())
      ensures st.Done? ==> Agrees(kind, im, mixer.val[..])
      ensures st.Done? ==> Framed(kind, im, old(mixer.val[..]), mixer.val[..])
    {
      hide PreampLane, Mask, ChangedFields, Agrees, Framed;
      var masks := ChangedMasks(im);
      ghost var c := mixer.val[..];
      st := WriteImage(im, masks);
      if st.Done? { ChangedAgrees(kind, im, c, masks, mixer.val[..]); }
    }
  }

  /** masks is exactly the owned fields of the image that differ from c. */
  ghost predicate ChangedFields(k: Kind, im: Image, c: seq<Word>, masks: seq<Word>)
    requires im.Shaped() && |c| == SETTINGS && k.Valid()
  {
    && |masks| == SETTINGS
    && forall i: nat, b: nat :: i < SETTINGS ==>
         (b in masks[i] <==> exists ch, p :: Differs(k, im, c, ch, p, i) && b in Mask(PreampLane(k, ch, p).value))
  }

  /** Every owned field of the image holds in v what it holds in the image. */
  ghost predicate Agrees(k: Kind, im: Image, v: seq<Word>)
    requires im.Shaped() && |v| == SETTINGS && k.Valid()
  {
    forall ch, p | im.Owns(ch) && p != LINK && PreampLane(k, ch, p).Some? ::
      var l := PreampLane(k, ch, p).value;
      l.setting < SETTINGS &&
          (Mask(l) <= im.mask[l.setting] ==> v[l.setting] * Mask(l) == im.value[l.setting] * Mask(l))
  }

  /** Everything else holds in v what it held in c. */
  ghost predicate Framed(k: Kind, im: Image, c: seq<Word>, v: seq<Word>)
    requires |c| == |v| == SETTINGS && k.Valid()
  {
    forall i: nat, bits: Word | i < SETTINGS && Foreign(k, im, i, bits) :: v[i] * bits == c[i] * bits
  }

  /** Writing the changed fields makes the cache agree with the image and touches nothing else. */
  lemma ChangedAgrees(k: Kind, im: Image, c: seq<Word>, masks: seq<Word>, v: seq<Word>)
    requires im.Shaped() && |c| == |v| == SETTINGS && k.Valid() && ChangedFields(k, im, c, masks)
    requires forall i :: 0 <= i < SETTINGS ==> v[i] == Merge(c[i], im.value[i], masks[i])
    ensures Agrees(k, im, v) && Framed(k, im, c, v)
  {
    forall ch, p | im.Owns(ch) && p != LINK && PreampLane(k, ch, p).Some?
      ensures var l := PreampLane(k, ch, p).value;
              l.setting < SETTINGS &&
                  (Mask(l) <= im.mask[l.setting] ==> v[l.setting] * Mask(l) == im.value[l.setting] * Mask(l))
    {
      LaneFits(k, ch, p);
      var l := PreampLane(k, ch, p).value;
      if Mask(l) <= im.mask[l.setting] { FieldAgrees(k, im, c, masks, v, ch, p); }
    }
    forall i: nat, bits: Word | i < SETTINGS && Foreign(k, im, i, bits) ensures v[i] * bits == c[i] * bits {
      MergeKeeps(c[i], im.value[i], masks[i], bits);
    }
  }

  lemma FieldAgrees(k: Kind, im: Image, c: seq<Word>, masks: seq<Word>, v: seq<Word>, ch: nat, p: nat)
    requires im.Shaped() && |c| == |v| == SETTINGS && k.Valid() && ChangedFields(k, im, c, masks)
    requires forall i :: 0 <= i < SETTINGS ==> v[i] == Merge(c[i], im.value[i], masks[i])
    requires im.Owns(ch) && p != LINK && PreampLane(k, ch, p).Some?
    requires var l := PreampLane(k, ch, p).value; l.setting < SETTINGS && Mask(l) <= im.mask[l.setting]
    ensures var l := PreampLane(k, ch, p).value; v[l.setting] * Mask(l) == im.value[l.setting] * Mask(l)
  {
    var l := PreampLane(k, ch, p).value;
    var i := l.setting;
    if Mask(l) * im.value[i] == Mask(l) * c[i] {
      MergeAgrees(c[i], im.value[i], masks[i], Mask(l));
    } else {
      assert Differs(k, im, c, ch, p, i);
      MergePicks(c[i], im.value[i], masks[i], Mask(l));
    }
  }

  predicate Differs(k: Kind, im: Image, c: seq<Word>, ch: nat, p: nat, i: nat)
    requires im.Shaped() && |c| == SETTINGS && k.Valid()
  {
    && im.Owns(ch) && p != LINK && PreampLane(k, ch, p).Some?
    && i == PreampLane(k, ch, p).value.setting && i < SETTINGS
    && Mask(PreampLane(k, ch, p).value) <= im.mask[i]
    && Mask(PreampLane(k, ch, p).value) * im.value[i] != Mask(PreampLane(k, ch, p).value) * c[i]
  }

  /** The masks hold every field of a channel among the first n parameters. */
  ghost predicate HasFields(k: Kind, ch: nat, masks: seq<Word>, n: nat)
    requires k.Valid() && |masks| == SETTINGS
  {
    forall p: nat | p < n && p != LINK && PreampLane(k, ch, p).Some? ::
      var l := PreampLane(k, ch, p).value; l.setting < SETTINGS && Mask(l) <= masks[l.setting]
  }

  /** A bit of one of the channel's fields, or of its six flags. */
  ghost predicate OwnBit(k: Kind, ch: nat, i: nat, b: nat) {
    || (exists p: nat :: p != LINK && OwnField(k, ch, p, i) && b in Mask(PreampLane(k, ch, p).value))
    || (i == (if ch < 4 then 0 else 12) && 6 * (ch % 4) <= b < 6 * (ch % 4) + 6)
  }

  predicate OwnField(k: Kind, ch: nat, p: nat, i: nat) {
    PreampLane(k, ch, p).Some? && PreampLane(k, ch, p).value.setting == i
  }

  /** So ownership of a channel vetoes no other channel's field. */
  lemma OwnBitsAreForeign(k: Kind, ch: nat, ch': nat, p: nat, b: nat)
    requires k.Valid() && ch != ch' && ch <= k.maxArmCh && p != LINK && PreampLane(k, ch', p).Some?
    requires OwnBit(k, ch, PreampLane(k, ch', p).value.setting, b)
    ensures b !in Mask(PreampLane(k, ch', p).value)
  {
    var l := PreampLane(k, ch', p).value;
    if q: nat :| q != LINK && OwnField(k, ch, q, l.setting) && b in Mask(PreampLane(k, ch, q).value) {
      FieldsApart(k, ch, q, ch', p);
    } else {
      LaneFits(k, ch', p);
      assert ch == ch % 4 + (if ch > 3 then 4 else 0) && ch' == ch' % 4 + (if ch' > 3 then 4 else 0);
      assert IsFlag(p) || p == 0x14;
    }
  }

  /** The image was captured: its channels exist, and it owns every field of theirs. */
  ghost predicate Captured(k: Kind, im: Image)
    requires k.Valid()
  {
    && im.Shaped()
    && (im.in0 != NO_CHANNEL ==> im.in0 <= k.maxArmCh) && (im.in1 != NO_CHANNEL ==> im.in1 <= k.maxArmCh)
    && forall ch: nat, p: nat | im.Owns(ch) && p != LINK && PreampLane(k, ch, p).Some? ::
         var l := PreampLane(k, ch, p).value; l.setting < SETTINGS && Mask(l) <= im.mask[l.setting]
  }

  predicate IsGain(p: nat) {
    p == GAIN_C || p == GAIN_A || p == GAIN_B
  }

  /** The CUSTOM bits of the owned channels; all live in setting 11. */
  function CustomBits(im: Image): Word {
    set b: nat | b < 32 && IsCustomBit(im, b)
  }

  predicate IsCustomBit(im: Image, b: nat) {
    b >= 8 && im.Owns(b - 8)
  }
}
