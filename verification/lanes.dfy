/** Where each preamp parameter of each channel lives in the mixer settings, and why no two
    fields ever meet. */
module Lanes {
  import opened Bits
  import opened Options


  /** Of the model: highest preamp channel, Hi-Z inputs, and whether it has the PGA line switch. */
  datatype Kind = Kind(maxArmCh: int, hizInputs: nat, pgaLine: bool) {
    predicate Valid() { maxArmCh < 8 && hizInputs <= 2 }
  }

  const LINK := 2
  const GAIN_C := 6
  const CUSTOM := 8
  const GAIN_B := 9
  const GAIN_A := 10
  const PARAMS := 0x18
  const NO_CHANNEL := 0x20
  const SETTING_COUNT := 38

  /** A field: the bits `ones`, shifted left by `shift`, of one setting. */
  datatype Lane = Lane(setting: nat, ones: Word, shift: nat)

  predicate ShiftedBit(x: Word, n: nat, k: nat) {
    n <= k && k - n in x
  }

  /** x << n */
  function Shl(x: Word, n: nat): Word {
    set k: nat | k < 32 && ShiftedBit(x, n, k)
  }

  predicate LowBit(w: nat, k: nat) {
    k < w
  }

  /** The w lowest bits. */
  function Low(w: nat): Word {
    set k: nat | k < 32 && LowBit(w, k)
  }

  function Mask(l: Lane): Word {
    Shl(l.ones, l.shift)
  }

  predicate IsFlag(param: nat) {
    param == 0 || param == 1 || param == 3 || param == 4 || param == 5
  }

  /** ua_preamp_setting(): the field, or None where the driver answers -EINVAL. */
  function PreampLane(k: Kind, ch: nat, param: nat): Option<Lane> {
    var hi, c := ch > 3, ch % 4;
    if param >= PARAMS || ch > k.maxArmCh then None
    else if IsFlag(param) then Some(Lane(if hi then 12 else 0, Low(1), 6 * c + param))
    else if param == LINK then
      if ch % 2 == 1 then None else Some(Lane(if hi then 12 else 0, {2, 8}, 12 * (c / 2)))
    else if param == GAIN_C then Some(Lane(if hi then 14 else 3, Low(6), 6 * c + (if c >= 2 then 4 else 0)))
    else if param == 7 then
      Some(Lane(if hi then 13 else 1, Low(4), if c == 0 then 9 else if c == 1 then 16 else if c == 2 then 20 else 24))
    else if param == CUSTOM then Some(Lane(11, Low(1), 8 + ch))
    else if 9 <= param <= 15 then Some(Lane(param + 7 + (if hi then 8 else 0), Low(8), 8 * c))
    else if param == 0x10 then Some(Lane(if hi then 31 else 23, Low(4), 4 * c))
    else if param == 0x11 then if ch >= k.hizInputs then None else Some(Lane(13, Low(4), 4 * ch))
    else if param == 0x12 then Some(Lane(if hi then 31 else 23, Low(2), 16 + 2 * c))
    else if param == 0x14 then if hi then None else Some(Lane(0, Low(1), 24 + ch))
    else if param == 0x15 then if !k.pgaLine then None else Some(Lane(15, Low(1), 24 + ch))
    else if param == 0x17 then if hi then None else Some(Lane(5, Low(1), 16 + ch))
    else None
  }

  /** Does a value switch a one-bit parameter on?  Phase takes -1.0f or 1. */
  predicate Switches(param: nat, value: Word) {
    if param == 5 then 31 in value || value == {0} else value != {}
  }

  predicate OneBit(param: nat) {
    IsFlag(param) || param == LINK || param == CUSTOM || param == 0x14 || param == 0x15 || param == 0x17
  }

  function Encode(l: Lane, param: nat, value: Word): (encoded: Word)
    ensures encoded <= Mask(l)
  {
    if OneBit(param) then if Switches(param, value) then Mask(l) else {}
    else Shl(value * l.ones, l.shift)
  }

  /** Reading a field back gives the low bits of the value that was written to it. */
  lemma EncodeRoundTrip(k: Kind, ch: nat, param: nat, value: Word)
    requires k.Valid() && PreampLane(k, ch, param).Some? && !OneBit(param)
    ensures var l := PreampLane(k, ch, param).value;
            forall b: nat :: b in l.ones ==> (l.shift + b in Encode(l, param, value) <==> b in value)
  {
  }

  // ---------- no two fields meet ----------

  function Width(param: nat): nat {
    if param == GAIN_C then 6 else if 9 <= param <= 15 then 8
    else if param == 7 || param == 0x10 || param == 0x11 then 4 else if param == 0x12 then 2 else 1
  }

  lemma LaneFits(k: Kind, ch: nat, param: nat)
    requires k.Valid() && param != LINK && PreampLane(k, ch, param).Some?
    ensures var l := PreampLane(k, ch, param).value;
            l.ones == Low(Width(param)) && l.shift + Width(param) <= 32 && l.setting < SETTING_COUNT
  {
  }

  predicate Disjoint(a: nat, w: nat, b: nat, v: nat) {
    a + w <= b || b + v <= a
  }

  lemma SameParam(k: Kind, ch: nat, ch': nat, p: nat)
    requires k.Valid() && p != LINK && ch != ch'
    requires PreampLane(k, ch, p).Some? && PreampLane(k, ch', p).Some?
    requires PreampLane(k, ch, p).value.setting == PreampLane(k, ch', p).value.setting
    ensures Disjoint(PreampLane(k, ch, p).value.shift, Width(p), PreampLane(k, ch', p).value.shift, Width(p))
  {
    assert ch == ch % 4 + (if ch > 3 then 4 else 0) && ch' == ch' % 4 + (if ch' > 3 then 4 else 0);
    if p != CUSTOM && p != 0x15 { assert ch > 3 <==> ch' > 3; }
  }

  /** Settings holding several parameters: flags with Hi-Z, the two impedances, knob with selector. */
  lemma Neighbours(k: Kind, ch: nat, p: nat, ch': nat, p': nat)
    requires k.Valid() && p != LINK && p' != LINK && p != p'
    requires PreampLane(k, ch, p).Some? && PreampLane(k, ch', p').Some?
    requires PreampLane(k, ch, p).value.setting == PreampLane(k, ch', p').value.setting
    ensures || ((IsFlag(p) || p == 0x14) && (IsFlag(p') || p' == 0x14))
            || (p == 7 && p' == 0x11) || (p == 0x11 && p' == 7)
            || (p == 0x10 && p' == 0x12) || (p == 0x12 && p' == 0x10)
  {
  }

  lemma OtherParam(k: Kind, ch: nat, p: nat, ch': nat, p': nat)
    requires k.Valid() && p != LINK && p' != LINK && p != p'
    requires PreampLane(k, ch, p).Some? && PreampLane(k, ch', p').Some?
    requires PreampLane(k, ch, p).value.setting == PreampLane(k, ch', p').value.setting
    ensures Disjoint(PreampLane(k, ch, p).value.shift, Width(p), PreampLane(k, ch', p').value.shift, Width(p'))
  {
    Neighbours(k, ch, p, ch', p');
  }

  lemma RangesApart(a: nat, w: nat, b: nat, v: nat)
    requires Disjoint(a, w, b, v)
    ensures Shl(Low(w), a) !! Shl(Low(v), b)
  {
  }

  /** The fields of different channels or different parameters share no bit. */
  lemma FieldsApart(k: Kind, ch: nat, p: nat, ch': nat, p': nat)
    requires k.Valid() && p != LINK && p' != LINK && (ch != ch' || p != p')
    requires PreampLane(k, ch, p).Some? && PreampLane(k, ch', p').Some?
    requires PreampLane(k, ch, p).value.setting == PreampLane(k, ch', p').value.setting
    ensures Mask(PreampLane(k, ch, p).value) !! Mask(PreampLane(k, ch', p').value)
  {
    var a, b := PreampLane(k, ch, p).value, PreampLane(k, ch', p').value;
    if p == p' { SameParam(k, ch, ch', p); } else { OtherParam(k, ch, p, ch', p'); }
    LaneFits(k, ch, p);
    LaneFits(k, ch', p');
    RangesApart(a.shift, Width(p), b.shift, Width(p'));
  }

  /** No other field contains a link bit. */
  lemma LinkApart(k: Kind, ch: nat, p: nat, ch': nat)
    requires k.Valid() && p != LINK && PreampLane(k, ch, p).Some? && PreampLane(k, ch', LINK).Some?
    requires PreampLane(k, ch, p).value.setting == PreampLane(k, ch', LINK).value.setting
    ensures Mask(PreampLane(k, ch, p).value) !! Mask(PreampLane(k, ch', LINK).value)
  {
  }
}
