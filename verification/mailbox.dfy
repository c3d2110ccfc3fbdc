/** The mixer mailbox: settings cached as value and mask, flushed as packed words under a sequence
    handshake, each change sent once and then zeroed, while the device applies batches register
    by register and its front panel changes the same settings.

    Assumed of the device: it reads a register's two words once per batch, in any order, and
    acknowledges after all of them; at boot its settings agree with the words firmware left. */
module Mailbox {
  import opened Bits
  import opened Indices

  const SETTINGS := 38

  // ---------- state ----------

  datatype Mail = Mail(
    // host
    val: seq<Word>, mask: seq<Word>, zero: set<nat>, dirty: bool, ready: bool, seqWr: nat,
    // registers
    wa: seq<Word>, wb: seq<Word>, seqRd: nat,
    // device
    settings: seq<Word>,
    applied: set<nat>,        // registers of the current batch already applied
    // history
    touched: set<nat>         // registers whose words the host has written
  ) {
    predicate InFlight() { seqRd != seqWr }

    predicate Shaped() {
      |val| == |mask| == |wa| == |wb| == |settings| == SETTINGS
    }

    predicate Valid() {
      && Shaped()
      && seqWr < TWO_TO_THE_32 && (seqRd == seqWr || seqWr == U32(seqRd + 1))
      && (zero != {} ==> dirty)
      && (forall i :: 0 <= i < SETTINGS && mask[i] != {} ==> dirty)
      && zero <= touched
      && (forall i: nat :: i < SETTINGS && i in touched && i !in zero ==> wa[i] == {} && wb[i] == {})
    }

    /** Bits of register i that words still to be applied will overwrite. */
    function Unapplied(i: nat): Word
      requires Shaped() && i < SETTINGS
    {
      if InFlight() && i !in applied then SentMask(wa[i], wb[i]) else {}
    }

    /** Bits of register i a host value is still on its way to. */
    function Pending(i: nat): Word
      requires Shaped() && i < SETTINGS
    {
      Unapplied(i) + mask[i]
    }

    /** Register i once everything on its way has arrived. */
    function Eventually(i: nat): Word
      requires Shaped() && i < SETTINGS
    {
      Merge(Merge(settings[i], SentValue(wa[i], wb[i]), Unapplied(i)), val[i], mask[i])
    }
  }

  // ---------- steps ----------

  datatype Event =
    | Write(i: nat, v: Word, m: Word)     // accepted host write
    | Flush
    | DevApply(i: nat) | DevAck
    | Panel(i: nat, v: Word, m: Word)     // the device's own change

  predicate Enabled(s: Mail, e: Event) {
    match e
    case Write(i, _, _) => i < SETTINGS && s.ready
    case Flush => true
    case DevApply(i) => i < SETTINGS && s.InFlight() && i !in s.applied
    case DevAck => s.InFlight() && forall i: nat :: i < SETTINGS ==> i in s.applied
    case Panel(i, _, _) => i < SETTINGS
  }

  function WriteStep(s: Mail, i: nat, v: Word, m: Word): Mail
    requires s.Shaped() && i < SETTINGS
  {
    s.(val := s.val[i := Merge(s.val[i], v, m)], mask := s.mask[i := s.mask[i] + m], dirty := true)
  }

  function Written(mask: seq<Word>): set<nat> {
    set i: nat | i < |mask| && mask[i] != {}
  }

  predicate Flushes(s: Mail) {
    s.ready && s.dirty && !s.InFlight()
  }

  /** The words of register i after a flush. */
  function FlushedA(s: Mail, i: nat): Word
    requires s.Shaped() && i < SETTINGS
  {
    if s.mask[i] != {} then WordA(s.val[i], s.mask[i]) else if i in s.zero then {} else s.wa[i]
  }

  function FlushedB(s: Mail, i: nat): Word
    requires s.Shaped() && i < SETTINGS
  {
    if s.mask[i] != {} then WordB(s.val[i], s.mask[i]) else if i in s.zero then {} else s.wb[i]
  }

  function FlushStep(s: Mail): Mail
    requires s.Shaped()
  {
    if !Flushes(s) then s
    else
      s.(wa := seq(SETTINGS, i requires 0 <= i < SETTINGS => FlushedA(s, i)),
         wb := seq(SETTINGS, i requires 0 <= i < SETTINGS => FlushedB(s, i)),
         mask := seq(SETTINGS, _ => {}), zero := Written(s.mask), dirty := Written(s.mask) != {},
         seqWr := U32(s.seqWr + 1), applied := {}, touched := s.touched + Written(s.mask))
  }

  function ApplyStep(s: Mail, i: nat): Mail
    requires s.Shaped() && i < SETTINGS
  {
    s.(settings := s.settings[i := Merge(s.settings[i], SentValue(s.wa[i], s.wb[i]), SentMask(s.wa[i], s.wb[i]))],
       applied := s.applied + {i})
  }

  function Step(s: Mail, e: Event): Mail
    requires s.Shaped() && Enabled(s, e)
  {
    match e
    case Write(i, v, m) => WriteStep(s, i, v, m)
    case Flush => FlushStep(s)
    case DevApply(i) => ApplyStep(s, i)
    case DevAck => s.(seqRd := s.seqWr)
    case Panel(i, v, m) => s.(settings := s.settings[i := Merge(s.settings[i], v, m)])
  }

  lemma FlushValid(s: Mail)
    requires s.Valid() && Flushes(s)
    ensures FlushStep(s).Valid() && FlushStep(s).InFlight()
  {
  }

  lemma StepValid(s: Mail, e: Event)
    requires s.Valid() && Enabled(s, e)
    ensures Step(s, e).Valid()
  {
  }

  // ---------- the specification ----------

  /** One register of a device that takes every host write at once, in call order.  A front-panel
      change yields to host values on their way; a batch repeats the words firmware left in
      registers the host has never flushed. */
  function Expect(s: Mail, spec: Word, i: nat, e: Event): Word
    requires s.Shaped() && i < SETTINGS
  {
    match e
    case Write(j, v, m) => if i == j then Merge(spec, v, m) else spec
    case Flush =>
      if Flushes(s) && i !in s.touched && s.mask[i] == {}
      then Merge(spec, SentValue(s.wa[i], s.wb[i]), SentMask(s.wa[i], s.wb[i]))
      else spec
    case DevApply(_) => spec
    case DevAck => spec
    case Panel(j, v, m) => if i == j then Merge(spec, v, m - s.Pending(i)) else spec
  }

  lemma StepMeets(s: Mail, e: Event, i: nat)
    requires s.Valid() && Enabled(s, e) && i < SETTINGS
    ensures Step(s, e).Eventually(i) == Expect(s, s.Eventually(i), i, e)
  {
  }

  // ---------- whole runs ----------

  predicate Legal(s: Mail, es: seq<Event>)
    requires s.Shaped()
    decreases |es|
  {
    es == [] || (Enabled(s, es[0]) && Legal(Step(s, es[0]), es[1..]))
  }

  function Run(s: Mail, es: seq<Event>): (t: Mail)
    requires s.Shaped() && Legal(s, es)
    ensures t.Shaped()
    decreases |es|
  {
    if es == [] then s else Run(Step(s, es[0]), es[1..])
  }

  function Expected(s: Mail, spec: Word, i: nat, es: seq<Event>): Word
    requires s.Shaped() && Legal(s, es) && i < SETTINGS
    decreases |es|
  {
    if es == [] then spec else Expected(Step(s, es[0]), Expect(s, spec, i, es[0]), i, es[1..])
  }

  predicate Settled(s: Mail) {
    !s.dirty && !s.InFlight()
  }

  lemma SettledShows(s: Mail, i: nat)
    requires s.Valid() && i < SETTINGS && Settled(s)
    ensures s.Eventually(i) == s.settings[i]
  {
  }

  /** Refinement: after every run, whatever the interleaving, what a register will come to hold is
      what the specification holds; once the cache is clean and the batch consumed, it holds it. */
  lemma {:induction false} Refinement(s: Mail, es: seq<Event>, i: nat)
    requires s.Valid() && Legal(s, es) && i < SETTINGS
    ensures Run(s, es).Valid()
    ensures Run(s, es).Eventually(i) == Expected(s, s.Eventually(i), i, es)
    ensures Settled(Run(s, es)) ==> Run(s, es).settings[i] == Expected(s, s.Eventually(i), i, es)
    decreases |es|
  {
    if es == [] {
      if Settled(s) { SettledShows(s, i); }
    } else {
      StepValid(s, es[0]);
      StepMeets(s, es[0], i);
      Refinement(Step(s, es[0]), es[1..], i);
    }
  }

  // ---------- host writes alone ----------

  /** The device's settings agree with the words firmware left where the host has written none. */
  predicate FirmwareAgrees(s: Mail)
    requires s.Shaped()
  {
    forall i: nat :: i < SETTINGS && i !in s.touched ==>
      Merge(s.settings[i], SentValue(s.wa[i], s.wb[i]), SentMask(s.wa[i], s.wb[i])) == s.settings[i]
  }

  function Writes(x: Word, i: nat, es: seq<Event>): Word
    decreases |es|
  {
    if es == [] then x
    else
      var e := es[0];
      Writes(if e.Write? && e.i == i then Merge(x, e.v, e.m) else x, i, es[1..])
  }

  lemma StepFirmware(s: Mail, e: Event)
    requires s.Valid() && Enabled(s, e) && !e.Panel? && FirmwareAgrees(s)
    ensures FirmwareAgrees(Step(s, e))
  {
  }

  lemma AgreeingBatch(s: Mail, i: nat)
    requires s.Valid() && i < SETTINGS && Flushes(s) && FirmwareAgrees(s)
    ensures Expect(s, s.Eventually(i), i, Flush) == s.Eventually(i)
  {
  }

  /** Without front-panel changes the settled device holds exactly every accepted write applied
      once, in call order, to what it held before; bits never written keep their value. */
  lemma {:induction false} HostWritesInOrder(s: Mail, es: seq<Event>, i: nat)
    requires s.Valid() && FirmwareAgrees(s) && Legal(s, es) && i < SETTINGS
    requires forall e <- es :: !e.Panel?
    ensures Run(s, es).Valid() && Run(s, es).Eventually(i) == Writes(s.Eventually(i), i, es)
    ensures Settled(Run(s, es)) ==> Run(s, es).settings[i] == Writes(s.Eventually(i), i, es)
    decreases |es|
  {
    if es == [] {
      if Settled(s) { SettledShows(s, i); }
    } else {
      var e := es[0];
      StepValid(s, e);
      StepMeets(s, e, i);
      StepFirmware(s, e);
      if e.Flush? && Flushes(s) { AgreeingBatch(s, i); }
      HostWritesInOrder(Step(s, e), es[1..], i);
    }
  }

  lemma {:induction false} UnwrittenBits(x: Word, i: nat, es: seq<Event>, bits: Word)
    requires forall e <- es :: e.Write? && e.i == i ==> e.m !! bits
    ensures Writes(x, i, es) * bits == x * bits
    decreases |es|
  {
    if es != [] {
      var e := es[0];
      if e.Write? && e.i == i {
        assert e in es;
        MergeKeeps(x, e.v, e.m, bits);
        UnwrittenBits(Merge(x, e.v, e.m), i, es[1..], bits);
      } else {
        UnwrittenBits(x, i, es[1..], bits);
      }
    }
  }

  // ---------- words and batches ----------

  /** No step of host or device changes a setting word while a batch is unconsumed. */
  lemma WordsStable(s: Mail, e: Event)
    requires s.Valid() && Enabled(s, e) && s.InFlight()
    ensures Step(s, e).wa == s.wa && Step(s, e).wb == s.wb && Step(s, e).seqWr == s.seqWr
  {
  }

  // ---------- the front panel ----------

  /** Nothing on its way to these bits of register i, now or in a later batch, but a new write. */
  predicate Free(s: Mail, i: nat, bits: Word)
    requires s.Shaped() && i < SETTINGS
  {
    s.Pending(i) !! bits && (i !in s.touched ==> SentMask(s.wa[i], s.wb[i]) !! bits)
  }

  predicate LeavesAlone(e: Event, i: nat, bits: Word) {
    (e.Write? && e.i == i ==> e.m !! bits) && (e.Panel? && e.i == i ==> e.m !! bits)
  }

  lemma FreeStep(s: Mail, e: Event, i: nat, bits: Word)
    requires s.Valid() && Enabled(s, e) && i < SETTINGS && Free(s, i, bits) && LeavesAlone(e, i, bits)
    ensures Free(Step(s, e), i, bits)
    ensures Step(s, e).settings[i] * bits == s.settings[i] * bits
  {
  }

  /** A front-panel change to bits the host's writes have reached survives every further flush,
      until host or panel changes those bits again. */
  lemma {:induction false} PanelSurvives(s: Mail, es: seq<Event>, i: nat, bits: Word)
    requires s.Valid() && Legal(s, es) && i < SETTINGS && Free(s, i, bits)
    requires forall e <- es :: LeavesAlone(e, i, bits)
    ensures Run(s, es).settings[i] * bits == s.settings[i] * bits
    decreases |es|
  {
    if es != [] {
      StepValid(s, es[0]);
      assert es[0] in es;
      FreeStep(s, es[0], i, bits);
      PanelSurvives(Step(s, es[0]), es[1..], i, bits);
    }
  }

  /** Bits of a register the host has flushed are free once its batch is consumed and nothing new
      is cached for them. */
  lemma ConsumedIsFree(s: Mail, i: nat, bits: Word)
    requires s.Valid() && i < SETTINGS && i in s.touched && s.mask[i] !! bits
    requires !s.InFlight() || i in s.applied
    ensures Free(s, i, bits)
  {
  }

  /** In a register the host has never flushed, the next batch brings firmware's own words back
      over whatever the front panel had set there. */
  lemma FirmwareReturns(s: Mail, i: nat)
    requires s.Valid() && Flushes(s) && i < SETTINGS && i !in s.touched && s.mask[i] == {}
    ensures var t := FlushStep(s); var a, b := s.wa[i], s.wb[i];
            && Enabled(t, DevApply(i))
            && ApplyStep(t, i).settings[i] == Merge(s.settings[i], SentValue(a, b), SentMask(a, b))
            && ApplyStep(t, i).settings[i] * SentMask(a, b) == SentValue(a, b) * SentMask(a, b)
  {
  }

  // ---------- one holder of a field ----------

  /** The next batch will not repeat firmware words over these bits. */
  predicate Guarded(s: Mail, i: nat, bits: Word)
    requires s.Shaped() && i < SETTINGS
  {
    i in s.touched || s.mask[i] != {} || SentMask(s.wa[i], s.wb[i]) !! bits
  }

  /** While everyone else leaves these bits alone, what they will come to hold does not change. */
  lemma HeldStep(s: Mail, e: Event, i: nat, bits: Word)
    requires s.Valid() && Enabled(s, e) && i < SETTINGS && Guarded(s, i, bits) && LeavesAlone(e, i, bits)
    ensures Step(s, e).Valid() && Guarded(Step(s, e), i, bits)
    ensures Step(s, e).Eventually(i) * bits == s.Eventually(i) * bits
  {
    StepValid(s, e);
    StepMeets(s, e, i);
    if e.Write? && e.i == i { MergeKeeps(s.Eventually(i), e.v, e.m, bits); }
    if e.Panel? && e.i == i { MergeKeeps(s.Eventually(i), e.v, e.m - s.Pending(i), bits); }
    if e.Flush? && Flushes(s) {
      if i !in s.touched && s.mask[i] == {} {
        MergeKeeps(s.Eventually(i), SentValue(s.wa[i], s.wb[i]), SentMask(s.wa[i], s.wb[i]), bits);
      }
      assert s.mask[i] != {} ==> i in Written(s.mask);
    }
  }

  /** These bits of register i will come to hold `want`, and nobody else is about to change that. */
  predicate Holds(s: Mail, i: nat, bits: Word, want: Word)
    requires s.Shaped() && i < SETTINGS
  {
    Guarded(s, i, bits) && s.Eventually(i) * bits == want * bits
  }

  /** The device itself holds `want` in these bits, and nothing is on its way to them. */
  predicate Shows(s: Mail, i: nat, bits: Word, want: Word)
    requires s.Shaped() && i < SETTINGS
  {
    Free(s, i, bits) && s.settings[i] * bits == want * bits
  }

  lemma HeldAndShown(s: Mail, e: Event, i: nat, bits: Word, want: Word)
    requires s.Valid() && Enabled(s, e) && i < SETTINGS && LeavesAlone(e, i, bits)
    ensures Holds(s, i, bits, want) ==> Holds(Step(s, e), i, bits, want)
    ensures Shows(s, i, bits, want) ==> Shows(Step(s, e), i, bits, want)
  {
    if Holds(s, i, bits, want) { HeldStep(s, e, i, bits); }
    if Shows(s, i, bits, want) { FreeStep(s, e, i, bits); }
  }

  lemma HeldIsShown(s: Mail, i: nat, bits: Word, want: Word)
    requires s.Valid() && i < SETTINGS && Settled(s) && Holds(s, i, bits, want)
    ensures Shows(s, i, bits, want)
  {
  }

  lemma WrittenIsHeld(s: Mail, v: seq<Word>, ms: seq<Word>, i: nat, bits: Word)
    requires s.Valid() && |v| == |ms| == SETTINGS && i < SETTINGS && bits <= ms[i]
    ensures Holds(WriteAll(s, v, ms), i, bits, v[i])
  {
  }

  /** Several masked writes at once, as one image. */
  function WriteAll(s: Mail, v: seq<Word>, ms: seq<Word>): (t: Mail)
    requires s.Shaped() && |v| == |ms| == SETTINGS
    ensures t.Shaped()
  {
    s.(val := seq(SETTINGS, i requires 0 <= i < SETTINGS => Merge(s.val[i], v[i], ms[i])),
       mask := seq(SETTINGS, i requires 0 <= i < SETTINGS => s.mask[i] + ms[i]),
       dirty := s.dirty || exists i :: 0 <= i < SETTINGS && ms[i] != {})
  }

  lemma WriteAllMeets(s: Mail, v: seq<Word>, ms: seq<Word>, i: nat)
    requires s.Valid() && |v| == |ms| == SETTINGS && i < SETTINGS
    ensures var t := WriteAll(s, v, ms); t.Valid() && t.Eventually(i) == Merge(s.Eventually(i), v[i], ms[i])
  {
  }

  // ---------- settling ----------

  /** After the host's last write: one consumed flush sends what is cached, a second zeroes it. */
  predicate Quiet(e: Event) {
    !e.Write? && !e.Flush?
  }

  lemma {:induction false} QuietRun(s: Mail, es: seq<Event>)
    requires s.Valid() && Legal(s, es) && forall e <- es :: Quiet(e)
    ensures var t := Run(s, es);
            && t.Valid() && t.mask == s.mask && t.zero == s.zero && t.dirty == s.dirty && t.ready == s.ready
            && t.wa == s.wa && t.wb == s.wb && t.touched == s.touched && t.seqWr == s.seqWr
    decreases |es|
  {
    if es != [] {
      StepValid(s, es[0]);
      assert es[0] in es;
      QuietRun(Step(s, es[0]), es[1..]);
    }
  }

  predicate Zeroed(s: Mail)
    requires s.Shaped()
  {
    && s.zero == {} && (forall i: nat :: i < SETTINGS ==> s.mask[i] == {})
    && (forall i: nat :: i < SETTINGS && i in s.touched ==> s.wa[i] == {} && s.wb[i] == {})
  }

  /** Two flushes, each begun with the previous batch consumed, and nothing written between them
      clear the dirty flag and leave every host-written register pair zero. */
  lemma TwoFlushesSettle(s: Mail, between: seq<Event>)
    requires s.Valid() && s.ready && !s.InFlight() && Legal(FlushStep(s), between)
    requires forall e <- between :: Quiet(e)
    requires !Run(FlushStep(s), between).InFlight()
    ensures var t := FlushStep(Run(FlushStep(s), between));
            t.Valid() && !t.dirty && Zeroed(t) && FlushStep(t) == t
  {
    var s1 := FlushStep(s);
    assert s1 == Step(s, Flush);
    StepValid(s, Flush);
    QuietRun(s1, between);
    var s2 := Run(s1, between);
    StepValid(s2, Flush);
    assert forall i: nat :: i < SETTINGS ==> s1.mask[i] == {};
    assert Written(s2.mask) == {};
  }

  // ---------- the driver's code ----------

  /** The first n masks, and nothing beyond. */
  function Upto(ms: seq<Word>, n: nat): seq<Word>
    requires n <= |ms|
  {
    seq(|ms|, i requires 0 <= i < |ms| => if i < n then ms[i] else {})
  }

  lemma WriteNone(s: Mail, v: seq<Word>, ms: seq<Word>)
    requires s.Shaped() && |v| == |ms| == SETTINGS
    ensures WriteAll(s, v, Upto(ms, 0)) == s
  {
    var t := WriteAll(s, v, Upto(ms, 0));
    forall i | 0 <= i < SETTINGS ensures t.val[i] == s.val[i] && t.mask[i] == s.mask[i] {
      MergeNothing(s.val[i], v[i]);
    }
    assert t.val == s.val && t.mask == s.mask;
  }

  lemma OneMore(s: Mail, v: seq<Word>, ms: seq<Word>, i: nat)
    requires s.Shaped() && |v| == |ms| == SETTINGS && i < SETTINGS
    ensures var t := WriteAll(s, v, Upto(ms, i));
            WriteAll(s, v, Upto(ms, i + 1)) == if ms[i] != {} then WriteStep(t, i, v[i], ms[i]) else t
  {
    var t, u := WriteAll(s, v, Upto(ms, i)), WriteAll(s, v, Upto(ms, i + 1));
    MergeNothing(s.val[i], v[i]);
    assert Upto(ms, i + 1)[i] == ms[i];
    assert forall j :: 0 <= j < SETTINGS && j != i ==> Upto(ms, i + 1)[j] == Upto(ms, i)[j];
    if ms[i] == {} {
      assert Upto(ms, i + 1) == Upto(ms, i);
    } else {
      assert u.val == WriteStep(t, i, v[i], ms[i]).val;
      assert s.mask[i] + {} + ms[i] == s.mask[i] + ms[i];
      assert u.mask == WriteStep(t, i, v[i], ms[i]).mask;
    }
  }

  datatype Status = Ok | EInval | EAgain | EBusy

  /** A masked write of a whole image, made when `at` states of the mailbox had gone by. */
  datatype ImageWrite = ImageWrite(at: nat, value: seq<Word>, masks: seq<Word>)

  class Mixer {
    const val: array<Word>
    const mask: array<Word>
    const wordA: array<Word>
    const wordB: array<Word>
    var zeroPending: set<nat>
    var dirty: bool
    var ready: bool
    var seqWr: nat
    var seqRd: nat
    var settings: seq<Word>
    var applied: set<nat>
    ghost var touched: set<nat>
    ghost var history: seq<Mail>            // every state so far, the present one last
    ghost var images: seq<ImageWrite>       // image writes so far

    ghost predicate Shaped()
      reads this
    {
      && val.Length == mask.Length == wordA.Length == wordB.Length == SETTINGS == |settings|
      && val != mask && val != wordA && val != wordB && mask != wordA && mask != wordB && wordA != wordB
    }

    ghost function Now(): (s: Mail)
      requires Shaped()
      reads this, val, mask, wordA, wordB
      ensures s.Shaped()
    {
      Mail(val[..], mask[..], zeroPending, dirty, ready, seqWr, wordA[..], wordB[..], seqRd, settings, applied, touched)
    }

    ghost predicate Valid()
      reads this, val, mask, wordA, wordB
    {
      Shaped() && Now().Valid() && |history| > 0 && history[|history| - 1] == Now()
    }

    /** The mailbox moved on, and nobody wrote an image. */
    twostate predicate MovedOn()
      reads this
    {
      old(history) <= history && images == old(images)
    }

    /** Start-up: SEQ_WR is taken over from SEQ_RD; words and settings are as firmware left them. */
    constructor (wa: seq<Word>, wb: seq<Word>, settings: seq<Word>, seqRd: nat)
      requires |wa| == |wb| == |settings| == SETTINGS && seqRd < TWO_TO_THE_32
      ensures Valid() && fresh(val) && fresh(mask) && fresh(wordA) && fresh(wordB)
      ensures Settled(Now()) && ready && touched == {} && images == []
      ensures Now().wa == wa && Now().wb == wb && Now().settings == settings
    {
      val, mask := new Word[SETTINGS](_ => {}), new Word[SETTINGS](_ => {});
      wordA := new Word[SETTINGS](i requires 0 <= i < SETTINGS => wa[i]);
      wordB := new Word[SETTINGS](i requires 0 <= i < SETTINGS => wb[i]);
      zeroPending, dirty, ready := {}, false, true;
      seqWr, this.seqRd, this.settings, applied, touched := seqRd, seqRd, settings, {}, {};
      images := [];
      new;
      assert wordA[..] == wa && wordB[..] == wb;
      history := [Now()];
    }

    /** ua_mixer_write_setting_locked(); `conflict` is the plug-in host's veto. */
    method WriteSetting(index: nat, value: Word, bits: Word, conflict: bool) returns (st: Status)
      requires Valid()
      modifies this, val, mask
      ensures Valid() && MovedOn()
      ensures st == (if index >= SETTINGS then EInval else if !old(ready) then EAgain
                     else if conflict then EBusy else Ok)
      ensures Now() == if st == Ok then old(WriteStep(Now(), index, value, bits)) else old(Now())
    {
      if index >= SETTINGS { return EInval; }
      if !ready { return EAgain; }
      if conflict { return EBusy; }
      StepValid(Now(), Write(index, value, bits));
      val[index] := Merge(val[index], value, bits);
      mask[index] := mask[index] + bits;
      dirty := true;
      assert Now() == old(WriteStep(Now(), index, value, bits));
      history := history + [Now()];
      return Ok;
    }

    /** The image loop of a Unison write: one masked write per setting named, conflicts bypassed. */
    method WriteMasked(v: seq<Word>, ms: seq<Word>)
      requires Valid() && ready && |v| == |ms| == SETTINGS
      modifies this, val, mask
      ensures Valid() && ready && Now() == old(WriteAll(Now(), v, ms))
      ensures old(history) < history && images == old(images) + [ImageWrite(|old(history)|, v, ms)]
    {
      ghost var s := Now();
      WriteNone(s, v, ms);
      ghost var made := ImageWrite(|history|, v, ms);
      var i := 0;
      while i < SETTINGS
        invariant 0 <= i <= SETTINGS && Valid() && ready
        invariant Now() == WriteAll(s, v, Upto(ms, i)) && MovedOn()
      {
        ghost var t := Now();
        if ms[i] != {} {
          var st := WriteSetting(i, v[i], ms[i], false);
          assert Now() == WriteStep(t, i, v[i], ms[i]);
        }
        OneMore(s, v, ms, i);
        i := i + 1;
      }
      assert Upto(ms, SETTINGS) == ms;
      images, history := images + [made], history + [Now()];
    }

    /** The register loop of a flush: changed settings go out packed, last time's as zeros. */
    method FlushWords(ghost s: Mail) returns (zeroNext: set<nat>)
      requires Shaped() && s == Now()
      modifies mask, wordA, wordB
      ensures forall j :: 0 <= j < SETTINGS ==>
              wordA[j] == FlushedA(s, j) && wordB[j] == FlushedB(s, j) && mask[j] == {}
      ensures zeroNext == Written(s.mask)
    {
      zeroNext := {};
      var i := 0;
      while i < SETTINGS
        invariant 0 <= i <= SETTINGS && val[..] == s.val
        invariant forall j :: 0 <= j < i ==> wordA[j] == FlushedA(s, j) && wordB[j] == FlushedB(s, j) && mask[j] == {}
        invariant forall j :: i <= j < SETTINGS ==> wordA[j] == s.wa[j] && wordB[j] == s.wb[j] && mask[j] == s.mask[j]
        invariant forall j: nat :: j in zeroNext <==> j < i && s.mask[j] != {}
      {
        if mask[i] == {} && i in zeroPending {
          wordA[i], wordB[i] := {}, {};
        } else if mask[i] != {} {
          wordA[i] := WordA(val[i], mask[i]);
          wordB[i] := WordB(val[i], mask[i]);
          mask[i] := {};
          zeroNext := zeroNext + {i};
        }
        i := i + 1;
      }
    }

    /** The device, and its front panel. */
    method DeviceTurn(e: Event)
      requires Valid() && Quiet(e) && Enabled(Now(), e)
      modifies this
      ensures Valid() && Now() == old(Step(Now(), e)) && MovedOn()
    {
      StepValid(Now(), e);
      ghost var t := Step(Now(), e);
      match e {
        case DevApply(i) =>
          settings := settings[i := Merge(settings[i], SentValue(wordA[i], wordB[i]), SentMask(wordA[i], wordB[i]))];
          applied := applied + {i};
        case DevAck => seqRd := seqWr;
        case Panel(i, v, m) => settings := settings[i := Merge(settings[i], v, m)];
      }
      assert Now() == t;
      history := history + [Now()];
    }

    /** ua_mixer_flush_settings() */
    method FlushSettings()
      requires Valid()
      modifies this, mask, wordA, wordB
      ensures Valid() && Now() == old(FlushStep(Now())) && MovedOn()
    {
      if !ready || !dirty { return; }
      if seqRd != seqWr { return; }
      ghost var s := Now();
      FlushValid(s);
      var zeroNext := FlushWords(s);
      seqWr := U32(seqWr + 1);
      zeroPending := zeroNext;
      dirty := zeroNext != {};
      applied, touched := {}, touched + zeroNext;
      assert Now() == FlushStep(s);
      history := history + [Now()];
    }
  }
}
