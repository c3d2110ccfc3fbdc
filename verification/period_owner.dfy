/** Two paths serve period wakeups, the 1 ms hrtimer and the period-interrupt thread.  Every
    interleaving of trigger, tick, thread, watchdog and fallback leaves each running stream with
    exactly one of them. */
module PeriodOwner {
  import opened Indices
  import opened Period

  datatype Dir = Play | Rec

  /** An open substream: ring and period sizes are 0 until it is configured. */
  datatype Stream = Closed | Open(period: nat, ring: nat)

  datatype Wakeup = Wakeup(dir: Dir, byIrq: bool)

  // ---------- one stream, under both paths ----------

  /** A position sample taken by one of the paths; an off-boundary interrupt ends in the fallback. */
  datatype Event = Tick(sp: nat) | Thread(sp: nat, offBoundary: bool)

  /** A running stream: its sizes, last position, the path it is on, and the wakeups given to it. */
  datatype View = View(period: nat, ring: nat, last: nat, irq: bool, wakes: nat)

  function StreamStep(v: View, e: Event): View
    requires v.period > 0 && v.ring > 0
  {
    if e.Thread? == v.irq then
      v.(last := e.sp % v.ring, wakes := v.wakes + if Crossed(v.last, e.sp % v.ring, v.period) then 1 else 0,
         irq := v.irq && !e.offBoundary)
    else v
  }

  function StreamRun(v: View, es: seq<Event>): View
    requires v.period > 0 && v.ring > 0
    decreases |es|
  {
    if es == [] then v else StreamRun(StreamStep(v, es[0]), es[1..])
  }

  /** The samples that serve a stream on the given path, across its handover. */
  function Samples(irq: bool, es: seq<Event>): seq<nat>
    decreases |es|
  {
    if es == [] then []
    else if es[0].Thread? == irq then [es[0].sp] + Samples(irq && !es[0].offBoundary, es[1..])
    else Samples(irq, es[1..])
  }

  /** Boundaries in (from, upto]. */
  function Boundaries(from: nat, upto: nat, period: nat, ring: nat): nat
    requires period > 0 && ring > 0
    decreases upto
  {
    if upto <= from then 0 else Boundaries(from, upto - 1, period, ring) + if Boundary(upto, period, ring) then 1 else 0
  }

  lemma {:induction false} BoundariesJoin(a: nat, b: nat, c: nat, period: nat, ring: nat)
    requires period > 0 && ring > 0 && a <= b <= c
    ensures Boundaries(a, c, period, ring) == Boundaries(a, b, period, ring) + Boundaries(b, c, period, ring)
    decreases c
  {
    if b < c { BoundariesJoin(a, b, c - 1, period, ring); }
  }

  lemma {:induction false} NoBoundary(from: nat, upto: nat, period: nat, ring: nat)
    requires period > 0 && ring > 0 && !Passes(from, upto, period, ring)
    ensures Boundaries(from, upto, period, ring) == 0
    decreases upto
  {
    if from < upto {
      assert !Passes(from, upto - 1, period, ring) by {
        if b: nat :| from < b <= upto - 1 && Boundary(b, period, ring) { assert Passes(from, upto, period, ring); }
      }
      NoBoundary(from, upto - 1, period, ring);
      assert !Boundary(upto, period, ring);
    }
  }

  /** With periods that divide the ring, boundaries lie whole periods apart. */
  lemma BoundaryIsMultiple(b: nat, period: nat, ring: nat)
    requires period > 0 && ring > 0 && ring % period == 0
    ensures Boundary(b, period, ring) <==> b % period == 0
  {
    RemainderOfRemainder(b, ring, period);
  }

  lemma ApartByPeriod(a: nat, b: nat, period: nat)
    requires period > 0 && a % period == 0 && b % period == 0 && a < b
    ensures b >= a + period
  {
    if b < a + period { SameIndexSameCounter(a, b, period); }
  }

  /** A sample that advances at most one period passes at most one boundary. */
  lemma OneBoundaryAtMost(from: nat, upto: nat, period: nat, ring: nat)
    requires period > 0 && ring > 0 && ring % period == 0 && from <= upto <= from + period
    ensures Boundaries(from, upto, period, ring) == if Passes(from, upto, period, ring) then 1 else 0
  {
    if Passes(from, upto, period, ring) {
      var b: nat :| from < b <= upto && Boundary(b, period, ring);
      BoundariesJoin(from, b - 1, upto, period, ring);
      BoundariesJoin(b - 1, b, upto, period, ring);
      BoundaryIsMultiple(b, period, ring);
      assert !Passes(from, b - 1, period, ring) by {
        if c: nat :| from < c <= b - 1 && Boundary(c, period, ring) {
          BoundaryIsMultiple(c, period, ring);
          ApartByPeriod(c, b, period);
        }
      }
      assert !Passes(b, upto, period, ring) by {
        if c: nat :| b < c <= upto && Boundary(c, period, ring) {
          BoundaryIsMultiple(c, period, ring);
          ApartByPeriod(b, c, period);
        }
      }
      NoBoundary(from, b - 1, period, ring);
      NoBoundary(b, upto, period, ring);
    } else {
      NoBoundary(from, upto, period, ring);
    }
  }

  function Latest(from: nat, samples: seq<nat>): nat {
    if samples == [] then from else samples[|samples| - 1]
  }

  lemma AdvancesOn(from: nat, samples: seq<nat>, most: nat)
    requires Advances(from, samples, most) && samples != []
    ensures from <= samples[0] <= from + most && Advances(samples[0], samples[1..], most)
    ensures Latest(from, samples) == Latest(samples[0], samples[1..])
  {
    assert Before(from, samples, 0) <= samples[0] <= Before(from, samples, 0) + most;
    forall k | 0 <= k < |samples[1..]|
      ensures Before(samples[0], samples[1..], k) <= samples[1..][k] <= Before(samples[0], samples[1..], k) + most
    {
      assert Before(from, samples, k + 1) <= samples[k + 1] <= Before(from, samples, k + 1) + most;
    }
  }

  lemma {:induction false} AdvancesFar(from: nat, samples: seq<nat>, most: nat)
    requires Advances(from, samples, most)
    ensures from <= Latest(from, samples)
    decreases |samples|
  {
    if samples != [] {
      AdvancesOn(from, samples, most);
      AdvancesFar(samples[0], samples[1..], most);
    }
  }

  /** Over every interleaving of ticks, interrupts and the fallback, a running stream gets exactly one
      wakeup per boundary its samples have passed, on whichever path it was and across the handover,
      as long as each sample that serves it advances at most a period. */
  lemma {:induction false} OneWakeupAcrossHandover(v: View, from: nat, es: seq<Event>)
    requires 0 < v.period && 2 * v.period <= v.ring && v.ring % v.period == 0 && v.last == from % v.ring
    requires Advances(from, Samples(v.irq, es), v.period)
    ensures var t, upto := StreamRun(v, es), Latest(from, Samples(v.irq, es));
            t.wakes == v.wakes + Boundaries(from, upto, v.period, v.ring) && t.last == upto % v.ring
    decreases |es|
  {
    if es != [] {
      var w := StreamStep(v, es[0]);
      if es[0].Thread? == v.irq {
        var x := es[0].sp;
        assert Samples(v.irq, es)[1..] == Samples(w.irq, es[1..]);
        AdvancesOn(from, Samples(v.irq, es), v.period);
        AdvancesFar(x, Samples(w.irq, es[1..]), v.period);
        CrossedIsPassed(from, x, v.period, v.ring);
        OneBoundaryAtMost(from, x, v.period, v.ring);
        OneWakeupAcrossHandover(w, x, es[1..]);
        BoundariesJoin(from, x, Latest(from, Samples(v.irq, es)), v.period, v.ring);
      } else {
        OneWakeupAcrossHandover(w, from, es[1..]);
      }
    }
  }

  /** Wakeups given to one direction. */
  function Given(d: Dir, elapsed: seq<Wakeup>): nat {
    if elapsed == [] then 0 else Given(d, elapsed[..|elapsed| - 1]) + if elapsed[|elapsed| - 1].dir == d then 1 else 0
  }

  lemma {:induction false} GivenJoin(d: Dir, a: seq<Wakeup>, b: seq<Wakeup>)
    ensures Given(d, a + b) == Given(d, a) + Given(d, b)
    decreases |b|
  {
    if b == [] {
      assert a + b == a;
    } else {
      assert (a + b)[..|a + b| - 1] == a + b[..|b| - 1];
      GivenJoin(d, a, b[..|b| - 1]);
    }
  }

  lemma GivenServed(d: Dir, before: seq<Wakeup>, play: seq<Wakeup>, rec: seq<Wakeup>)
    requires (forall w <- play :: w.dir == Play) && (forall w <- rec :: w.dir == Rec) && |play| <= 1 && |rec| <= 1
    ensures Given(d, before + play + rec) == Given(d, before) + |if d == Play then play else rec|
  {
    GivenJoin(d, before + play, rec);
    GivenJoin(d, before, play);
  }

  class Tracker {
    var streams: map<Dir, Stream>
    var runningSubs: set<Dir>
    var irqSubs: set<Dir>
    var timerRunning: bool
    var irqDead: bool
    var transportRunning: bool
    var transportGen: nat
    var irqGen: map<Dir, nat>
    var lastPos: map<Dir, nat>
    var elapsed: seq<Wakeup>         // snd_pcm_period_elapsed() calls so far

    ghost predicate Shaped()
      reads this
    {
      && (forall d: Dir :: d in streams && d in irqGen && d in lastPos)
      && (forall d <- runningSubs :: streams[d].Open?)
    }

    /** IRQ-served streams run, and any other running stream has the timer. */
    ghost predicate Valid()
      reads this
    {
      Shaped() && irqSubs <= runningSubs && (runningSubs - irqSubs != {} ==> timerRunning)
    }

    /** The path that serves a running stream. */
    ghost predicate ServedBy(d: Dir, byIrq: bool)
      reads this
    {
      d in runningSubs && if byIrq then d in irqSubs else d !in irqSubs && timerRunning
    }

    /** Every running stream is served, by one path and not the other. */
    lemma ExactlyOnePath(d: Dir)
      requires Valid() && d in runningSubs
      ensures ServedBy(d, true) <==> !ServedBy(d, false)
    {
      if d !in irqSubs { assert d in runningSubs - irqSubs; }
    }

    constructor ()
      ensures Valid() && runningSubs == {} && elapsed == []
    {
      streams := map[Play := Closed, Rec := Closed];
      runningSubs, irqSubs, timerRunning, irqDead, transportRunning := {}, {}, false, false, false;
      transportGen, irqGen, lastPos, elapsed := 0, map[Play := 0, Rec := 0], map[Play := 0, Rec := 0], [];
      new;
      forall d: Dir ensures d in streams && d in irqGen && d in lastPos {
        match d case Play => case Rec =>
      }
    }

    // ---------- stream life ----------

    method OpenStream(d: Dir)
      requires Valid() && d !in runningSubs
      modifies `streams
      ensures Valid() && streams == old(streams)[d := Open(0, 0)]
    {
      streams := streams[d := Open(0, 0)];
    }

    method Configure(d: Dir, period: nat, ring: nat)
      requires Valid() && d !in runningSubs && streams[d].Open?
      modifies `streams
      ensures Valid() && streams == old(streams)[d := Open(period, ring)]
    {
      streams := streams[d := Open(period, ring)];
    }

    /** ALSA closes a stream only after stopping it. */
    method CloseStream(d: Dir)
      requires Valid() && d !in runningSubs
      modifies `streams
      ensures Valid() && streams == old(streams)[d := Closed]
    {
      streams := streams[d := Closed];
    }

    /** A transport start begins a session; streams of the last one are stale from then on. */
    method StartTransport()
      requires Valid()
      modifies `transportRunning, `transportGen, `irqDead
      ensures Valid() && transportRunning && transportGen == old(transportGen) + 1 && !irqDead
    {
      transportRunning, transportGen, irqDead := true, transportGen + 1, false;
    }

    method StopTransport()
      requires Valid()
      modifies `transportRunning
      ensures Valid() && !transportRunning
    {
      transportRunning := false;
    }

    // ---------- trigger ----------

    /** ua_pcm_trigger(START); `fits` stands for the numeric half of ua_period_irq_usable(). */
    method TriggerStart(d: Dir, startPos: nat, fits: bool)
      requires Valid() && streams[d].Open?
      modifies `lastPos, `runningSubs, `irqSubs, `irqGen, `timerRunning
      ensures Valid() && runningSubs == old(runningSubs) + {d} && lastPos == old(lastPos)[d := startPos]
      ensures fits && transportRunning && !irqDead ==>
              irqSubs == old(irqSubs) + {d} && irqGen == old(irqGen)[d := transportGen]
      ensures !(fits && transportRunning && !irqDead) ==> irqSubs == old(irqSubs) && timerRunning
    {
      lastPos := lastPos[d := startPos];
      runningSubs := runningSubs + {d};
      if fits && transportRunning && !irqDead {
        irqSubs := irqSubs + {d};
        irqGen := irqGen[d := transportGen];
      } else {
        timerRunning := true;
      }
    }

    /** ua_pcm_trigger(STOP): the timer stops only when no running stream is left on it. */
    method TriggerStop(d: Dir)
      requires Valid()
      modifies `runningSubs, `irqSubs, `timerRunning
      ensures Valid() && runningSubs == old(runningSubs) - {d} && irqSubs == old(irqSubs) - {d}
      ensures timerRunning == (old(timerRunning) && runningSubs - irqSubs != {})
    {
      runningSubs := runningSubs - {d};
      irqSubs := irqSubs - {d};
      if runningSubs - irqSubs == {} { timerRunning := false; }
    }

    predicate Stale(d: Dir)
      requires d in irqGen
      reads this
    {
      !transportRunning || irqGen[d] != transportGen
    }

    // ---------- the two paths ----------

    /** Path `irq` serves this stream now: it owns it, the stream is configured, its transport lives. */
    predicate Serves(d: Dir, irq: bool)
      requires d in streams && d in irqGen
      reads this
    {
      && streams[d].Open? && streams[d].period > 0 && streams[d].ring > 0
      && (d in irqSubs) == irq && !(irq && Stale(d))
    }

    /** The wakeup one path owes a stream at sample position sp. */
    function Due(d: Dir, sp: nat, irq: bool): seq<Wakeup>
      requires d in streams && d in irqGen && d in lastPos
      reads this
    {
      if Serves(d, irq) && Crossed(lastPos[d], sp % streams[d].ring, streams[d].period) then [Wakeup(d, irq)] else []
    }

    function NewPos(d: Dir, sp: nat, irq: bool): nat
      requires d in streams && d in irqGen && d in lastPos
      reads this
    {
      if Serves(d, irq) then sp % streams[d].ring else lastPos[d]
    }

    /** An IRQ-served stream whose transport is gone: the thread stops it. */
    predicate Stops(d: Dir, irq: bool)
      requires d in streams && d in irqGen
      reads this
    {
      irq && d in irqSubs && Stale(d) && streams[d].Open? && streams[d].period > 0 && streams[d].ring > 0
    }

    /** ua_period_check() of one substream for one path, at sample position sp. */
    method PeriodCheck(d: Dir, sp: nat, irq: bool)
      requires Valid() && streams[d].Open?
      modifies this
      ensures Valid() && Untouched(old(streams), old(transportRunning), old(transportGen), old(irqGen))
      ensures elapsed == old(elapsed) + old(Due(d, sp, irq))
      ensures lastPos == old(lastPos)[d := old(NewPos(d, sp, irq))]
      ensures runningSubs == old(runningSubs) - (if old(Stops(d, irq)) then {d} else {})
      ensures irqSubs == old(irqSubs) - (if old(Stops(d, irq)) then {d} else {})
    {
      var period, ring := streams[d].period, streams[d].ring;
      if (d in irqSubs) != irq || period == 0 || ring == 0 { return; }
      if irq && Stale(d) {
        if d in runningSubs { TriggerStop(d); }
        return;
      }
      var pos := sp % ring;
      var crossed := pos / period != lastPos[d] / period;
      lastPos := lastPos[d := pos];
      if crossed { elapsed := elapsed + [Wakeup(d, irq)]; }
    }

    predicate Untouched(s: map<Dir, Stream>, running: bool, gen: nat, gens: map<Dir, nat>)
      reads this
    {
      streams == s && transportRunning == running && transportGen == gen && irqGen == gens
    }

    /** Both substreams' boundary tests for one path: it wakes exactly the streams it serves that
        passed a boundary, each once, and leaves the other path's streams alone. */
    method ServeBoth(sp: nat, irq: bool)
      requires Valid()
      modifies this
      ensures Valid() && streams == old(streams)
      ensures elapsed == old(elapsed + Due(Play, sp, irq) + Due(Rec, sp, irq))
      ensures lastPos[Play] == old(NewPos(Play, sp, irq)) && lastPos[Rec] == old(NewPos(Rec, sp, irq))
      ensures forall d: Dir :: d in runningSubs <==> d in old(runningSubs) && !old(Stops(d, irq))
      ensures forall d: Dir :: d in irqSubs <==> d in old(irqSubs) && !old(Stops(d, irq))
    {
      CheckIfOpen(Play, sp, irq);
      CheckIfOpen(Rec, sp, irq);
      forall d: Dir
        ensures d in runningSubs <==> d in old(runningSubs) && !old(Stops(d, irq))
        ensures d in irqSubs <==> d in old(irqSubs) && !old(Stops(d, irq))
      {
        match d case Play => case Rec =>
      }
    }

    method CheckIfOpen(d: Dir, sp: nat, irq: bool)
      requires Valid()
      modifies this
      ensures Valid() && Untouched(old(streams), old(transportRunning), old(transportGen), old(irqGen))
      ensures elapsed == old(elapsed) + old(Due(d, sp, irq))
      ensures lastPos == old(lastPos)[d := old(NewPos(d, sp, irq))]
      ensures runningSubs == old(runningSubs) - (if old(Stops(d, irq)) then {d} else {})
      ensures irqSubs == old(irqSubs) - (if old(Stops(d, irq)) then {d} else {})
    {
      if streams[d].Open? { PeriodCheck(d, sp, irq); }
    }

    /** Running, configured, and not left behind by its transport. */
    predicate Lively(d: Dir)
      requires d in streams && d in irqGen
      reads this
    {
      && d in runningSubs && streams[d].Open? && streams[d].period > 0 && streams[d].ring > 0
      && !(d in irqSubs && Stale(d))
    }

    function ViewOf(d: Dir): View
      requires d in streams && d in lastPos && streams[d].Open?
      reads this
    {
      View(streams[d].period, streams[d].ring, lastPos[d], d in irqSubs, Given(d, elapsed))
    }

    /** ua_period_timer_callback() on a live link: a tick serves the streams the IRQ path does not;
        without a transport it stops them all. */
    method TimerTick(sp: nat)
      requires Valid()
      modifies this
      ensures Valid() && streams == old(streams)
      ensures old(timerRunning && transportRunning) ==>
                && elapsed == old(elapsed + Due(Play, sp, false) + Due(Rec, sp, false))
                && lastPos[Play] == old(NewPos(Play, sp, false)) && lastPos[Rec] == old(NewPos(Rec, sp, false))
                && runningSubs == old(runningSubs) && irqSubs == old(irqSubs)
      ensures !old(timerRunning && transportRunning) ==> elapsed == old(elapsed) && lastPos == old(lastPos)
      ensures old(timerRunning) && !old(transportRunning) ==> runningSubs == {}
      ensures !old(timerRunning) ==> runningSubs == old(runningSubs) && irqSubs == old(irqSubs)
      ensures forall d: Dir :: old(transportRunning && Lively(d)) ==>
                d in runningSubs && ViewOf(d) == StreamStep(old(ViewOf(d)), Tick(sp))
    {
      forall d: Dir { GivenServed(d, elapsed, Due(Play, sp, false), Due(Rec, sp, false)); }
      if !timerRunning {
        assert forall d: Dir :: d in runningSubs ==> d !in runningSubs - irqSubs;
        return;
      }
      if !transportRunning {
        timerRunning := false;
        StopBoth();
        return;
      }
      ServeBoth(sp, false);
    }

    /** The XRUN stops of a dead transport: every open stream. */
    method StopBoth()
      requires Shaped() && irqSubs <= runningSubs
      modifies `runningSubs, `irqSubs, `timerRunning
      ensures Valid() && runningSubs == {}
    {
      if streams[Play].Open? {
        runningSubs, irqSubs := runningSubs - {Play}, irqSubs - {Play};
        if runningSubs - irqSubs == {} { timerRunning := false; }
      }
      if streams[Rec].Open? {
        runningSubs, irqSubs := runningSubs - {Rec}, irqSubs - {Rec};
        if runningSubs - irqSubs == {} { timerRunning := false; }
      }
      forall d | d in runningSubs ensures false {
        assert streams[d].Open?;
        match d case Play => case Rec =>
      }
    }

    /** ua_audio_irq_thread() on a live link: serves the IRQ-owned streams, then may give them up. */
    method IrqThread(sp: nat, offBoundary: bool)
      requires Valid()
      modifies this
      ensures Valid() && streams == old(streams)
      ensures elapsed == old(elapsed + Due(Play, sp, true) + Due(Rec, sp, true))
      ensures lastPos[Play] == old(NewPos(Play, sp, true)) && lastPos[Rec] == old(NewPos(Rec, sp, true))
      ensures forall d: Dir :: d in runningSubs <==> d in old(runningSubs) && !old(Stops(d, true))
      ensures forall d: Dir :: d in irqSubs <==> !offBoundary && d in old(irqSubs) && !old(Stops(d, true))
      ensures forall d: Dir :: old(Lively(d)) ==>
                d in runningSubs && ViewOf(d) == StreamStep(old(ViewOf(d)), Thread(sp, offBoundary))
    {
      forall d: Dir { GivenServed(d, elapsed, Due(Play, sp, true), Due(Rec, sp, true)); }
      if irqSubs == {} { return; }
      ServeBoth(sp, true);
      if offBoundary { Fallback(); }
    }

    // ---------- watchdog ----------

    /** ua_period_irq_stop(): stale or dead IRQ-served streams are stopped. */
    method IrqStop(dead: bool)
      requires Valid()
      modifies `runningSubs, `irqSubs, `timerRunning
      ensures Valid()
      ensures forall d: Dir :: d in runningSubs <==>
              d in old(runningSubs) && !(d in old(irqSubs) && (dead || old(Stale(d))))
      ensures irqSubs == old(irqSubs) * runningSubs
    {
      StopIfStale(Rec, dead);
      StopIfStale(Play, dead);
      forall d: Dir
        ensures d in runningSubs <==> d in old(runningSubs) && !(d in old(irqSubs) && (dead || old(Stale(d))))
      {
        match d case Play => case Rec =>
      }
    }

    method StopIfStale(d: Dir, dead: bool)
      requires Valid()
      modifies `runningSubs, `irqSubs, `timerRunning
      ensures Valid()
      ensures d in old(irqSubs) && (dead || old(Stale(d))) ==>
              runningSubs == old(runningSubs) - {d} && irqSubs == old(irqSubs) - {d}
      ensures !(d in old(irqSubs) && (dead || old(Stale(d)))) ==>
              runningSubs == old(runningSubs) && irqSubs == old(irqSubs)
    {
      if d !in irqSubs { return; }
      if d in runningSubs {
        if dead || Stale(d) { TriggerStop(d); }
      } else {
        // "a bit trigger(STOP) never cleared": the invariant leaves none
        assert false;
      }
    }

    /** ua_period_irq_fallback(): IRQ-served streams go to the hrtimer, for this session. */
    method Fallback()
      requires Valid()
      modifies `irqSubs, `irqDead, `timerRunning
      ensures Valid() && irqSubs == {}
      ensures old(irqSubs) != {} ==> irqDead && timerRunning
      ensures old(irqSubs) == {} ==> irqDead == old(irqDead) && timerRunning == old(timerRunning)
    {
      if streams[Rec].Open? && Rec in irqSubs {
        irqSubs, irqDead, timerRunning := irqSubs - {Rec}, true, true;
      }
      if streams[Play].Open? && Play in irqSubs {
        irqSubs, irqDead, timerRunning := irqSubs - {Play}, true, true;
      }
      forall d | d in irqSubs ensures false {
        assert streams[d].Open?;
        match d case Play => case Rec =>
      }
    }
  }
}
