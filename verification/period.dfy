/** Period wakeups: which path serves a running stream, and when a position sample has passed a
    period boundary of the ring. */
module Period {
  import opened Indices

  // ---------- boundaries ----------

  /** The period of the ring a frame count falls into. */
  function Segment(x: nat, period: nat, ring: nat): nat
    requires period > 0 && ring > 0
  {
    x % ring / period
  }

  /** A period starts at frame b: a period boundary inside the ring, or the wrap. */
  predicate Boundary(b: nat, period: nat, ring: nat)
    requires period > 0 && ring > 0
  {
    b % ring % period == 0
  }

  /** A boundary lies in (from, upto]. */
  ghost predicate Passes(from: nat, upto: nat, period: nat, ring: nat)
    requires period > 0 && ring > 0
  {
    exists b: nat :: from < b <= upto && Boundary(b, period, ring)
  }

  /** The driver's test, on positions in the ring. */
  predicate Crossed(last: nat, pos: nat, period: nat)
    requires period > 0
  {
    pos / period != last / period
  }

  lemma RingStep(x: nat, ring: nat)
    requires ring > 0
    ensures (x + 1) % ring == if x % ring == ring - 1 then 0 else x % ring + 1
  {
    var q, r := x / ring, x % ring;
    assert x == q * ring + r;
    if r == ring - 1 {
      assert x + 1 == (q + 1) * ring by { assert (q + 1) * ring == q * ring + ring; }
      RemainderIsUnique(x + 1, ring, q + 1, 0);
    } else {
      RemainderIsUnique(x + 1, ring, q, r + 1);
    }
  }

  lemma PeriodStep(x: nat, period: nat)
    requires period > 0
    ensures (x + 1) % period == 0 ==> (x + 1) / period == x / period + 1
    ensures (x + 1) % period != 0 ==> (x + 1) / period == x / period
  {
    var q, r := x / period, x % period;
    assert x == q * period + r;
    if r == period - 1 {
      assert (q + 1) * period == q * period + period;
      RemainderIsUnique(x + 1, period, q + 1, 0);
    } else {
      RemainderIsUnique(x + 1, period, q, r + 1);
    }
  }

  /** Without a boundary in between, the segment does not change and the ring does not wrap. */
  lemma {:induction false} SameSegment(from: nat, upto: nat, period: nat, ring: nat)
    requires 0 < period <= ring && from <= upto && !Passes(from, upto, period, ring)
    ensures upto % ring == from % ring + (upto - from)
    ensures Segment(upto, period, ring) == Segment(from, period, ring)
    decreases upto - from
  {
    if from < upto {
      var x := upto - 1;
      assert !Passes(from, x, period, ring) by {
        if b: nat :| from < b <= x && Boundary(b, period, ring) { assert Passes(from, upto, period, ring); }
      }
      SameSegment(from, x, period, ring);
      assert !Boundary(upto, period, ring);
      RingStep(x, ring);
      SmallRemainder(0, period);
      PeriodStep(x % ring, period);
    }
  }

  /** Frames of the segment x lies in, from its start to x. */
  lemma SegmentStart(x: nat, period: nat, ring: nat)
    requires 0 < period <= ring
    ensures x % ring - Segment(x, period, ring) * period == x % ring % period
  {
  }

  /** Having passed a boundary without going almost once round, the segment differs. */
  lemma OtherSegment(from: nat, upto: nat, period: nat, ring: nat)
    requires 0 < period <= ring && from <= upto <= from + (ring - period)
    requires Passes(from, upto, period, ring)
    ensures Segment(upto, period, ring) != Segment(from, period, ring)
  {
    var k := Segment(from, period, ring);
    if Segment(upto, period, ring) == k {
      var b: nat :| from < b <= upto && Boundary(b, period, ring);
      SegmentStart(from, period, ring);
      SegmentStart(upto, period, ring);
      var r, s := from % ring, upto % ring;
      assert r - k * period < period && s - k * period < period;
      NearPlace(from, upto, ring);
      if s >= r {
        // same lap: no boundary between r and s inside one segment
        NearPlace(from, b, ring);
        NearPlace(b, upto, ring);
        InsideSegment(b % ring, k, period, r, s);
      }
    }
  }

  /** Less than a ring on, a position is ahead in the same lap or behind in the next. */
  lemma NearPlace(x: nat, y: nat, ring: nat)
    requires ring > 0 && x <= y < x + ring
    ensures y % ring == if x % ring + (y - x) < ring then x % ring + (y - x) else x % ring + (y - x) - ring
  {
    var q := x / ring;
    assert x == q * ring + x % ring;
    if x % ring + (y - x) < ring {
      RemainderIsUnique(y, ring, q, x % ring + (y - x));
    } else {
      assert (q + 1) * ring == q * ring + ring;
      RemainderIsUnique(y, ring, q + 1, x % ring + (y - x) - ring);
    }
  }

  lemma InsideSegment(p: nat, k: nat, period: nat, r: nat, s: nat)
    requires period > 0 && k * period <= r < p <= s < k * period + period
    ensures p % period != 0
  {
    RemainderIsUnique(p, period, k, p - k * period);
  }

  /** Boundaries are never missed or invented: for samples that advance at most ring - period
      frames, the driver's test fires exactly when a boundary was passed. */
  lemma CrossedIsPassed(from: nat, upto: nat, period: nat, ring: nat)
    requires 0 < period <= ring && from <= upto <= from + (ring - period)
    ensures Crossed(from % ring, upto % ring, period) <==> Passes(from, upto, period, ring)
  {
    if Passes(from, upto, period, ring) {
      OtherSegment(from, upto, period, ring);
    } else {
      SameSegment(from, upto, period, ring);
    }
  }

  /** One frame further and a boundary can go unnoticed: the bound is exact. */
  lemma BoundIsExact(period: nat, ring: nat)
    requires 0 < period <= ring
    ensures var from := period - 1; var upto := from + (ring - period) + 1;
            Passes(from, upto, period, ring) && !Crossed(from % ring, upto % ring, period)
  {
    assert ring == 1 * ring;
    RemainderIsUnique(ring, ring, 1, 0);
    SmallRemainder(period - 1, ring);
    SmallRemainder(0, period);
    SmallRemainder(0, ring);
    assert Boundary(ring, period, ring);
    RemainderIsUnique(period - 1, period, 0, period - 1);
    RemainderIsUnique(0, period, 0, 0);
  }

  // ---------- whole runs of samples ----------

  /** Samples that each advance by at most `most` frames. */
  predicate Advances(from: nat, samples: seq<nat>, most: nat) {
    forall k :: 0 <= k < |samples| ==> Before(from, samples, k) <= samples[k] <= Before(from, samples, k) + most
  }

  function Before(from: nat, samples: seq<nat>, k: nat): nat
    requires k <= |samples|
  {
    if k == 0 then from else samples[k - 1]
  }

  /** The wakeups the driver gives for a run of samples, starting from position `last`. */
  function Wakeups(last: nat, samples: seq<nat>, period: nat, ring: nat): (w: seq<bool>)
    requires period > 0 && ring > 0
    ensures |w| == |samples|
    decreases |samples|
  {
    if samples == [] then []
    else [Crossed(last, samples[0] % ring, period)] + Wakeups(samples[0] % ring, samples[1..], period, ring)
  }

  lemma {:induction false} WakeupsAt(from: nat, samples: seq<nat>, period: nat, ring: nat, k: nat)
    requires period > 0 && ring > 0 && k < |samples|
    ensures Wakeups(from % ring, samples, period, ring)[k] ==
            Crossed(Before(from, samples, k) % ring, samples[k] % ring, period)
    decreases k
  {
    if k > 0 {
      WakeupsAt(samples[0], samples[1..], period, ring, k - 1);
      assert Before(samples[0], samples[1..], k - 1) == Before(from, samples, k);
    }
  }

  /** Over any run the wakeups mark exactly the samples that passed a boundary. */
  lemma NoBoundaryMissed(from: nat, samples: seq<nat>, period: nat, ring: nat, k: nat)
    requires 0 < period <= ring && Advances(from, samples, ring - period) && k < |samples|
    ensures Wakeups(from % ring, samples, period, ring)[k] <==>
            Passes(Before(from, samples, k), samples[k], period, ring)
  {
    WakeupsAt(from, samples, period, ring, k);
    CrossedIsPassed(Before(from, samples, k), samples[k], period, ring);
  }

  /** ua_period_irq_usable() on the numbers; rate and transport conditions aside. */
  predicate TimerFits(timer: nat, period: nat, ring: nat) {
    timer > 0 && ring > 0 && ring % timer == 0 && period >= timer && period % timer == 0 && period * 4 <= ring
  }

  /** One sample in each timer interval after `from`, which lies in interval 0. */
  predicate OncePerInterval(from: nat, samples: seq<nat>, timer: nat) {
    from < timer && forall k :: 0 <= k < |samples| ==> InInterval(samples[k], k + 1, timer)
  }

  predicate InInterval(x: nat, k: nat, timer: nat) {
    k * timer <= x < k * timer + timer
  }

  lemma MultipleOf(b: nat, m: nat, timer: nat)
    requires timer > 0 && m > 0 && m % timer == 0 && b % m % timer == 0
    ensures b % timer == 0
  {
    RemainderOfRemainder(b, m, timer);
  }

  /** A boundary of the ring is a timer tick. */
  lemma BoundaryIsTick(b: nat, timer: nat, period: nat, ring: nat)
    requires TimerFits(timer, period, ring) && Boundary(b, period, ring)
    ensures b % timer == 0
  {
    var p := b % ring;
    assert p == p / period * period && period == period / timer * timer;
    assert p == (p / period * (period / timer)) * timer;
    RemainderIsUnique(p, timer, p / period * (period / timer), 0);
    MultipleOf(b, ring, timer);
  }

  /** With an interrupt that divides ring and period, one sample per interval gives exactly one
      wakeup per boundary forever: sample k wakes if and only if tick k is a boundary. */
  lemma OneWakeupPerBoundary(from: nat, samples: seq<nat>, timer: nat, period: nat, ring: nat, k: nat)
    requires TimerFits(timer, period, ring) && OncePerInterval(from, samples, timer) && k < |samples|
    ensures Wakeups(from % ring, samples, period, ring)[k] <==> Boundary((k + 1) * timer, period, ring)
  {
    var x, y, tick := Before(from, samples, k), samples[k], (k + 1) * timer;
    assert InInterval(samples[k], k + 1, timer);
    if k > 0 { assert InInterval(samples[k - 1], k, timer); }
    assert tick == k * timer + timer;
    assert k * timer <= x < tick <= y < tick + timer;
    WakeupsAt(from, samples, period, ring, k);
    CrossedIsPassed(x, y, period, ring);
    if Passes(x, y, period, ring) {
      var b: nat :| x < b <= y && Boundary(b, period, ring);
      BoundaryIsTick(b, timer, period, ring);
      OnlyTick(b, k, timer);
    }
  }

  lemma OnlyTick(b: nat, k: nat, timer: nat)
    requires timer > 0 && b % timer == 0 && k * timer < b < k * timer + timer + timer
    ensures b == (k + 1) * timer
  {
    var q := b / timer;
    assert b == q * timer && (k + 2) * timer == k * timer + timer + timer;
    if q <= k { MulMonotone(q, k, timer); }
    if q >= k + 2 { MulMonotone(k + 2, q, timer); }
  }
}
