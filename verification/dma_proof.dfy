/** Every step of Orphans keeps its invariant, and the invariant gives the safety property. */
module DmaProof {
  import opened Indices
  import opened RingModel
  import opened Orphans

  // ---------- steps that neither queue nor abandon ----------

  /** r' is r after the device moved on, the driver looked, rang, or withdrew unrung entries. */
  ghost predicate Moves(r: Ring, r': Ring) {
    && r'.capacity == r.capacity && r'.gens == r.gens && r'.gen == r.gen
    && |r.log| <= |r'.log| && r.floor <= r'.floor
    && (forall p | |r'.log| <= p < |r'.hist| :: p < |r.hist| && r'.hist[p] == r.hist[p])
    && (forall f <- r'.fetched | f.0 >= |r'.log| ::
          f in r.fetched || (f.0 < r.floor && f.0 < |r.hist| && f.1 == r.hist[f.0]))
  }

  lemma MovesHot(r: Ring, r': Ring, p: nat, e: Entry)
    requires Moves(r, r') && r'.Hot(p, e)
    ensures r.Hot(p, e)
  {
  }

  lemma MovesKeepsClean(r: Ring, r': Ring, b: nat)
    requires Moves(r, r') && Clean(r, b)
    ensures Clean(r', b)
  {
    forall p, e | r'.Hot(p, e) ensures !Names(e, b) { MovesHot(r, r', p, e); }
  }

  lemma MovesKeepsActive(r: Ring, r': Ring, u: Use, b: nat)
    requires Moves(r, r') && ActiveOk(r, u, b)
    ensures ActiveOk(r', u, b)
  {
  }

  lemma MovesKeepsRef(r: Ring, r': Ring, ref: Ref)
    requires r.capacity > 0 && Moves(r, r') && ref.Ref? && RefOk(r, ref)
    ensures RefOk(r', ref)
  {
  }

  lemma MovesKeepsCovered(r: Ring, r': Ring, i: nat, o: Orphan)
    requires Moves(r, r') && Covered(r, i, o)
    ensures Covered(r', i, o)
  {
    forall p, e | r'.Hot(p, e) && Names(e, o.buf)
      ensures exists j :: 0 <= j < |o.refs| && Covers(r', i, o.refs[j], p)
    {
      MovesHot(r, r', p, e);
      var j :| 0 <= j < |o.refs| && Covers(r, i, o.refs[j], p);
      assert Covers(r', i, o.refs[j], p);
    }
  }

  lemma MoveKeepsInv(s: System, i: nat, r': Ring)
    requires Inv(s) && i < |s.rings| && Moves(s.rings[i], r') && r'.Valid()
    ensures Inv(SetRing(s, i, r'))
  {
    var t := SetRing(s, i, r');
    MoveKeepsUses(s, i, r', t);
    MoveKeepsOthers(s, i, r', t);
    OrphansAfterMove(s, i, r');
    SameFates(s, t);
  }

  lemma MoveKeepsUses(s: System, i: nat, r': Ring, t: System)
    requires UsesOk(s) && i < |s.rings| && Moves(s.rings[i], r')
    requires t.uses == s.uses && t.rings == s.rings[i := r']
    ensures UsesOk(t)
  {
    forall b, h | b in t.uses && 0 <= h < |t.rings|
      ensures if h in t.uses[b] then ActiveOk(t.rings[h], t.uses[b][h], b) else Clean(t.rings[h], b)
    {
      if h == i {
        if i in s.uses[b] {
          MovesKeepsActive(s.rings[i], r', s.uses[b][i], b);
        } else {
          MovesKeepsClean(s.rings[i], r', b);
        }
      }
    }
  }

  lemma MoveKeepsOthers(s: System, i: nat, r': Ring, t: System)
    requires OthersClean(s) && i < |s.rings| && Moves(s.rings[i], r')
    requires t.freed == s.freed && t.next == s.next && t.rings == s.rings[i := r']
    ensures OthersClean(t)
  {
    forall b, h | b in t.freed && 0 <= h < |t.rings| ensures Clean(t.rings[h], b) {
      assert Clean(s.rings[h], b);
      if h == i { MovesKeepsClean(s.rings[i], r', b); }
    }
    forall b: nat, h | b >= t.next && 0 <= h < |t.rings| ensures Clean(t.rings[h], b) {
      assert Clean(s.rings[h], b);
      if h == i { MovesKeepsClean(s.rings[i], r', b); }
    }
  }

  lemma SameFates(s: System, t: System)
    requires OneFate(s)
    requires t.uses.Keys == s.uses.Keys && t.freed == s.freed && t.leaked == s.leaked && t.next == s.next
    requires ParkedSet(t.orphans) == ParkedSet(s.orphans) && Distinct(t.orphans)
    ensures OneFate(t)
  {
    forall b: nat ensures Known(t, b) <==> b < t.next { assert Known(s, b) <==> b < s.next; }
  }

  /** Conditions that do not speak of parked buffers carry over when only those change. */
  lemma SameElsewhere(s: System, t: System)
    requires RingsOk(s) && UseRings(s) && UsesOk(s) && OthersClean(s)
    requires t.rings == s.rings && t.uses == s.uses && t.freed == s.freed && t.next == s.next
    ensures RingsOk(t) && UseRings(t) && UsesOk(t) && OthersClean(t)
  {
  }

  lemma OrphansAfterMove(s: System, i: nat, r': Ring)
    requires RingsOk(s) && OrphansOk(s) && i < |s.rings| && Moves(s.rings[i], r') && r'.Valid()
    ensures RingsOk(SetRing(s, i, r')) && OrphansOk(SetRing(s, i, r'))
  {
    var r, t := s.rings[i], SetRing(s, i, r');
    forall k | 0 <= k < |t.orphans| ensures RefsOk(t.rings, t.orphans[k]) {
      var o := t.orphans[k];
      assert RefsOk(s.rings, o);
      forall j | 0 <= j < |o.refs| && o.refs[j].Ref?
        ensures o.refs[j].ring < |t.rings| && RefOk(t.rings[o.refs[j].ring], o.refs[j])
      {
        if o.refs[j].ring == i { MovesKeepsRef(r, r', o.refs[j]); }
      }
    }
    forall k, h | 0 <= k < |t.orphans| && 0 <= h < |t.rings| ensures Covered(t.rings[h], h, t.orphans[k]) {
      assert Covered(s.rings[h], h, s.orphans[k]);
      if h == i { MovesKeepsCovered(r, r', i, s.orphans[k]); }
    }
  }

  lemma FetchMoves(r: Ring, p: nat)
    requires r.Valid() && |r.log| <= p < r.target
    ensures Moves(r, Fetch(r, p)) && Fetch(r, p).Valid()
  {
  }

  lemma ConsumeMoves(r: Ring, e: Entry)
    requires r.Valid() && CanConsume(r, e)
    ensures Moves(r, Consume(r, e)) && Consume(r, e).Valid()
  {
    ConsumeValid(r, e);
  }

  lemma UpdatePosMoves(r: Ring)
    requires r.Valid()
    ensures Moves(r, UpdatePos(r)) && UpdatePos(r).Valid()
  {
  }

  lemma DoorbellMoves(r: Ring)
    requires r.Valid()
    ensures Moves(r, RingDoorbell(r)) && RingDoorbell(r).Valid()
  {
    DoorbellValid(r);
  }

  lemma UnwindMoves(r: Ring, start: nat)
    requires r.Valid() && r.floor <= start <= |r.hist|
    ensures Moves(r, Unwind(r, start)) && Unwind(r, start).Valid()
  {
    UnwindValid(r, start);
  }

  // ---------- queueing ----------

  lemma PutHot(r: Ring, e: Entry, p: nat, x: Entry)
    requires r.Valid() && r.live && FreeSlots(r) > 0 && PutSlot(r, e).Hot(p, x)
    ensures r.Hot(p, x) || (p == |r.hist| && x == e)
  {
  }

  lemma PutKeepsClean(r: Ring, e: Entry, b: nat)
    requires r.Valid() && r.live && FreeSlots(r) > 0 && Clean(r, b) && !Names(e, b)
    ensures Clean(PutSlot(r, e), b)
  {
    forall p, x | PutSlot(r, e).Hot(p, x) ensures !Names(x, b) { PutHot(r, e, p, x); }
  }

  lemma PutKeepsActive(r: Ring, e: Entry, u: Use, u': Use, b: nat)
    requires r.Valid() && r.live && FreeSlots(r) > 0 && ActiveOk(r, u, b)
    requires u'.gen == u.gen && u'.first <= u.first
    requires u.gen == r.gens && Names(e, b) ==> u'.first <= |r.hist|
    ensures ActiveOk(PutSlot(r, e), u', b)
  {
  }

  lemma PutStartsActive(r: Ring, e: Entry, b: nat)
    requires r.Valid() && r.live && FreeSlots(r) > 0 && Clean(r, b)
    ensures ActiveOk(PutSlot(r, e), Use(r.gens, |r.hist|), b)
  {
    var r', h := PutSlot(r, e), r.hist;
    forall p | |r'.log| <= p < |r'.hist| && Names(r'.hist[p], b) ensures |h| <= p {
      if p < |h| { assert r.Hot(p, h[p]); }
    }
    forall f <- r'.fetched | f.0 >= |r'.log| && Names(f.1, b) ensures false {
      assert r.Hot(f.0, f.1);
    }
  }

  lemma PutKeepsCovered(r: Ring, e: Entry, i: nat, o: Orphan)
    requires r.Valid() && r.live && FreeSlots(r) > 0 && Covered(r, i, o) && !Names(e, o.buf)
    ensures Covered(PutSlot(r, e), i, o)
  {
    var r' := PutSlot(r, e);
    forall p, x | r'.Hot(p, x) && Names(x, o.buf)
      ensures exists j :: 0 <= j < |o.refs| && Covers(r', i, o.refs[j], p)
    {
      PutHot(r, e, p, x);
      var j :| 0 <= j < |o.refs| && Covers(r, i, o.refs[j], p);
      assert Covers(r', i, o.refs[j], p);
    }
  }

  lemma PutKeepsInv(s: System, i: nat, e: Entry)
    requires Inv(s) && Allowed(s, HostPut(i, e))
    ensures Inv(Step(s, HostPut(i, e)))
  {
    var t := Step(s, HostPut(i, e));
    PutValid(s.rings[i], e);
    PutKeepsUses(s, i, e, t);
    PutKeepsOthers(s, i, e, t);
    PutKeepsOrphans(s, i, e, t);
    SameFates(s, t);
  }

  lemma PutKeepsUses(s: System, i: nat, e: Entry, t: System)
    requires RingsOk(s) && UsesOk(s) && Allowed(s, HostPut(i, e)) && t == Step(s, HostPut(i, e))
    ensures UsesOk(t)
  {
    var r := s.rings[i];
    forall b, h | b in t.uses && 0 <= h < |t.rings|
      ensures if h in t.uses[b] then ActiveOk(t.rings[h], t.uses[b][h], b) else Clean(t.rings[h], b)
    {
      if h == i {
        if i in s.uses[b] {
          assert ActiveOk(r, s.uses[b][i], b);
          PutKeepsActive(r, e, s.uses[b][i], t.uses[b][i], b);
        } else if Names(e, b) {
          PutStartsActive(r, e, b);
        } else {
          PutKeepsClean(r, e, b);
        }
      }
    }
  }

  lemma PutKeepsOthers(s: System, i: nat, e: Entry, t: System)
    requires RingsOk(s) && OthersClean(s) && OneFate(s) && Allowed(s, HostPut(i, e)) && t == Step(s, HostPut(i, e))
    ensures OthersClean(t)
  {
    forall b, h | b in t.freed && 0 <= h < |t.rings| ensures Clean(t.rings[h], b) {
      assert Clean(s.rings[h], b);
      if h == i { PutKeepsClean(s.rings[i], e, b); }
    }
    forall b: nat, h | b >= t.next && 0 <= h < |t.rings| ensures Clean(t.rings[h], b) {
      assert Clean(s.rings[h], b) && !Known(s, b);
      if h == i { PutKeepsClean(s.rings[i], e, b); }
    }
  }

  lemma PutKeepsOrphans(s: System, i: nat, e: Entry, t: System)
    requires RingsOk(s) && OrphansOk(s) && OneFate(s) && Allowed(s, HostPut(i, e)) && t == Step(s, HostPut(i, e))
    requires RingsOk(t)
    ensures OrphansOk(t)
  {
    forall k | 0 <= k < |t.orphans| ensures RefsOk(t.rings, t.orphans[k]) {
      assert RefsOk(s.rings, s.orphans[k]);
    }
    forall k, h | 0 <= k < |t.orphans| && 0 <= h < |t.rings| ensures Covered(t.rings[h], h, t.orphans[k]) {
      assert Covered(s.rings[h], h, s.orphans[k]);
      if h == i {
        assert s.orphans[k].buf in ParkedSet(s.orphans);
        PutKeepsCovered(s.rings[i], e, i, s.orphans[k]);
      }
    }
  }

  // ---------- resync ----------

  /** What a resync at r leaves behind, generation apart. */
  ghost predicate Resyncs(r: Ring, r': Ring) {
    && |r.log| <= |r.hist|
    && r'.capacity == r.capacity && r'.log == r.log && r'.fetched == r.fetched
    && r'.hist == r.hist[..|r.log|] && r'.target == |r.log| && r'.floor == |r.log|
    && r'.gens == (if r.live && |r.log| < |r.hist| then r.gens + 1 else r.gens) && r'.gen == U32(r'.gens)
  }

  lemma ResyncHot(r: Ring, r': Ring, p: nat, e: Entry)
    requires Resyncs(r, r') && r'.Hot(p, e)
    ensures r.Hot(p, e) && (p, e) in r.fetched
  {
  }

  lemma ResyncKeepsClean(r: Ring, r': Ring, b: nat)
    requires Resyncs(r, r') && Clean(r, b)
    ensures Clean(r', b)
  {
    forall p, e | r'.Hot(p, e) ensures !Names(e, b) { ResyncHot(r, r', p, e); }
  }

  lemma ResyncKeepsActive(r: Ring, r': Ring, u: Use, b: nat)
    requires Resyncs(r, r') && (!r.live ==> |r.log| == |r.hist|) && r.floor <= |r.hist| && ActiveOk(r, u, b)
    ensures ActiveOk(r', u, b)
  {
  }

  lemma AbandonStale(r: Ring, r': Ring, i: nat, ref: Ref)
    requires r.Valid() && Resyncs(r, r') && r'.gens == r.gens + 1
    requires ref.Ref? && ref.ring == i && RefOk(r, ref) && Stale(r, ref) && r'.gens < ref.absGen + TWO_TO_THE_32
    ensures AbandonRef(UpdatePos(r), i, ref) == ref && RefOk(r', ref) && Stale(r', ref)
  {
    StaleNeverPasses(r, ref);
  }

  lemma AbandonTwice(r: Ring, r': Ring, i: nat, ref: Ref)
    requires r.Valid() && Resyncs(r, r') && r'.gens == r.gens + 1
    requires ref.Ref? && ref.ring == i && RefOk(r, ref) && ref.abandoned
    ensures RefOk(r', ref)
    ensures AbandonRef(UpdatePos(r), i, ref) == ref ||
            (AbandonRef(UpdatePos(r), i, ref) == NoRing && |r.log| >= ref.absEnd)
  {
    var u := UpdatePos(r);
    UpdatePosValid(r);
    if ref.gen == r.gen && RefTest(u, ref) { ConsumedTestIsSound(u, ref); }
  }

  lemma AbandonLive(r: Ring, r': Ring, i: nat, ref: Ref)
    requires r.Valid() && Resyncs(r, r') && r'.gens == r.gens + 1
    requires ref.Ref? && ref.ring == i && RefOk(r, ref) && !ref.abandoned && !Stale(r, ref)
    ensures var after := AbandonRef(UpdatePos(r), i, ref);
            if after.NoRing? then |r.log| >= ref.absEnd
            else after.ring == i && after.abandoned && after.absEnd >= ref.absEnd && RefOk(r', after)
  {
    var u := UpdatePos(r);
    UpdatePosValid(r);
    assert ref.absEnd < |r.log| + r.capacity;
    hide Ring.Valid, Masked, Pending, RefTest;
    if RefTest(u, ref) {
      ConsumedTestIsSound(u, ref);
    } else {
      NeedIsEnough(u, ref);
    }
  }

  /** What is still to be consumed of a live reference that fails its test. */
  lemma NeedIsEnough(r: Ring, ref: Ref)
    requires IsCapacity(r.capacity) && r.hwPos == |r.log| % r.capacity
    requires ref.Ref? && !ref.abandoned && ref.gen == r.gen && !RefTest(r, ref)
    requires ref.end == ref.absEnd % r.capacity && ref.absEnd < |r.log| + r.capacity
    ensures var need := Masked(ref.end - r.hwPos, r.capacity);
            0 < need < r.capacity && |r.log| + need >= ref.absEnd
  {
    hide Pending;
    NeedReachesEnd(|r.log|, ref.absEnd, r.capacity);
  }

  lemma NeedReachesEnd(c: nat, end: nat, n: nat)
    requires n > 0 && end < c + n
    ensures c + (end % n - c % n) % n >= end
  {
    if c < end { RingDistance(end, c, n); }
  }

  /** At the resync point a reference is dropped, converted, or of no concern to this ring. */
  lemma AbandonedRef(r: Ring, r': Ring, i: nat, ref: Ref)
    requires r.Valid() && Resyncs(r, r') && r'.gens == r.gens + 1
    requires ref.Ref? && ref.ring == i && RefOk(r, ref)
    requires !ref.abandoned && ref.absGen < r.gens ==> r.gens + 1 < ref.absGen + TWO_TO_THE_32
    ensures var after := AbandonRef(UpdatePos(r), i, ref);
            && (after.Ref? ==> after.ring == i && RefOk(r', after))
            && forall p :: p >= |r.log| && Covers(r, i, ref, p) ==> Covers(r', i, after, p)
  {
    if ref.abandoned {
      AbandonTwice(r, r', i, ref);
    } else if Stale(r, ref) {
      AbandonStale(r, r', i, ref);
    } else {
      AbandonLive(r, r', i, ref);
    }
  }

  lemma ResyncKeepsOrphan(s: System, i: nat, r': Ring, o: Orphan)
    requires RingsOk(s) && i < |s.rings| && Resyncs(s.rings[i], r') && r'.Valid() && r'.gens == s.rings[i].gens + 1
    requires RefsOk(s.rings, o)
    requires forall j | 0 <= j < |o.refs| ::
               var ref := o.refs[j];
               (ref.Ref? && ref.ring == i && !ref.abandoned && ref.absGen < s.rings[i].gens ==>
                  r'.gens < ref.absGen + TWO_TO_THE_32)
    ensures RefsOk(s.rings[i := r'], AbandonOrphan(UpdatePos(s.rings[i]), i, o))
    ensures forall h | 0 <= h < |s.rings| && Covered(s.rings[h], h, o) ::
              Covered(s.rings[i := r'][h], h, AbandonOrphan(UpdatePos(s.rings[i]), i, o))
  {
    var r, rings', o' := s.rings[i], s.rings[i := r'], AbandonOrphan(UpdatePos(s.rings[i]), i, o);
    forall j | 0 <= j < |o.refs| && o'.refs[j].Ref?
      ensures o'.refs[j].ring < |rings'| && RefOk(rings'[o'.refs[j].ring], o'.refs[j])
    {
      if o.refs[j].ring == i { AbandonedRef(r, r', i, o.refs[j]); }
    }
    forall h, p, e | 0 <= h < |s.rings| && Covered(s.rings[h], h, o) && rings'[h].Hot(p, e) && Names(e, o'.buf)
      ensures exists j :: 0 <= j < |o'.refs| && Covers(rings'[h], h, o'.refs[j], p)
    {
      if h == i { ResyncHot(r, r', p, e); }
      var j :| 0 <= j < |o.refs| && Covers(s.rings[h], h, o.refs[j], p);
      if h == i { AbandonedRef(r, r', i, o.refs[j]); }
      assert Covers(rings'[h], h, o'.refs[j], p);
    }
  }

  lemma AbandonKeepsBooks(r: Ring, i: nat, os: seq<Orphan>)
    requires IsCapacity(r.capacity)
    ensures var os' := AbandonAll(r, i, os);
            TotalSize(os') == TotalSize(os) && ParkedSet(os') == ParkedSet(os) && (Distinct(os) ==> Distinct(os'))
  {
    var os' := AbandonAll(r, i, os);
    SameSizes(os, os');
    forall b | b in ParkedSet(os) ensures b in ParkedSet(os') {
      var k :| 0 <= k < |os| && os[k].buf == b;
      assert os'[k] in os' && os'[k].buf == b;
    }
    forall b | b in ParkedSet(os') ensures b in ParkedSet(os) {
      var k :| 0 <= k < |os'| && os'[k].buf == b;
      assert os[k] in os && os[k].buf == b;
    }
  }

  lemma {:induction false} SameSizes(a: seq<Orphan>, b: seq<Orphan>)
    requires |a| == |b| && forall k :: 0 <= k < |a| ==> a[k].size == b[k].size
    ensures TotalSize(a) == TotalSize(b)
  {
    if a != [] { SameSizes(a[1..], b[1..]); }
  }

  lemma QuietResyncMoves(r: Ring, r': Ring)
    requires r.Valid() && Resyncs(r, r') && |r.log| == |r.hist|
    ensures Moves(r, r')
  {
  }

  /** A resync, with or without entries still queued, keeps the invariant. */
  lemma ResyncKeepsInv(s: System, i: nat, r': Ring)
    requires Inv(s) && i < |s.rings| && s.rings[i].Idle() && Resyncs(s.rings[i], r') && r'.Valid()
    requires Abandons(s.rings[i], s.rings[i].position) ==> NoGenerationAlias(s, i)
    ensures Inv(SetRing(s, i, r').(orphans := ResyncOrphans(s, i, s.rings[i].position)))
  {
    var r := s.rings[i];
    ResyncValid(r);
    if !Abandons(r, r.position) {
      QuietResyncMoves(r, r');
      MoveKeepsInv(s, i, r');
    } else {
      var t := SetRing(s, i, r').(orphans := ResyncOrphans(s, i, r.position));
      AbandonKeepsBooks(UpdatePos(r), i, s.orphans);
      forall k | 0 <= k < |s.orphans|
        ensures RefsOk(t.rings, t.orphans[k])
        ensures forall h | 0 <= h < |t.rings| :: Covered(t.rings[h], h, t.orphans[k])
      {
        ResyncKeepsOrphan(s, i, r', s.orphans[k]);
        forall h | 0 <= h < |t.rings| ensures Covered(t.rings[h], h, t.orphans[k]) {
          assert Covered(s.rings[h], h, s.orphans[k]);
        }
      }
      ResyncKeepsRest(s, i, r', t);
    }
  }

  lemma ResyncKeepsRest(s: System, i: nat, r': Ring, t: System)
    requires Inv(s) && i < |s.rings| && Resyncs(s.rings[i], r') && r'.Valid()
    requires t == SetRing(s, i, r').(orphans := t.orphans) && ParkedSet(t.orphans) == ParkedSet(s.orphans)
    requires Distinct(t.orphans)
    ensures RingsOk(t) && UseRings(t) && UsesOk(t) && OthersClean(t) && OneFate(t)
  {
    ResyncKeepsUses(s, i, r', t);
    ResyncKeepsOthers(s, i, r', t);
    SameFates(s, t);
  }

  lemma ResyncKeepsUses(s: System, i: nat, r': Ring, t: System)
    requires RingsOk(s) && UsesOk(s) && i < |s.rings| && Resyncs(s.rings[i], r')
    requires t.uses == s.uses && t.rings == s.rings[i := r']
    ensures UsesOk(t)
  {
    forall b, h | b in t.uses && 0 <= h < |t.rings|
      ensures if h in t.uses[b] then ActiveOk(t.rings[h], t.uses[b][h], b) else Clean(t.rings[h], b)
    {
      if h == i {
        if i in s.uses[b] {
          ResyncKeepsActive(s.rings[i], r', s.uses[b][i], b);
        } else {
          ResyncKeepsClean(s.rings[i], r', b);
        }
      }
    }
  }

  lemma ResyncKeepsOthers(s: System, i: nat, r': Ring, t: System)
    requires OthersClean(s) && i < |s.rings| && Resyncs(s.rings[i], r')
    requires t.freed == s.freed && t.next == s.next && t.rings == s.rings[i := r']
    ensures OthersClean(t)
  {
    forall b, h | b in t.freed && 0 <= h < |t.rings| ensures Clean(t.rings[h], b) {
      assert Clean(s.rings[h], b);
      if h == i { ResyncKeepsClean(s.rings[i], r', b); }
    }
    forall b: nat, h | b >= t.next && 0 <= h < |t.rings| ensures Clean(t.rings[h], b) {
      assert Clean(s.rings[h], b);
      if h == i { ResyncKeepsClean(s.rings[i], r', b); }
    }
  }

  // ---------- buffers ----------

  lemma AllocKeepsInv(s: System)
    requires Inv(s) && Allowed(s, HostAlloc)
    ensures Inv(Step(s, HostAlloc))
  {
    var t := Step(s, HostAlloc);
    assert !Known(s, s.next);
    forall b: nat ensures Known(t, b) <==> b < t.next { assert Known(s, b) <==> b < s.next; }
    OrphansCarryOver(s, t);
  }

  lemma OrphansCarryOver(s: System, t: System)
    requires RingsOk(s) && OrphansOk(s) && t.rings == s.rings && t.orphans == s.orphans
    ensures OrphansOk(t)
  {
  }

  lemma SpentIsClean(r: Ring, u: Use, b: nat)
    requires r.Valid() && ActiveOk(r, u, b) && u.gen == r.gens
    requires |r.log| == |r.hist| || |r.hist| <= u.first
    ensures Clean(r, b)
  {
  }

  /** The command's own test is enough: a drained or withdrawn ring no longer names the buffer. */
  lemma MayFreeIsClean(s: System, b: nat, i: nat)
    requires Inv(s) && b in s.uses && MayFree(s, b) && i < |s.rings|
    ensures Clean(s.rings[i], b)
  {
    if i in s.uses[b] {
      assert ActiveOk(s.rings[i], s.uses[b][i], b);
      Distances(s.rings[i]);
      SpentIsClean(s.rings[i], s.uses[b][i], b);
    }
  }

  lemma GiveUpKeepsInv(s: System, b: nat, t: System)
    requires Inv(s) && b in s.uses
    requires t == s.(uses := s.uses - {b}, freed := t.freed, leaked := t.leaked)
    requires (t.freed == s.freed + {b} && t.leaked == s.leaked
              && forall i :: 0 <= i < |s.rings| ==> Clean(s.rings[i], b))
          || (t.freed == s.freed && t.leaked == s.leaked + {b})
    ensures Inv(t)
  {
    forall x: nat ensures Known(t, x) <==> x < t.next { assert Known(s, x) <==> x < s.next; }
    OrphansCarryOver(s, t);
  }

  lemma FreeKeepsInv(s: System, b: nat)
    requires Inv(s) && Allowed(s, HostFree(b))
    ensures Inv(Step(s, HostFree(b)))
  {
    forall i | 0 <= i < |s.rings| ensures Clean(s.rings[i], b) { MayFreeIsClean(s, b, i); }
    GiveUpKeepsInv(s, b, Step(s, HostFree(b)));
  }

  // ---------- parking ----------

  lemma RaisedMoves(r: Ring)
    requires r.Valid()
    ensures Moves(r, r.(floor := |r.hist|)) && r.(floor := |r.hist|).Valid()
  {
  }

  lemma {:induction false} RaiseKeepsInv(s: System, on: seq<Named>, upto: nat)
    requires Inv(s) && upto <= |s.rings|
    ensures Inv(s.(rings := RaiseFloor(s.rings, on)[..upto] + s.rings[upto..]))
    decreases upto
  {
    var raised := RaiseFloor(s.rings, on);
    var t := s.(rings := raised[..upto] + s.rings[upto..]);
    if upto == 0 {
      assert t == s;
    } else {
      var u := s.(rings := raised[..upto - 1] + s.rings[upto - 1..]);
      RaiseKeepsInv(s, on, upto - 1);
      RaisedMoves(u.rings[upto - 1]);
      if raised[upto - 1] != s.rings[upto - 1] {
        MoveKeepsInv(u, upto - 1, raised[upto - 1]);
        assert t.rings == SetRing(u, upto - 1, raised[upto - 1]).rings;
      } else {
        assert t.rings == u.rings;
      }
    }
  }

  lemma NewRefOk(s: System, b: nat, n: Named, raised: seq<Ring>)
    requires Inv(s) && b in s.uses && n.OnRing? && n.ring < |s.rings| == |raised|
    requires n.gen == U32(ParkGen(s, b, n.ring)) && s.rings[n.ring].gens < ParkGen(s, b, n.ring) + TWO_TO_THE_32
    requires raised[n.ring] == s.rings[n.ring].(floor := |s.rings[n.ring].hist|)
    ensures RefOk(raised[n.ring], ParkRef(s, b, n))
  {
  }

  lemma ParkedIsCovered(s: System, b: nat, size: nat, on: seq<Named>, i: nat)
    requires Inv(s) && Allowed(s, HostPark(b, size, on)) && i < |s.rings|
    ensures var t := Step(s, HostPark(b, size, on)); Covered(t.rings[i], i, t.orphans[|s.orphans|])
  {
    var t := Step(s, HostPark(b, size, on));
    var r, o := s.rings[i], t.orphans[|s.orphans|];
    forall p: nat, e | t.rings[i].Hot(p, e) && Names(e, b)
      ensures exists j :: 0 <= j < |o.refs| && Covers(t.rings[i], i, o.refs[j], p)
    {
      assert r.Hot(p, e);
      assert i in s.uses[b];
      assert ActiveOk(r, s.uses[b][i], b);
      var j :| 0 <= j < |on| && on[j].OnRing? && on[j].ring == i;
      if (p, e) in r.fetched { assert (p, e).0 >= |r.log|; }
      assert Covers(t.rings[i], i, o.refs[j], p);
    }
  }

  lemma ParkKeepsElsewhere(u: System, t: System, b: nat)
    requires RingsOk(u) && UseRings(u) && UsesOk(u) && OthersClean(u)
    requires t.rings == u.rings && t.uses == u.uses - {b} && t.freed == u.freed && t.next == u.next
    ensures UseRings(t) && UsesOk(t) && OthersClean(t)
  {
  }

  lemma ParkKeepsInv(s: System, b: nat, size: nat, on: seq<Named>)
    requires Inv(s) && Allowed(s, HostPark(b, size, on))
    ensures Inv(Step(s, HostPark(b, size, on)))
  {
    hide UseRings, UsesOk, OthersClean, OrphansOk, OneFate, ParkedSet;
    var t := Step(s, HostPark(b, size, on));
    var u := s.(rings := t.rings);
    assert RaiseFloor(s.rings, on)[..|s.rings|] + s.rings[|s.rings|..] == t.rings;
    RaiseKeepsInv(s, on, |s.rings|);
    ParkBooks(s.orphans, t.orphans[|s.orphans|]);
    ParkKeepsOrphans(s, b, size, on, u, t);
    ParkKeepsElsewhere(u, t, b);
    ParkKeepsFates(s, b, t);
  }

  lemma ParkKeepsOrphans(s: System, b: nat, size: nat, on: seq<Named>, u: System, t: System)
    requires Inv(s) && Allowed(s, HostPark(b, size, on)) && t == Step(s, HostPark(b, size, on))
    requires u == s.(rings := t.rings) && RingsOk(u) && OrphansOk(u)
    ensures RingsOk(t) && OrphansOk(t)
  {
    var o := t.orphans[|s.orphans|];
    forall k | 0 <= k < |t.orphans| ensures RefsOk(t.rings, t.orphans[k]) {
      if k < |s.orphans| {
        assert RefsOk(u.rings, u.orphans[k]);
      } else {
        forall j | 0 <= j < |o.refs| && o.refs[j].Ref?
          ensures o.refs[j].ring < |t.rings| && RefOk(t.rings[o.refs[j].ring], o.refs[j])
        {
          NewRefOk(s, b, on[j], t.rings);
        }
      }
    }
    forall k, i | 0 <= k < |t.orphans| && 0 <= i < |t.rings| ensures Covered(t.rings[i], i, t.orphans[k]) {
      if k < |s.orphans| {
        assert Covered(u.rings[i], i, u.orphans[k]);
      } else {
        ParkedIsCovered(s, b, size, on, i);
      }
    }
  }

  lemma ParkKeepsFates(s: System, b: nat, t: System)
    requires OneFate(s) && b in s.uses && |t.orphans| == |s.orphans| + 1
    requires t.uses == s.uses - {b} && t.freed == s.freed && t.leaked == s.leaked && t.next == s.next
    requires t.orphans[..|s.orphans|] == s.orphans && t.orphans[|s.orphans|].buf == b
    requires ParkedSet(t.orphans) == ParkedSet(s.orphans) + {b}
    ensures OneFate(t)
  {
    forall x: nat ensures Known(t, x) <==> x < t.next { assert Known(s, x) <==> x < s.next; }
    forall k | 0 <= k < |s.orphans| ensures t.orphans[k].buf != b {
      assert t.orphans[k] == t.orphans[..|s.orphans|][k];
      assert s.orphans[k].buf in ParkedSet(s.orphans);
    }
    forall j, k | 0 <= j < k < |t.orphans| ensures t.orphans[j].buf != t.orphans[k].buf {
      assert t.orphans[j] == t.orphans[..|s.orphans|][j];
      if k < |s.orphans| { assert t.orphans[k] == t.orphans[..|s.orphans|][k]; }
    }
  }

  lemma {:induction false} ParkBooks(os: seq<Orphan>, o: Orphan)
    ensures TotalSize(os + [o]) == TotalSize(os) + o.size
    ensures ParkedSet(os + [o]) == ParkedSet(os) + {o.buf}
  {
    var all := os + [o];
    forall x | x in ParkedSet(os) + {o.buf} ensures x in ParkedSet(all) {
      if x == o.buf {
        assert o in all;
      } else {
        var y :| y in os && y.buf == x;
        assert y in all;
      }
    }
    if os == [] {
      assert all == [o] && all[1..] == [];
    } else {
      assert all[1..] == os[1..] + [o];
      ParkBooks(os[1..], o);
    }
  }

  // ---------- reclaiming ----------

  lemma CheckRefKeepsInv(s: System, k: nat, j: nat)
    requires Inv(s) && Allowed(s, HostCheckRef(k, j))
    ensures Inv(Step(s, HostCheckRef(k, j)))
  {
    var o := s.orphans[k];
    var i := o.refs[j].ring;
    var r := UpdatePos(s.rings[i]);
    var s1 := SetRing(s, i, r);
    UpdatePosMoves(s.rings[i]);
    UpdatePosValid(s.rings[i]);
    MoveKeepsInv(s, i, r);
    if RefTest(r, o.refs[j]) {
      assert RefsOk(s1.rings, s1.orphans[k]);
      ConsumedTestIsSound(r, o.refs[j]);
      SettleKeepsInv(s1, k, j);
    }
  }

  lemma SettleKeepsInv(s: System, k: nat, j: nat)
    requires Inv(s) && Allowed(s, HostCheckRef(k, j))
    requires var ref := s.orphans[k].refs[j];
             !Stale(s.rings[ref.ring], ref) && |s.rings[ref.ring].log| >= ref.absEnd
    ensures var o := s.orphans[k]; Inv(s.(orphans := s.orphans[k := o.(refs := o.refs[j := NoRing])]))
  {
    var o := s.orphans[k];
    var o' := o.(refs := o.refs[j := NoRing]);
    var t := s.(orphans := s.orphans[k := o']);
    SettleKeepsOrphans(s, k, j, t);
    SameSizes(s.orphans, t.orphans);
    UpdateParked(s.orphans, k, o');
    SameFates(s, t);
    SameElsewhere(s, t);
  }

  lemma SettleKeepsOrphans(s: System, k: nat, j: nat, t: System)
    requires RingsOk(s) && OrphansOk(s) && Allowed(s, HostCheckRef(k, j))
    requires var ref := s.orphans[k].refs[j];
             !Stale(s.rings[ref.ring], ref) && |s.rings[ref.ring].log| >= ref.absEnd
    requires t.rings == s.rings
    requires var o := s.orphans[k]; t.orphans == s.orphans[k := o.(refs := o.refs[j := NoRing])]
    ensures OrphansOk(t)
  {
    var o, o' := s.orphans[k], t.orphans[k];
    assert RefsOk(s.rings, o);
    forall h | 0 <= h < |t.orphans| ensures RefsOk(t.rings, t.orphans[h]) {
      assert RefsOk(s.rings, s.orphans[h]);
    }
    forall h, i | 0 <= h < |t.orphans| && 0 <= i < |t.rings| ensures Covered(t.rings[i], i, t.orphans[h]) {
      assert Covered(s.rings[i], i, s.orphans[h]);
      if h == k {
        forall p, e | t.rings[i].Hot(p, e) && Names(e, o'.buf)
          ensures exists l :: 0 <= l < |o'.refs| && Covers(t.rings[i], i, o'.refs[l], p)
        {
          var l :| 0 <= l < |o.refs| && Covers(s.rings[i], i, o.refs[l], p);
          assert l != j;
          assert Covers(t.rings[i], i, o'.refs[l], p);
        }
      }
    }
  }

  lemma UpdateParked(os: seq<Orphan>, k: nat, o: Orphan)
    requires k < |os| && o.buf == os[k].buf
    ensures ParkedSet(os[k := o]) == ParkedSet(os)
  {
    var os' := os[k := o];
    forall x | x in ParkedSet(os) ensures x in ParkedSet(os') {
      var h :| 0 <= h < |os| && os[h].buf == x;
      assert os'[h] in os';
    }
    forall x | x in ParkedSet(os') ensures x in ParkedSet(os) {
      var h :| 0 <= h < |os'| && os'[h].buf == x;
      assert os[h] in os;
    }
  }

  lemma SettledIsClean(s: System, k: nat, i: nat)
    requires Inv(s) && k < |s.orphans| && AllSettled(s.orphans[k]) && i < |s.rings|
    ensures Clean(s.rings[i], s.orphans[k].buf)
  {
  }

  lemma {:induction false} WithoutSize(os: seq<Orphan>, k: nat)
    requires k < |os|
    ensures TotalSize(os) == TotalSize(Without(os, k)) + os[k].size
  {
    if k == 0 {
      assert Without(os, 0) == os[1..];
    } else {
      assert Without(os, k)[0] == os[0] && Without(os, k)[1..] == Without(os[1..], k - 1);
      WithoutSize(os[1..], k - 1);
    }
  }

  lemma WithoutParked(os: seq<Orphan>, k: nat)
    requires k < |os| && Distinct(os)
    ensures ParkedSet(Without(os, k)) == ParkedSet(os) - {os[k].buf} && os[k].buf in ParkedSet(os)
    ensures Distinct(Without(os, k))
  {
  }

  lemma ReclaimKeepsInv(s: System, k: nat)
    requires Inv(s) && Allowed(s, HostReclaim(k))
    ensures Inv(Step(s, HostReclaim(k)))
  {
    var t, b := Step(s, HostReclaim(k)), s.orphans[k].buf;
    WithoutSize(s.orphans, k);
    WithoutParked(s.orphans, k);
    forall i | 0 <= i < |s.rings| ensures Clean(s.rings[i], b) { SettledIsClean(s, k, i); }
    ReclaimKeepsOrphans(s, k, t);
    forall x: nat ensures Known(t, x) <==> x < t.next { assert Known(s, x) <==> x < s.next; }
  }

  lemma ReclaimKeepsOrphans(s: System, k: nat, t: System)
    requires RingsOk(s) && OrphansOk(s) && k < |s.orphans|
    requires t.rings == s.rings && t.orphans == Without(s.orphans, k)
    ensures OrphansOk(t)
  {
  }

  lemma TeardownKeepsInv(s: System, quiet: bool)
    requires Inv(s) && Allowed(s, HostTeardown(quiet))
    ensures Inv(Step(s, HostTeardown(quiet)))
  {
    var t := Step(s, HostTeardown(quiet));
    forall b, i | b in t.freed && 0 <= i < |t.rings| ensures Clean(t.rings[i], b) {
      if b !in s.freed {
        if quiet {
          forall p, e | s.rings[i].Hot(p, e) ensures !Names(e, b) {}
        } else {
          var o :| o in s.orphans && o.buf == b;
          var k :| 0 <= k < |s.orphans| && s.orphans[k] == o;
          SettledIsClean(s, k, i);
        }
      }
    }
    assert Unsettled(s.orphans) <= ParkedSet(s.orphans);
    forall x: nat ensures Known(t, x) <==> x < t.next { assert Known(s, x) <==> x < s.next; }
  }

  // ---------- the theorem ----------

  lemma StopResyncs(r: Ring)
    requires r.Valid() && r.Idle()
    ensures Resyncs(r, ResyncGen(r, r.position)) && ResyncGen(r, r.position).Valid()
  {
    ResyncValid(r);
  }

  lemma WriteMoves(r: Ring)
    requires r.Valid()
    ensures Moves(r, WriteDoorbell(r, r.position)) && WriteDoorbell(r, r.position).Valid()
    ensures WriteDoorbell(r, r.position).Idle()
  {
    ResyncWrite(r, |r.log|);
  }

  lemma ClearMoves(r: Ring, zero: Entry)
    requires r.Valid() && |r.log| == |r.hist|
    ensures Moves(r, Clear(r, zero)) && Clear(r, zero).Valid()
  {
  }

  /** The accesses of a resync, none of which finds the device past the POSITION it writes. */
  lemma ResyncStepKeepsInv(s: System, op: SysOp)
    requires Inv(s) && PassOk(s) && Allowed(s, op) && InStep(s, op)
    requires op.HostRead? || op.HostWrite? || op.HostCompare? || op.HostResync? || op.HostClear?
    ensures Inv(Step(s, op)) && PassOk(Step(s, op))
  {
    hide UsesOk, OrphansOk, OthersClean, OneFate;
    match op
    case HostRead(i) => PassKeepsInv(s, Step(s, op));
    case HostCompare => PassKeepsInv(s, Step(s, op));
    case HostWrite =>
      var r := s.rings[s.pass.ring];
      WriteMoves(r);
      MoveKeepsInv(s, s.pass.ring, WriteDoorbell(r, r.position));
      PassKeepsInv(SetRing(s, s.pass.ring, WriteDoorbell(r, r.position)), Step(s, op));
    case HostResync(_) =>
      var r := s.rings[s.pass.ring];
      StopResyncs(r);
      ResyncKeepsInv(s, s.pass.ring, ResyncGen(r, r.position));
      PassKeepsInv(Step(s, op).(pass := s.pass), Step(s, op));
    case HostClear(zero) =>
      var r := s.rings[s.pass.ring];
      ClearMoves(r, zero);
      MoveKeepsInv(s, s.pass.ring, Clear(r, zero));
      PassKeepsInv(SetRing(s, s.pass.ring, Clear(r, zero)), Step(s, op));
  }

  lemma PassKeepsInv(s: System, t: System)
    requires Inv(s) && t == s.(pass := t.pass)
    ensures Inv(t)
  {
    forall b: nat ensures Known(t, b) <==> b < t.next { assert Known(s, b) <==> b < s.next; }
    OrphansCarryOver(s, t);
  }

  /** An idle ring's device stands still; elsewhere only the consumer counter grows. */
  lemma DeviceKeepsPass(s: System, i: nat, r': Ring)
    requires RingsOk(s) && PassOk(s) && i < |s.rings| && r'.Valid()
    requires var r := s.rings[i];
             && r' == r.(log := r'.log, position := r'.position, fetched := r'.fetched) && |r.log| <= |r'.log|
             && (r.Idle() ==> r'.log == r.log && r'.position == r.position)
    ensures RingsOk(SetRing(s, i, r')) && PassOk(SetRing(s, i, r'))
  {
    var r := s.rings[i];
    assert r.Valid() && (|r.log| == |r.hist| ==> r.Idle());
  }

  /** Steps of the device, of polling and of queueing. */
  lemma RingStepKeepsInv(s: System, op: SysOp)
    requires Inv(s) && PassOk(s) && Allowed(s, op)
    requires op.DevFetch? || op.DevConsume? || op.HostUpdatePos? || op.HostPut? || op.HostDoorbell? || op.HostUnwind?
    ensures Inv(Step(s, op)) && PassOk(Step(s, op))
  {
    match op
    case DevFetch(i, p) =>
      FetchMoves(s.rings[i], p);
      MoveKeepsInv(s, i, Fetch(s.rings[i], p));
      DeviceKeepsPass(s, i, Fetch(s.rings[i], p));
    case DevConsume(i, e) =>
      ConsumeMoves(s.rings[i], e);
      MoveKeepsInv(s, i, Consume(s.rings[i], e));
      DeviceKeepsPass(s, i, Consume(s.rings[i], e));
    case HostUpdatePos(i) => UpdatePosMoves(s.rings[i]); MoveKeepsInv(s, i, UpdatePos(s.rings[i]));
    case HostPut(i, e) => PutKeepsInv(s, i, e);
    case HostDoorbell(i) => DoorbellMoves(s.rings[i]); MoveKeepsInv(s, i, RingDoorbell(s.rings[i]));
    case HostUnwind(i, start) => UnwindMoves(s.rings[i], start); MoveKeepsInv(s, i, Unwind(s.rings[i], start));
  }

  /** Steps that park, free, leak or allocate. */
  lemma BufferStepKeepsInv(s: System, op: SysOp)
    requires Inv(s) && Allowed(s, op)
    requires op.HostAlloc? || op.HostFree? || op.HostFreeAnswered? || op.HostLeak? || op.HostPark? || op.HostCheckRef?
             || op.HostReclaim? || op.HostTeardown?
    ensures Inv(Step(s, op)) && Step(s, op).pass.NoPass?
  {
    hide UsesOk, OrphansOk, OthersClean, OneFate;
    match op
    case HostAlloc => AllocKeepsInv(s);
    case HostFree(b) => FreeKeepsInv(s, b);
    case HostFreeAnswered(b) => GiveUpKeepsInv(s, b, Step(s, op));
    case HostLeak(b) => GiveUpKeepsInv(s, b, Step(s, op));
    case HostPark(b, size, on) => ParkKeepsInv(s, b, size, on);
    case HostCheckRef(k, j) => CheckRefKeepsInv(s, k, j);
    case HostReclaim(k) => ReclaimKeepsInv(s, k);
    case HostTeardown(quiet) => TeardownKeepsInv(s, quiet);
  }

  /** Every step keeps the invariant, as long as no resync writes DOORBELL behind the device. */
  lemma StepKeepsInv(s: System, op: SysOp)
    requires Inv(s) && PassOk(s) && Allowed(s, op) && InStep(s, op)
    ensures Inv(Step(s, op)) && PassOk(Step(s, op))
  {
    hide Step, Allowed, InStep, UsesOk, OrphansOk, OthersClean, OneFate;
    if op.HostRead? || op.HostWrite? || op.HostCompare? || op.HostResync? || op.HostClear? {
      ResyncStepKeepsInv(s, op);
    } else if op.DevFetch? || op.DevConsume? || op.HostUpdatePos? || op.HostPut? || op.HostDoorbell? || op.HostUnwind? {
      RingStepKeepsInv(s, op);
    } else {
      BufferStepKeepsInv(s, op);
    }
  }

  ghost predicate StepsTo(s: System, op: SysOp, t: System) {
    Shaped(s) && Allowed(s, op) && t == Step(s, op)
  }

  /** A run of any length, host and device steps in any order. */
  ghost predicate IsRun(run: seq<System>, ops: seq<SysOp>) {
    && |run| == |ops| + 1
    && forall k {:trigger ops[k]} :: 0 <= k < |ops| ==> StepsTo(run[k], ops[k], run[k + 1])
  }

  /** The first n steps keep in step with the device at every DOORBELL write of a resync. */
  ghost predicate KeepsStep(run: seq<System>, ops: seq<SysOp>, n: nat)
    requires n <= |ops| < |run|
  {
    forall k {:trigger ops[k]} :: 0 <= k < n ==> InStep(run[k], ops[k])
  }

  /** Step k of two runs laid end to end. */
  lemma JoinedAt(r1: seq<System>, o1: seq<SysOp>, r2: seq<System>, o2: seq<SysOp>, k: nat)
    requires |r1| == |o1| + 1 && |r2| == |o2| + 1 && r1[|o1|] == r2[0] && k < |o1| + |o2|
    ensures var run, ops, m := r1 + r2[1..], o1 + o2, k - |o1|;
            if m < 0 then ops[k] == o1[k] && run[k] == r1[k] && run[k + 1] == r1[k + 1]
            else ops[k] == o2[m] && run[k] == r2[m] && run[k + 1] == r2[m + 1]
  {
  }

  lemma Joined(r1: seq<System>, o1: seq<SysOp>, r2: seq<System>, o2: seq<SysOp>)
    requires IsRun(r1, o1) && IsRun(r2, o2) && r1[|o1|] == r2[0]
    ensures IsRun(r1 + r2[1..], o1 + o2) && (r1 + r2[1..])[0] == r1[0] && (r1 + r2[1..])[|o1 + o2|] == r2[|o2|]
  {
    hide StepsTo;
    var run, ops := r1 + r2[1..], o1 + o2;
    forall k | 0 <= k < |ops| ensures StepsTo(run[k], ops[k], run[k + 1]) {
      JoinedAt(r1, o1, r2, o2, k);
    }
  }

  lemma JoinedKeepsStep(r1: seq<System>, o1: seq<SysOp>, r2: seq<System>, o2: seq<SysOp>)
    requires IsRun(r1, o1) && IsRun(r2, o2) && r1[|o1|] == r2[0]
    requires KeepsStep(r1, o1, |o1|) && KeepsStep(r2, o2, |o2|)
    ensures |r1 + r2[1..]| == |o1 + o2| + 1 && KeepsStep(r1 + r2[1..], o1 + o2, |o1 + o2|)
  {
    hide StepsTo, InStep;
    var run, ops := r1 + r2[1..], o1 + o2;
    forall k | 0 <= k < |ops| ensures InStep(run[k], ops[k]) {
      JoinedAt(r1, o1, r2, o2, k);
    }
  }

  /** The driver at probe: rings idle, nothing allocated, nothing read ahead of POSITION. */
  ghost predicate Init(s: System) {
    && RingsOk(s) && s.pass == NoPass
    && s.orphans == [] && s.count == 0 && s.bytes == 0
    && s.uses == map[] && s.freed == {} && s.leaked == {} && s.next == 0
    && NothingHot(s)
  }

  /** DMA safety: in every state of every run in which no resync writes a DOORBELL value the device
      has left behind, no descriptor the device can still act on, queued, abandoned or already read,
      names a freed buffer; and the books always balance. */
  lemma {:induction false} DmaSafety(run: seq<System>, ops: seq<SysOp>, k: nat)
    requires IsRun(run, ops) && Init(run[0]) && k < |run| && KeepsStep(run, ops, k)
    ensures Safe(run[k]) && Inv(run[k]) && PassOk(run[k])
    decreases k
  {
    if k == 0 {
      var s := run[0];
      forall b: nat ensures Known(s, b) <==> b < s.next {}
    } else {
      DmaSafety(run, ops, k - 1);
      assert StepsTo(run[k - 1], ops[k - 1], run[k]) && InStep(run[k - 1], ops[k - 1]);
      StepKeepsInv(run[k - 1], ops[k - 1]);
    }
    InvIsSafe(run[k]);
  }

  lemma InvIsSafe(s: System)
    requires Inv(s)
    ensures Safe(s)
  {
  }

  // ---------- reachability, for the driver's methods ----------

  /** Some run from s to t keeps in step. */
  ghost predicate Reaches(s: System, t: System) {
    exists run, ops :: IsRun(run, ops) && KeepsStep(run, ops, |ops|) && run[0] == s && run[|ops|] == t
  }

  lemma ReachesRefl(s: System)
    ensures Reaches(s, s)
  {
    var run, ops: seq<SysOp> := [s], [];
    assert IsRun(run, ops) && KeepsStep(run, ops, 0);
  }

  lemma StepReaches(s: System, op: SysOp)
    requires Inv(s) && PassOk(s) && Allowed(s, op) && InStep(s, op)
    ensures Reaches(s, Step(s, op)) && Inv(Step(s, op)) && PassOk(Step(s, op))
  {
    StepKeepsInv(s, op);
    var run, ops := [s, Step(s, op)], [op];
    assert IsRun(run, ops) && KeepsStep(run, ops, 1);
  }

  lemma ReachesTrans(s: System, t: System, u: System)
    requires Reaches(s, t) && Reaches(t, u)
    ensures Reaches(s, u)
  {
    hide StepsTo, InStep;
    var r1, o1 :| IsRun(r1, o1) && KeepsStep(r1, o1, |o1|) && r1[0] == s && r1[|o1|] == t;
    var r2, o2 :| IsRun(r2, o2) && KeepsStep(r2, o2, |o2|) && r2[0] == t && r2[|o2|] == u;
    Joined(r1, o1, r2, o2);
    JoinedKeepsStep(r1, o1, r2, o2);
  }

  /** Some run leads from s to t, in step or not. */
  ghost predicate Arrives(s: System, t: System) {
    exists run, ops :: IsRun(run, ops) && run[0] == s && run[|ops|] == t
  }

  lemma StepArrives(s: System, t: System, op: SysOp)
    requires Arrives(s, t) && Shaped(t) && Allowed(t, op)
    ensures Arrives(s, Step(t, op))
  {
    var r1, o1 :| IsRun(r1, o1) && r1[0] == s && r1[|o1|] == t;
    assert StepsTo(t, op, Step(t, op));
    hide StepsTo, Step, Allowed;
    Joined(r1, o1, [t, Step(t, op)], [op]);
  }

  /** Every state so reached from a probe state is safe: the form the driver's methods use. */
  lemma ReachableIsSafe(s: System, t: System)
    requires Init(s) && Reaches(s, t)
    ensures Safe(t) && Inv(t) && PassOk(t)
  {
    var run, ops :| IsRun(run, ops) && KeepsStep(run, ops, |ops|) && run[0] == s && run[|ops|] == t;
    DmaSafety(run, ops, |ops|);
  }
}
