/** Bus coefficients: the host's cache, the DSP that hosts each bus, and what the DSPs hold once
    their rings have drained; with the replay that rebuilds a freshly loaded DSP.

    What each operation does when every ring accepts is a function; what it can do when a ring rejects
    an entry is a relation.  The driver's methods are tied to both, and the theorems are about runs of
    either kind. */
module BusCoefficients {

  const BUSES := 32
  const PARAMS := 7
  const SIDES := 2
  const CELLS := BUSES * PARAMS * SIDES
  const ENABLE_BUSES := 7

  /** ua_bus_coef_cell() */
  function CellOf(bus: nat, param: nat, side: nat): nat {
    (bus * PARAMS + param) * SIDES + side
  }

  function BusOf(cell: nat): nat { cell / (SIDES * PARAMS) }

  function ParamOf(cell: nat): nat { cell / SIDES % PARAMS }

  function SideOf(cell: nat): nat { cell % SIDES }

  lemma CellRoundTrip(bus: nat, param: nat, side: nat)
    requires param < PARAMS && side < SIDES
    ensures var cell := CellOf(bus, param, side);
            && BusOf(cell) == bus && ParamOf(cell) == param && SideOf(cell) == side
            && (bus < BUSES <==> cell < CELLS)
  {
  }

  lemma CellDecode(cell: nat)
    ensures CellOf(BusOf(cell), ParamOf(cell), SideOf(cell)) == cell && ParamOf(cell) < PARAMS && SideOf(cell) < SIDES
    ensures cell < CELLS ==> BusOf(cell) < BUSES
  {
  }

  /** Inline commands on a DSP's command ring. */
  datatype Cmd = Coef(bus: nat, param: nat, side: nat, value: nat) | Enable(bus: nat, on: bool)

  /** Coefficients a DSP holds after consuming these commands in order; absent means firmware's default. */
  function Coefs(cmds: seq<Cmd>): map<nat, nat> {
    if cmds == [] then map[]
    else
      var c, before := cmds[|cmds| - 1], Coefs(cmds[..|cmds| - 1]);
      if c.Coef? then before[CellOf(c.bus, c.param, c.side) := c.value] else before
  }

  /** Buses a DSP has switched off after consuming these commands; firmware starts with all on. */
  function Disabled(cmds: seq<Cmd>): set<nat> {
    if cmds == [] then {}
    else
      var c, before := cmds[|cmds| - 1], Disabled(cmds[..|cmds| - 1]);
      if c.Enable? then if c.on then before - {c.bus} else before + {c.bus} else before
  }

  datatype Status = Ok | NoDevice | BadValue | Full

  /** DSP d, once drained, holds v in this cell. */
  predicate Holds(sent: seq<seq<Cmd>>, d: nat, cell: nat, v: nat) {
    d < |sent| && cell in Coefs(sent[d]) && Coefs(sent[d])[cell] == v
  }

  /** DSP 0 and the bus's owner hold the last value set of this cell. */
  predicate CellAgrees(coef: map<nat, nat>, own: seq<nat>, sent: seq<seq<Cmd>>, cell: nat)
    requires cell in coef && BusOf(cell) < |own|
  {
    Holds(sent, 0, cell, coef[cell]) && Holds(sent, own[BusOf(cell)], cell, coef[cell])
  }

  /** ... of every cell ever set below n. */
  ghost predicate CellsAgree(coef: map<nat, nat>, own: seq<nat>, sent: seq<seq<Cmd>>, n: nat) {
    forall cell: nat | cell in coef && cell < n :: BusOf(cell) < |own| && CellAgrees(coef, own, sent, cell)
  }

  /** Buses known to be off are off on every DSP with rings, buses known to be on are on. */
  ghost predicate EnablesAgree(rs: seq<bool>, known: set<nat>, disabled: set<nat>, sent: seq<seq<Cmd>>)
    requires |rs| == |sent|
  {
    forall d: nat | d < |sent| && rs[d] :: Disabled(sent[d]) * known == disabled * known
  }

  /** The half of it a fresh DSP meets by itself: buses known to be on are on. */
  ghost predicate NoneOff(rs: seq<bool>, on: set<nat>, sent: seq<seq<Cmd>>)
    requires |rs| == |sent|
  {
    forall d: nat | d < |sent| && rs[d] :: Disabled(sent[d]) !! on
  }

  /** No DSP holds a value for a cell nobody set. */
  ghost predicate DefaultsKept(coef: map<nat, nat>, sent: seq<seq<Cmd>>) {
    forall d: nat, cell: nat | d < |sent| && cell in Coefs(sent[d]) :: cell in coef
  }

  /** This bus is switched on every DSP with rings as the cache says. */
  ghost predicate BusAgrees(rs: seq<bool>, disabled: set<nat>, sent: seq<seq<Cmd>>, b: nat)
    requires |rs| == |sent|
  {
    forall d: nat | d < |sent| && rs[d] :: b in Disabled(sent[d]) <==> b in disabled
  }

  /** No DSP with rings has this bus switched off. */
  ghost predicate OnEverywhere(rs: seq<bool>, sent: seq<seq<Cmd>>, b: nat)
    requires |rs| == |sent|
  {
    forall d: nat | d < |sent| && rs[d] :: b !in Disabled(sent[d])
  }

  function Append(sent: seq<seq<Cmd>>, d: nat, c: Cmd): seq<seq<Cmd>>
    requires d < |sent|
  {
    sent[d := sent[d] + [c]]
  }

  lemma AppendOne(cmds: seq<Cmd>, c: Cmd)
    ensures Coefs(cmds + [c]) == if c.Coef? then Coefs(cmds)[CellOf(c.bus, c.param, c.side) := c.value] else Coefs(cmds)
    ensures Disabled(cmds + [c]) ==
            if c.Enable? then if c.on then Disabled(cmds) - {c.bus} else Disabled(cmds) + {c.bus} else Disabled(cmds)
  {
  }

  // ---------- what each operation does when no ring rejects ----------

  datatype BusState = BusState(
    coef: map<nat, nat>,             // cells ever set, by index
    owner: seq<nat>,                 // hosting DSP of each bus, as recorded
    disabled: set<nat>,              // bus_disabled_mask
    known: set<nat>,                 // bus_enable_known
    pending: bool,                   // replay_pending
    sent: seq<seq<Cmd>>)             // accepted by each DSP's ring since its program was loaded

  /** `rs` says which DSPs have rings. */
  ghost predicate Shaped(rs: seq<bool>, s: BusState) {
    && |s.sent| == |rs| && |s.owner| == BUSES && 0 < |rs|
    && (forall cell <- s.coef :: cell < CELLS) && (forall b <- s.known :: b < ENABLE_BUSES) && s.disabled <= s.known
    && DefaultsKept(s.coef, s.sent)
  }

  /** ua_dsp_bus_owner() */
  function OwnerOf(rs: seq<bool>, owner: seq<nat>, bus: nat): (d: nat)
    requires bus < |owner|
    ensures d != 0 ==> d < |rs| && rs[d]
  {
    if owner[bus] >= |rs| || !rs[owner[bus]] then 0 else owner[bus]
  }

  function Owners(rs: seq<bool>, owner: seq<nat>): (own: seq<nat>)
    ensures |own| == |owner|
  {
    seq(|owner|, b requires 0 <= b < |owner| => OwnerOf(rs, owner, b))
  }

  /** The entry that carries what the cache holds of a cell. */
  function Cached(coef: map<nat, nat>, cell: nat): Cmd
    requires cell in coef
  {
    Coef(BusOf(cell), ParamOf(cell), SideOf(cell), coef[cell])
  }

  function SetStep(rs: seq<bool>, s: BusState, bus: nat, param: nat, side: nat, value: nat): BusState
    requires |s.sent| == |rs| && 0 < |rs| && bus < |s.owner|
  {
    var d, c := OwnerOf(rs, s.owner, bus), Coef(bus, param, side, value);
    var sent := Append(s.sent, d, c);
    s.(coef := s.coef[CellOf(bus, param, side) := value], sent := if d == 0 then sent else Append(sent, 0, c))
  }

  /** The cached cells from `from` up to `upto`, in index order, to one DSP. */
  function Resend(coef: map<nat, nat>, sent: seq<seq<Cmd>>, d: nat, from: nat, upto: nat): (t: seq<seq<Cmd>>)
    requires d < |sent| && from <= upto
    ensures |t| == |sent|
    decreases upto - from
  {
    if from == upto then sent
    else
      var before := Resend(coef, sent, d, from, upto - 1);
      if upto - 1 in coef then Append(before, d, Cached(coef, upto - 1)) else before
  }

  function MoveStep(rs: seq<bool>, s: BusState, bus: nat, dsp: nat): BusState
    requires |s.sent| == |rs| && 0 < |rs| && bus < |s.owner|
  {
    var t := s.(owner := s.owner[bus := dsp]);
    var d := OwnerOf(rs, t.owner, bus);
    if d == 0 then t else t.(sent := Resend(s.coef, s.sent, d, CellOf(bus, 0, 0), CellOf(bus, PARAMS, 0)))
  }

  /** One command to every DSP below n that has rings. */
  function Broadcast(rs: seq<bool>, sent: seq<seq<Cmd>>, c: Cmd, n: nat): (t: seq<seq<Cmd>>)
    requires |sent| == |rs|
    ensures |t| == |sent|
  {
    seq(|sent|, d requires 0 <= d < |sent| => if d < n && rs[d] then sent[d] + [c] else sent[d])
  }

  /** The cache already says so: a repeat is not sent. */
  predicate Repeat(s: BusState, bus: nat, on: bool) {
    bus in s.known && (on <==> bus !in s.disabled)
  }

  function SwitchStep(rs: seq<bool>, s: BusState, bus: nat, on: bool): BusState
    requires |s.sent| == |rs|
  {
    if Repeat(s, bus, on) || true !in rs then s
    else
      s.(sent := Broadcast(rs, s.sent, Enable(bus, on), |rs|), known := s.known + {bus},
         disabled := if on then s.disabled - {bus} else s.disabled + {bus})
  }

  /** A program load: DSP 0 alone starts over from firmware defaults, and a replay is owed. */
  function LoadStep(s: BusState): BusState
    requires 0 < |s.sent|
  {
    s.(sent := s.sent[0 := []], pending := true)
  }

  /** The buses of `off` below n, switched off again everywhere. */
  function OffAgain(rs: seq<bool>, sent: seq<seq<Cmd>>, off: set<nat>, n: nat): (t: seq<seq<Cmd>>)
    requires |sent| == |rs|
    ensures |t| == |sent|
  {
    if n == 0 then sent
    else
      var before := OffAgain(rs, sent, off, n - 1);
      if n - 1 in off then Broadcast(rs, before, Enable(n - 1, false), |rs|) else before
  }

  /** The cached cells below n, in index order, each to its owner and to DSP 0. */
  function SetAgain(coef: map<nat, nat>, own: seq<nat>, sent: seq<seq<Cmd>>, n: nat): (t: seq<seq<Cmd>>)
    requires 0 < |sent| && |own| == BUSES && n <= CELLS && forall b :: 0 <= b < BUSES ==> own[b] < |sent|
    ensures |t| == |sent|
  {
    if n == 0 then sent
    else
      var before, cell := SetAgain(coef, own, sent, n - 1), n - 1;
      if cell !in coef then before
      else
        CellDecode(cell);
        var d := own[BusOf(cell)];
        var once := Append(before, d, Cached(coef, cell));
        if d == 0 then once else Append(once, 0, Cached(coef, cell))
  }

  function Replayed(rs: seq<bool>, s: BusState): (t: seq<seq<Cmd>>)
    requires |s.sent| == |rs| && 0 < |rs| && |s.owner| == BUSES
    ensures |t| == |rs|
  {
    if s.coef == map[] && s.known * s.disabled == {} then s.sent
    else SetAgain(s.coef, Owners(rs, s.owner), OffAgain(rs, s.sent, s.known * s.disabled, ENABLE_BUSES), CELLS)
  }

  function ReplayStep(rs: seq<bool>, s: BusState): BusState
    requires |s.sent| == |rs| && 0 < |rs| && |s.owner| == BUSES
  {
    if s.pending then s.(pending := false, sent := Replayed(rs, s)) else s
  }

  // ---------- agreement ----------

  ghost predicate Agrees(rs: seq<bool>, s: BusState)
    requires |s.sent| == |rs|
  {
    CellsAgree(s.coef, Owners(rs, s.owner), s.sent, CELLS) && EnablesAgree(rs, s.known, s.disabled, s.sent)
  }

  /** The same commands but for coefficients: nothing is switched. */
  ghost predicate SameSwitches(s: seq<seq<Cmd>>, t: seq<seq<Cmd>>) {
    |t| == |s| && forall d :: 0 <= d < |s| ==> Disabled(t[d]) == Disabled(s[d])
  }

  ghost predicate SameCoefs(s: seq<seq<Cmd>>, t: seq<seq<Cmd>>) {
    |t| == |s| && forall d :: 0 <= d < |s| ==> Coefs(t[d]) == Coefs(s[d])
  }

  /** Whatever of the cache some DSP holds, it still holds. */
  ghost predicate StillHeld(coef: map<nat, nat>, s: seq<seq<Cmd>>, t: seq<seq<Cmd>>) {
    && |t| == |s| && (DefaultsKept(coef, s) ==> DefaultsKept(coef, t))
    && forall d: nat, x: nat | x in coef && Holds(s, d, x, coef[x]) :: Holds(t, d, x, coef[x])
  }

  lemma CachedSend(coef: map<nat, nat>, sent: seq<seq<Cmd>>, d: nat, cell: nat)
    requires d < |sent| && cell in coef
    ensures var t := Append(sent, d, Cached(coef, cell));
            Holds(t, d, cell, coef[cell]) && StillHeld(coef, sent, t) && SameSwitches(sent, t)
  {
    CellDecode(cell);
    AppendOne(sent[d], Cached(coef, cell));
  }

  lemma {:induction false} ResendHolds(coef: map<nat, nat>, sent: seq<seq<Cmd>>, d: nat, from: nat, upto: nat)
    requires d < |sent| && from <= upto
    ensures var t := Resend(coef, sent, d, from, upto);
            && StillHeld(coef, sent, t) && SameSwitches(sent, t)
            && forall x: nat | from <= x < upto && x in coef :: Holds(t, d, x, coef[x])
    decreases upto - from
  {
    if from < upto {
      ResendHolds(coef, sent, d, from, upto - 1);
      var before := Resend(coef, sent, d, from, upto - 1);
      if upto - 1 in coef { CachedSend(coef, before, d, upto - 1); }
    }
  }

  lemma StillHeldTrans(coef: map<nat, nat>, a: seq<seq<Cmd>>, b: seq<seq<Cmd>>, c: seq<seq<Cmd>>)
    requires StillHeld(coef, a, b) && StillHeld(coef, b, c)
    ensures StillHeld(coef, a, c)
  {
  }

  lemma {:induction false} SetAgainHolds(coef: map<nat, nat>, own: seq<nat>, sent: seq<seq<Cmd>>, n: nat)
    requires 0 < |sent| && |own| == BUSES && n <= CELLS && forall b :: 0 <= b < BUSES ==> own[b] < |sent|
    ensures var t := SetAgain(coef, own, sent, n);
            StillHeld(coef, sent, t) && SameSwitches(sent, t) && CellsAgree(coef, own, t, n)
  {
    hide Coefs, Disabled, Holds, BusOf, ParamOf, SideOf, StillHeld;
    if n == 0 {
      NothingSent(coef, sent);
    } else {
      var before, cell := SetAgain(coef, own, sent, n - 1), n - 1;
      SetAgainHolds(coef, own, sent, n - 1);
      if cell in coef {
        CellDecode(cell);
        var d := own[BusOf(cell)];
        var once := Append(before, d, Cached(coef, cell));
        CachedSend(coef, before, d, cell);
        CachedSend(coef, once, 0, cell);
        StillHeldTrans(coef, sent, before, once);
        StillHeldTrans(coef, sent, once, Append(once, 0, Cached(coef, cell)));
        OneMoreAgrees(coef, own, before, once, SetAgain(coef, own, sent, n), n);
      } else {
        SkipsCell(coef, own, before, n);
      }
    }
  }

  lemma NothingSent(coef: map<nat, nat>, sent: seq<seq<Cmd>>)
    ensures StillHeld(coef, sent, sent)
  {
  }

  lemma SkipsCell(coef: map<nat, nat>, own: seq<nat>, sent: seq<seq<Cmd>>, n: nat)
    requires n > 0 && CellsAgree(coef, own, sent, n - 1) && n - 1 !in coef
    ensures CellsAgree(coef, own, sent, n)
  {
  }

  lemma OneMoreAgrees(coef: map<nat, nat>, own: seq<nat>, a: seq<seq<Cmd>>, b: seq<seq<Cmd>>, c: seq<seq<Cmd>>, n: nat)
    requires 0 < n && CellsAgree(coef, own, a, n - 1) && StillHeld(coef, a, b) && (c == b || StillHeld(coef, b, c))
    requires n - 1 in coef && BusOf(n - 1) < |own| && Holds(b, own[BusOf(n - 1)], n - 1, coef[n - 1])
    requires Holds(c, 0, n - 1, coef[n - 1])
    ensures CellsAgree(coef, own, c, n)
  {
    forall x: nat | x in coef && x < n ensures BusOf(x) < |own| && CellAgrees(coef, own, c, x) {
      if x < n - 1 { assert CellAgrees(coef, own, a, x); }
    }
  }

  lemma BroadcastOneMore(rs: seq<bool>, sent: seq<seq<Cmd>>, c: Cmd, n: nat)
    requires |sent| == |rs|
    ensures Broadcast(rs, sent, c, 0) == sent
    ensures n < |rs| ==> Broadcast(rs, sent, c, n)[n] == sent[n]
    ensures n < |rs| ==>
              Broadcast(rs, sent, c, n + 1) ==
              if rs[n] then Append(Broadcast(rs, sent, c, n), n, c) else Broadcast(rs, sent, c, n)
  {
  }

  lemma BroadcastSwitches(rs: seq<bool>, sent: seq<seq<Cmd>>, bus: nat, on: bool)
    requires |sent| == |rs|
    ensures var t := Broadcast(rs, sent, Enable(bus, on), |rs|); Switched(rs, sent, t, bus, on) && SameCoefs(sent, t)
  {
    forall d | 0 <= d < |sent| && rs[d]
      ensures Disabled(sent[d] + [Enable(bus, on)]) ==
              if on then Disabled(sent[d]) - {bus} else Disabled(sent[d]) + {bus}
      ensures Coefs(sent[d] + [Enable(bus, on)]) == Coefs(sent[d])
    {
      AppendOne(sent[d], Enable(bus, on));
    }
  }

  /** This bus is as commanded wherever there are rings, and nothing else was switched. */
  ghost predicate Switched(rs: seq<bool>, s: seq<seq<Cmd>>, t: seq<seq<Cmd>>, bus: nat, on: bool) {
    |rs| == |s| == |t| && forall d: nat | d < |s| ::
      Disabled(t[d]) ==
      if !rs[d] then Disabled(s[d]) else if on then Disabled(s[d]) - {bus} else Disabled(s[d]) + {bus}
  }

  function Below(off: set<nat>, n: nat): set<nat> {
    set b <- off | b < n
  }

  lemma {:induction false} OffAgainSwitches(rs: seq<bool>, sent: seq<seq<Cmd>>, off: set<nat>, n: nat)
    requires |sent| == |rs|
    ensures var t := OffAgain(rs, sent, off, n);
            && SameCoefs(sent, t)
            && forall d: nat | d < |t| && rs[d] :: Disabled(t[d]) == Disabled(sent[d]) + Below(off, n)
  {
    hide Coefs, Disabled, Broadcast;
    if n == 0 {
      assert Below(off, 0) == {};
    } else {
      assert Below(off, n) == Below(off, n - 1) + if n - 1 in off then {n - 1} else {};
      OffAgainSwitches(rs, sent, off, n - 1);
      BroadcastSwitches(rs, OffAgain(rs, sent, off, n - 1), n - 1, false);
    }
  }

  /** A replay no ring rejects switches the known-off buses off, and nothing else. */
  lemma ReplaySwitches(rs: seq<bool>, s: BusState)
    requires Shaped(rs, s)
    ensures var t := Replayed(rs, s);
            && DefaultsKept(s.coef, t) && CellsAgree(s.coef, Owners(rs, s.owner), t, CELLS)
            && forall d: nat | d < |rs| && rs[d] :: Disabled(t[d]) == Disabled(s.sent[d]) + s.disabled
  {
    hide Coefs, Disabled, SetAgain, OffAgain, BusOf, Holds;
    assert s.known * s.disabled == s.disabled;
    if s.coef == map[] && s.disabled == {} {
    } else {
      var off := OffAgain(rs, s.sent, s.disabled, ENABLE_BUSES);
      OffAgainSwitches(rs, s.sent, s.disabled, ENABLE_BUSES);
      SetAgainHolds(s.coef, Owners(rs, s.owner), off, CELLS);
      KeepDefaults(s.coef, s.sent, off);
      assert Below(s.disabled, ENABLE_BUSES) == s.disabled;
    }
  }

  /** A replay no ring rejects restores every cell on DSP 0 and owner and switches the known-off buses
      off everywhere, whatever was missed before.  A bus agrees afterwards if and only if it is known
      off or no DSP had it off; the switches all agree if and only if no bus known on had been left
      off somewhere. */
  lemma ReplayRestores(rs: seq<bool>, s: BusState)
    requires Shaped(rs, s) && rs[0] && s.pending
    ensures var t := ReplayStep(rs, s);
            && Shaped(rs, t) && !t.pending && t.coef == s.coef && t.known == s.known && t.disabled == s.disabled
            && CellsAgree(t.coef, Owners(rs, t.owner), t.sent, CELLS)
            && (forall d: nat | d < |rs| && rs[d] :: s.disabled <= Disabled(t.sent[d]))
            && (forall b: nat ::
                  BusAgrees(rs, t.disabled, t.sent, b) <==> b in s.disabled || OnEverywhere(rs, s.sent, b))
            && (EnablesAgree(rs, t.known, t.disabled, t.sent) <==> NoneOff(rs, s.known - s.disabled, s.sent))
  {
    hide Disabled, Replayed, CellsAgree, DefaultsKept;
    var t := ReplayStep(rs, s);
    ReplaySwitches(rs, s);
    EnablesIff(rs, s, t.sent);
    forall b: nat
      ensures BusAgrees(rs, t.disabled, t.sent, b) <==> b in s.disabled || OnEverywhere(rs, s.sent, b)
    {
      BusIff(rs, s.disabled, s.sent, t.sent, b);
    }
  }

  lemma BusIff(rs: seq<bool>, disabled: set<nat>, s: seq<seq<Cmd>>, t: seq<seq<Cmd>>, b: nat)
    requires |s| == |t| == |rs|
    requires forall d: nat | d < |t| && rs[d] :: Disabled(t[d]) == Disabled(s[d]) + disabled
    ensures BusAgrees(rs, disabled, t, b) <==> b in disabled || OnEverywhere(rs, s, b)
  {
    hide Disabled;
    if d: nat :| d < |t| && rs[d] && b in Disabled(s[d]) {
      assert b in Disabled(t[d]);
    }
  }

  lemma KeepDefaults(coef: map<nat, nat>, s: seq<seq<Cmd>>, t: seq<seq<Cmd>>)
    requires DefaultsKept(coef, s) && SameCoefs(s, t)
    ensures DefaultsKept(coef, t)
  {
  }

  lemma EnablesIff(rs: seq<bool>, s: BusState, t: seq<seq<Cmd>>)
    requires |s.sent| == |t| == |rs| && s.disabled <= s.known
    requires forall d: nat | d < |t| && rs[d] :: Disabled(t[d]) == Disabled(s.sent[d]) + s.disabled
    ensures EnablesAgree(rs, s.known, s.disabled, t) <==> NoneOff(rs, s.known - s.disabled, s.sent)
  {
    hide Disabled;
    forall d: nat | d < |t| && rs[d]
      ensures Disabled(t[d]) * s.known == s.disabled * s.known <==> Disabled(s.sent[d]) !! s.known - s.disabled
    {
      SwitchAlgebra(Disabled(s.sent[d]), s.known, s.disabled);
    }
  }

  lemma SwitchAlgebra(off: set<nat>, known: set<nat>, disabled: set<nat>)
    requires disabled <= known
    ensures (off + disabled) * known == disabled * known <==> off !! known - disabled
  {
    if off !! known - disabled {
      forall b ensures b in (off + disabled) * known <==> b in disabled * known {}
    } else {
      var b :| b in off && b in known - disabled;
      assert b in (off + disabled) * known && b !in disabled * known;
    }
  }

  // ---------- runs in which no ring rejects an entry ----------

  datatype Op =
    | Set(bus: nat, param: nat, side: nat, value: nat)
    | Move(bus: nat, dsp: nat)
    | Switch(bus: nat, on: bool)
    | Load
    | Replay

  predicate Proper(rs: seq<bool>, op: Op) {
    match op
    case Set(bus, param, side, _) => bus < BUSES && param < PARAMS && side < SIDES
    case Move(bus, dsp) => bus < BUSES && dsp < |rs|
    case Switch(bus, _) => bus < ENABLE_BUSES
    case Load => true
    case Replay => true
  }

  function Step(rs: seq<bool>, s: BusState, op: Op): (t: BusState)
    requires |s.sent| == |rs| && 0 < |rs| && |s.owner| == BUSES && Proper(rs, op)
    ensures |t.sent| == |rs| && |t.owner| == BUSES
  {
    match op
    case Set(bus, param, side, value) => SetStep(rs, s, bus, param, side, value)
    case Move(bus, dsp) => MoveStep(rs, s, bus, dsp)
    case Switch(bus, on) => SwitchStep(rs, s, bus, on)
    case Load => LoadStep(s)
    case Replay => ReplayStep(rs, s)
  }

  /** Known-on buses are on everywhere; and unless a load awaits its replay, everything agrees. */
  ghost predicate Good(rs: seq<bool>, s: BusState) {
    Shaped(rs, s) && NoneOff(rs, s.known - s.disabled, s.sent) && (!s.pending ==> Agrees(rs, s))
  }

  lemma SetKeeps(rs: seq<bool>, s: BusState, bus: nat, param: nat, side: nat, value: nat)
    requires Shaped(rs, s) && bus < BUSES && param < PARAMS && side < SIDES
    ensures var t := SetStep(rs, s, bus, param, side, value);
            && Shaped(rs, t) && SameSwitches(s.sent, t.sent)
            && CellAgrees(t.coef, Owners(rs, t.owner), t.sent, CellOf(bus, param, side))
            && (CellsAgree(s.coef, Owners(rs, s.owner), s.sent, CELLS) ==>
                CellsAgree(t.coef, Owners(rs, t.owner), t.sent, CELLS))
  {
    hide Coefs, Disabled, Holds, DefaultsKept, CellsAgree, CellOf, BusOf, Owners, OthersHeld;
    var t, own, cell := SetStep(rs, s, bus, param, side, value), Owners(rs, s.owner), CellOf(bus, param, side);
    var c, d := Coef(bus, param, side, value), OwnerOf(rs, s.owner, bus);
    CellRoundTrip(bus, param, side);
    OwnerAt(rs, s.owner, bus);
    var once := Append(s.sent, d, c);
    NewValue(s.coef, s.sent, d, c);
    NewValue(t.coef, once, 0, c);
    assert t.coef[cell := value] == t.coef;
    OthersHeldTrans(s.sent, once, t.sent, cell);
    if CellsAgree(s.coef, own, s.sent, CELLS) { OthersAgree(s.coef, t.coef, own, s.sent, t.sent, cell); }
  }

  lemma OwnerAt(rs: seq<bool>, owner: seq<nat>, bus: nat)
    requires bus < |owner|
    ensures Owners(rs, owner)[bus] == OwnerOf(rs, owner, bus)
  {
  }

  /** Whatever a DSP holds of another cell, it still holds. */
  ghost predicate OthersHeld(s: seq<seq<Cmd>>, t: seq<seq<Cmd>>, cell: nat) {
    |t| == |s| && forall e: nat, x: nat, v: nat | x != cell && Holds(s, e, x, v) :: Holds(t, e, x, v)
  }

  lemma OthersHeldTrans(a: seq<seq<Cmd>>, b: seq<seq<Cmd>>, c: seq<seq<Cmd>>, cell: nat)
    requires OthersHeld(a, b, cell) && (c == b || OthersHeld(b, c, cell))
    ensures OthersHeld(a, c, cell)
  {
  }

  lemma OthersAgree(coef: map<nat, nat>, coef': map<nat, nat>, own: seq<nat>, s: seq<seq<Cmd>>, t: seq<seq<Cmd>>,
      cell: nat)
    requires CellsAgree(coef, own, s, CELLS) && OthersHeld(s, t, cell) && cell in coef' &&
             coef' == coef[cell := coef'[cell]]
    requires BusOf(cell) < |own| && CellAgrees(coef', own, t, cell)
    ensures CellsAgree(coef', own, t, CELLS)
  {
    hide Holds, BusOf;
    forall x: nat | x in coef' && x < CELLS ensures BusOf(x) < |own| && CellAgrees(coef', own, t, x) {
      if x != cell { assert CellAgrees(coef, own, s, x); }
    }
  }

  /** A new value for one cell on one DSP disturbs no other cell. */
  lemma NewValue(coef: map<nat, nat>, sent: seq<seq<Cmd>>, d: nat, c: Cmd)
    requires d < |sent| && c.Coef?
    ensures var t, cell := Append(sent, d, c), CellOf(c.bus, c.param, c.side);
            && SameSwitches(sent, t) && Holds(t, d, cell, c.value)
            && (DefaultsKept(coef, sent) ==> DefaultsKept(coef[cell := c.value], t))
            && (forall e: nat | Holds(sent, e, cell, c.value) :: Holds(t, e, cell, c.value))
            && OthersHeld(sent, t, cell)
  {
    hide Coefs, Disabled, CellOf;
    AppendOne(sent[d], c);
  }

  lemma MoveKeeps(rs: seq<bool>, s: BusState, bus: nat, dsp: nat)
    requires Shaped(rs, s) && bus < BUSES && dsp < |rs|
    ensures var t := MoveStep(rs, s, bus, dsp);
            && Shaped(rs, t) && SameSwitches(s.sent, t.sent)
            && (CellsAgree(s.coef, Owners(rs, s.owner), s.sent, CELLS) ==>
                CellsAgree(t.coef, Owners(rs, t.owner), t.sent, CELLS))
    ensures var t := MoveStep(rs, s, bus, dsp); var d := OwnerOf(rs, t.owner, bus);
            d != 0 ==> forall x: nat | x in s.coef && BusOf(x) == bus :: Holds(t.sent, d, x, s.coef[x])
  {
    var t := MoveStep(rs, s, bus, dsp);
    var d := OwnerOf(rs, t.owner, bus);
    if d != 0 { ResendHolds(s.coef, s.sent, d, CellOf(bus, 0, 0), CellOf(bus, PARAMS, 0)); }
    var own, own' := Owners(rs, s.owner), Owners(rs, t.owner);
    if CellsAgree(s.coef, own, s.sent, CELLS) {
      forall x: nat | x in t.coef && x < CELLS ensures BusOf(x) < |own'| && CellAgrees(t.coef, own', t.sent, x) {
        assert CellAgrees(s.coef, own, s.sent, x);
        if BusOf(x) != bus { assert own'[BusOf(x)] == own[BusOf(x)]; }
      }
    }
  }

  lemma SwitchKeeps(rs: seq<bool>, s: BusState, bus: nat, on: bool)
    requires Shaped(rs, s) && bus < ENABLE_BUSES
    ensures var t := SwitchStep(rs, s, bus, on);
            && Shaped(rs, t) && SameCoefs(s.sent, t.sent)
            && (NoneOff(rs, s.known - s.disabled, s.sent) ==> NoneOff(rs, t.known - t.disabled, t.sent))
            && (EnablesAgree(rs, s.known, s.disabled, s.sent) ==> EnablesAgree(rs, t.known, t.disabled, t.sent))
  {
    hide Coefs, Disabled, Broadcast;
    var t := SwitchStep(rs, s, bus, on);
    if !Repeat(s, bus, on) && true in rs {
      BroadcastSwitches(rs, s.sent, bus, on);
      KeepDefaults(s.coef, s.sent, t.sent);
      forall d: nat | d < |t.sent| && rs[d] && Disabled(s.sent[d]) * s.known == s.disabled * s.known
        ensures Disabled(t.sent[d]) * t.known == t.disabled * t.known
      {
        SwitchedOne(Disabled(s.sent[d]), s.known, s.disabled, bus, on);
      }
    }
  }

  lemma SwitchedOne(off: set<nat>, known: set<nat>, disabled: set<nat>, bus: nat, on: bool)
    requires off * known == disabled * known
    ensures (if on then off - {bus} else off + {bus}) * (known + {bus}) ==
            (if on then disabled - {bus} else disabled + {bus}) * (known + {bus})
  {
    forall b | b in known ensures b in off <==> b in disabled {
      assert b in off * known <==> b in disabled * known;
    }
  }

  lemma SameSwitchesKeep(rs: seq<bool>, s: BusState, t: BusState)
    requires |s.sent| == |rs| && SameSwitches(s.sent, t.sent) && t.known == s.known && t.disabled == s.disabled
    ensures NoneOff(rs, s.known - s.disabled, s.sent) ==> NoneOff(rs, t.known - t.disabled, t.sent)
    ensures EnablesAgree(rs, s.known, s.disabled, s.sent) ==> EnablesAgree(rs, t.known, t.disabled, t.sent)
  {
  }

  lemma SameCoefsKeep(coef: map<nat, nat>, own: seq<nat>, s: seq<seq<Cmd>>, t: seq<seq<Cmd>>)
    requires SameCoefs(s, t) && CellsAgree(coef, own, s, CELLS)
    ensures CellsAgree(coef, own, t, CELLS)
  {
    forall x: nat | x in coef && x < CELLS ensures BusOf(x) < |own| && CellAgrees(coef, own, t, x) {
      assert CellAgrees(coef, own, s, x);
    }
  }

  lemma StepKeepsGood(rs: seq<bool>, s: BusState, op: Op)
    requires 0 < |rs| && rs[0] && Good(rs, s) && Proper(rs, op)
    ensures Good(rs, Step(rs, s, op))
  {
    var t := Step(rs, s, op);
    match op
    case Set(bus, param, side, value) =>
      SetKeeps(rs, s, bus, param, side, value);
      SameSwitchesKeep(rs, s, t);
    case Move(bus, dsp) =>
      MoveKeeps(rs, s, bus, dsp);
      SameSwitchesKeep(rs, s, t);
    case Switch(bus, on) =>
      SwitchKeeps(rs, s, bus, on);
      if !s.pending { SameCoefsKeep(s.coef, Owners(rs, s.owner), s.sent, t.sent); }
    case Load =>
    case Replay =>
      if s.pending {
        ReplayRestores(rs, s);
        ReplayKeepsOn(rs, t);
      }
  }

  lemma ReplayKeepsOn(rs: seq<bool>, t: BusState)
    requires |t.sent| == |rs| && EnablesAgree(rs, t.known, t.disabled, t.sent)
    ensures NoneOff(rs, t.known - t.disabled, t.sent)
  {
    hide Disabled;
    forall d: nat | d < |t.sent| && rs[d] ensures Disabled(t.sent[d]) !! t.known - t.disabled {
      forall b | b in Disabled(t.sent[d]) && b in t.known - t.disabled ensures false {
        assert b in Disabled(t.sent[d]) * t.known;
      }
    }
  }

  function Run(rs: seq<bool>, s: BusState, ops: seq<Op>): (t: BusState)
    requires |s.sent| == |rs| && 0 < |rs| && |s.owner| == BUSES && forall op <- ops :: Proper(rs, op)
    ensures |t.sent| == |rs| && |t.owner| == BUSES
    decreases |ops|
  {
    if ops == [] then s else Run(rs, Step(rs, s, ops[0]), ops[1..])
  }

  /** The value last set of each cell. */
  function LastSet(coef: map<nat, nat>, ops: seq<Op>): map<nat, nat>
    decreases |ops|
  {
    if ops == [] then coef
    else
      var op := ops[0];
      LastSet(if op.Set? then coef[CellOf(op.bus, op.param, op.side) := op.value] else coef, ops[1..])
  }

  /** After any sequence of sets, moves, switches, loads and replays in which no ring rejects an entry:
      once no replay is owed, DSP 0 and each bus's present owner hold the last value set of every cell
      ever set, no DSP holds a value for any other, and every switch is where it was last put. */
  lemma {:induction false} RunsAgree(rs: seq<bool>, s: BusState, ops: seq<Op>)
    requires 0 < |rs| && rs[0] && Good(rs, s) && forall op <- ops :: Proper(rs, op)
    ensures var t := Run(rs, s, ops);
            && Good(rs, t) && t.coef == LastSet(s.coef, ops)
            && (!t.pending ==>
                  && CellsAgree(LastSet(s.coef, ops), Owners(rs, t.owner), t.sent, CELLS)
                  && DefaultsKept(LastSet(s.coef, ops), t.sent)
                  && EnablesAgree(rs, t.known, t.disabled, t.sent))
    decreases |ops|
  {
    if ops != [] {
      StepKeepsGood(rs, s, ops[0]);
      RunsAgree(rs, Step(rs, s, ops[0]), ops[1..]);
    }
  }

  // ---------- runs in which rings reject entries ----------

  /** One call of the driver, and whether it ended without an error. */
  datatype Attempt = Attempt(op: Op, ok: bool)

  /** Nothing is switched on, and nothing off but buses of `off`. */
  ghost predicate OnlyOff(s: seq<seq<Cmd>>, t: seq<seq<Cmd>>, off: set<nat>) {
    |t| == |s| && forall d :: 0 <= d < |s| ==> Disabled(s[d]) <= Disabled(t[d]) <= Disabled(s[d]) + off
  }

  /** What a call may leave behind when some ring rejected an entry of it. */
  ghost predicate Rejected(rs: seq<bool>, s: BusState, op: Op, t: BusState)
    requires |s.sent| == |rs|
  {
    match op
    case Set(bus, param, side, value) =>
      t == s.(coef := s.coef[CellOf(bus, param, side) := value], sent := t.sent) && SameSwitches(s.sent, t.sent)
    case Move(bus, dsp) =>
      bus < |s.owner| && t == s.(owner := s.owner[bus := dsp], sent := t.sent) && SameSwitches(s.sent, t.sent)
    case Switch(bus, on) =>
      !Repeat(s, bus, on) && t == s.(sent := t.sent) && Offered(rs, s.sent, t.sent, Enable(bus, on))
    case Load => false
    case Replay =>
      s.pending && t == s.(pending := false, sent := t.sent) && OnlyOff(s.sent, t.sent, s.disabled)
  }

  ghost predicate Outcome(rs: seq<bool>, s: BusState, a: Attempt, t: BusState) {
    && Shaped(rs, s) && Shaped(rs, t) && Proper(rs, a.op)
    && if a.ok then t == Step(rs, s, a.op) else Rejected(rs, s, a.op, t)
  }

  /** Any sequence of calls, with any outcomes. */
  ghost predicate Attempts(rs: seq<bool>, run: seq<BusState>, calls: seq<Attempt>) {
    && |run| == |calls| + 1
    && forall k {:trigger calls[k]} :: 0 <= k < |calls| ==> Outcome(rs, run[k], calls[k], run[k + 1])
  }

  predicate Switches(a: Attempt, b: nat) {
    a.op.Switch? && a.op.bus == b
  }

  /** A request for bus b that went out to every ring. */
  predicate Sends(s: BusState, a: Attempt, b: nat) {
    Switches(a, b) && a.ok && !Repeat(s, b, a.op.on)
  }

  /** Call m was a request for bus b that went out to every ring (m = 0: the start), and up to call n no
      request for it has ended in an error since. */
  ghost predicate NoErrorSince(run: seq<BusState>, calls: seq<Attempt>, b: nat, m: nat, n: nat)
    requires n <= |calls| < |run|
  {
    && m <= n && (m > 0 ==> Sends(run[m - 1], calls[m - 1], b))
    && forall k :: m <= k < n && Switches(calls[k], b) ==> calls[k].ok
  }

  /** Call m was a replay that a load had left owed and that ended without an error (m = 0: the start),
      and up to call n no program has been loaded since. */
  ghost predicate NoLoadSince(run: seq<BusState>, calls: seq<Attempt>, m: nat, n: nat)
    requires n <= |calls| < |run|
  {
    && m <= n && (m > 0 ==> calls[m - 1] == Attempt(Replay, true) && run[m - 1].pending)
    && forall k :: m <= k < n ==> !calls[k].op.Load?
  }

  lemma OfferSwitches(rs: seq<bool>, s: seq<seq<Cmd>>, t: seq<seq<Cmd>>, bus: nat, on: bool, d: nat)
    requires Offered(rs, s, t, Enable(bus, on)) && d < |s|
    ensures forall b: nat :: b != bus ==> (b in Disabled(t[d]) <==> b in Disabled(s[d]))
    ensures !rs[d] ==> t[d] == s[d]
    ensures t[d] != s[d] ==> (bus in Disabled(t[d]) <==> !on)
  {
    AppendOne(s[d], Enable(bus, on));
  }

  /** What one call can do to the switch of bus b on DSP d. */
  lemma SwitchAfter(rs: seq<bool>, s: BusState, a: Attempt, t: BusState, b: nat, d: nat)
    requires Outcome(rs, s, a, t) && rs[0] && d < |rs| && rs[d]
    ensures !Switches(a, b) ==> (b in t.known <==> b in s.known) && (b in t.disabled <==> b in s.disabled)
    ensures Sends(s, a, b) ==>
              b in t.known && (b in t.disabled <==> !a.op.on) && (b in Disabled(t.sent[d]) <==> !a.op.on)
    ensures Switches(a, b) && a.ok && !Sends(s, a, b) ==> t == s
    ensures !Switches(a, b) && (a.op.Load? ==> d != 0) && b !in s.disabled ==>
              (b in Disabled(t.sent[d]) <==> b in Disabled(s.sent[d]))
    ensures !Switches(a, b) && !a.op.Load? && b in Disabled(s.sent[d]) ==> b in Disabled(t.sent[d])
    ensures a.op.Load? ==> Disabled(t.sent[0]) == {}
  {
    hide Disabled, Broadcast, Replayed, DefaultsKept, CellsAgree;
    match a.op
    case Set(bus, param, side, value) => if a.ok { SetKeeps(rs, s, bus, param, side, value); }
    case Move(bus, dsp) => if a.ok { MoveKeeps(rs, s, bus, dsp); }
    case Switch(bus, on) =>
      if a.ok { BroadcastSwitches(rs, s.sent, bus, on); } else { OfferSwitches(rs, s.sent, t.sent, bus, on, d); }
    case Load => NothingOff();
    case Replay => if a.ok && s.pending { ReplaySwitches(rs, s); }
  }

  lemma NothingOff()
    ensures Disabled([]) == {}
  {
  }

  /** A bus known to be on is on everywhere, as long as no request for it has ended in an error since
      the last one that went out: whatever else was rejected, loaded or replayed. */
  lemma {:induction false} NotLeftOff(rs: seq<bool>, run: seq<BusState>, calls: seq<Attempt>, b: nat, m: nat, n: nat)
    requires Attempts(rs, run, calls) && 0 < |rs| && rs[0] && Good(rs, run[0])
    requires n <= |calls| && NoErrorSince(run, calls, b, m, n)
    ensures |run[n].sent| == |rs|
    ensures b in run[n].known - run[n].disabled ==> OnEverywhere(rs, run[n].sent, b)
    decreases n
  {
    hide Disabled, Outcome;
    if n == 0 {
      assert b in run[0].known - run[0].disabled ==> OnEverywhere(rs, run[0].sent, b);
    } else {
      var s, a, t := run[n - 1], calls[n - 1], run[n];
      assert Outcome(rs, s, a, t);
      if m < n { NotLeftOff(rs, run, calls, b, m, n - 1); }
      ShapedAfter(rs, s, a, t);
      if b in t.known - t.disabled {
        forall d: nat | d < |rs| && rs[d] ensures b !in Disabled(t.sent[d]) {
          SwitchAfter(rs, s, a, t, b, d);
        }
      }
    }
  }

  lemma ShapedAfter(rs: seq<bool>, s: BusState, a: Attempt, t: BusState)
    requires Outcome(rs, s, a, t)
    ensures Shaped(rs, s) && Shaped(rs, t)
  {
  }

  /** ... and every known switch is as the cache says on every DSP with rings, once each load has had
      its replay without an error. */
  lemma {:induction false} SwitchStands(rs: seq<bool>, run: seq<BusState>, calls: seq<Attempt>, b: nat, m: nat,
          l: nat, n: nat)
    requires Attempts(rs, run, calls) && 0 < |rs| && rs[0] && Good(rs, run[0]) && !run[0].pending
    requires n <= |calls| && NoErrorSince(run, calls, b, m, n) && NoLoadSince(run, calls, l, n)
    ensures |run[n].sent| == |rs|
    ensures b in run[n].known ==> BusAgrees(rs, run[n].disabled, run[n].sent, b)
    decreases n
  {
    hide Disabled, Outcome;
    if n == 0 {
      if b in run[0].known { EnabledBus(rs, run[0], b); }
    } else {
      var s, a, t := run[n - 1], calls[n - 1], run[n];
      assert Outcome(rs, s, a, t);
      ShapedAfter(rs, s, a, t);
      if m < n {
        NotLeftOff(rs, run, calls, b, m, n - 1);
        if l < n { SwitchStands(rs, run, calls, b, m, l, n - 1); }
      }
      if b in t.known { StandsAfter(rs, s, a, t, b, m == n, l == n); }
    }
  }

  lemma EnabledBus(rs: seq<bool>, s: BusState, b: nat)
    requires Shaped(rs, s) && EnablesAgree(rs, s.known, s.disabled, s.sent) && b in s.known
    ensures BusAgrees(rs, s.disabled, s.sent, b)
  {
    hide Disabled;
    forall d: nat | d < |rs| && rs[d] ensures b in Disabled(s.sent[d]) <==> b in s.disabled {
      assert b in Disabled(s.sent[d]) * s.known <==> b in s.disabled * s.known;
    }
  }

  /** One call keeps a bus agreeing; so it does afresh if it went out, or was a replay that found the
      bus not left off. */
  lemma StandsAfter(rs: seq<bool>, s: BusState, a: Attempt, t: BusState, b: nat, sends: bool, replays: bool)
    requires Outcome(rs, s, a, t) && rs[0] && (Switches(a, b) ==> a.ok) && b in t.known
    requires if sends then Sends(s, a, b)
             else (b in s.known - s.disabled ==> OnEverywhere(rs, s.sent, b))
                  && if replays then a == Attempt(Replay, true) && s.pending
                     else !a.op.Load? && (b in s.known ==> BusAgrees(rs, s.disabled, s.sent, b))
    ensures BusAgrees(rs, t.disabled, t.sent, b)
  {
    hide Disabled, Replayed, SwitchStep;
    if !sends && replays {
      ReplayRestores(rs, s);
    } else {
      forall d: nat | d < |rs| && rs[d] ensures b in Disabled(t.sent[d]) <==> b in t.disabled {
        SwitchAfter(rs, s, a, t, b, d);
      }
    }
  }

  /** The other way round: where a bus known to be on was left off, neither a load, a replay, a request to
      switch it on nor any other call reaches it; only a request to switch it off does. */
  lemma {:induction false} StaysLost(rs: seq<bool>, run: seq<BusState>, calls: seq<Attempt>, b: nat, d: nat, n: nat)
    requires Attempts(rs, run, calls) && 0 < |rs| && rs[0] && n <= |calls|
    requires 0 < d < |rs| && rs[d] && |run[0].sent| == |rs|
    requires b in run[0].known - run[0].disabled && b in Disabled(run[0].sent[d])
    requires forall k :: 0 <= k < n ==> !(Switches(calls[k], b) && !calls[k].op.on)
    ensures |run[n].sent| == |rs| && b in run[n].known - run[n].disabled && b in Disabled(run[n].sent[d])
    decreases n
  {
    hide Disabled, Outcome;
    if n > 0 {
      StaysLost(rs, run, calls, b, d, n - 1);
      var s, a, t := run[n - 1], calls[n - 1], run[n];
      assert Outcome(rs, s, a, t);
      ShapedAfter(rs, s, a, t);
      SwitchAfter(rs, s, a, t, b, d);
      if Switches(a, b) { RepeatsOn(rs, s, a, t); }
    }
  }

  /** A request to switch on a bus already known to be on sends nothing. */
  lemma RepeatsOn(rs: seq<bool>, s: BusState, a: Attempt, t: BusState)
    requires Outcome(rs, s, a, t) && a.op.Switch? && a.op.on && a.op.bus in s.known - s.disabled
    ensures t == s
  {
  }

  /** The driver as it starts. */
  function Fresh(rs: seq<bool>): BusState {
    BusState(map[], seq(BUSES, _ => 0), {}, {}, false, seq(|rs|, _ => []))
  }

  const ON3 := Enable(3, true)
  const OFF3 := Enable(3, false)

  /** Bus 3 known to be on; what the two DSPs were sent. */
  function KnownOn(sent0: seq<Cmd>, sent1: seq<Cmd>, pending: bool): BusState {
    BusState(map[], seq(BUSES, _ => 0), {}, {3}, pending, [sent0, sent1])
  }

  lemma SentToLost()
    ensures Coefs([]) == map[] && Coefs([ON3]) == map[] && Coefs([ON3, OFF3]) == map[]
    ensures Disabled([ON3, OFF3]) == {3}
  {
    AppendOne([], ON3);
    AppendOne([ON3], OFF3);
    assert [] + [ON3] == [ON3] && [ON3] + [OFF3] == [ON3, OFF3];
  }

  lemma SwitchesOnThenOff()
    ensures var rs := [true, true];
            && Outcome(rs, Fresh(rs), Attempt(Switch(3, true), true), KnownOn([ON3], [ON3], false))
            && Outcome(rs, KnownOn([ON3], [ON3], false), Attempt(Switch(3, false), false),
                   KnownOn([ON3], [ON3, OFF3], false))
  {
    hide Coefs, Disabled;
    SentToLost();
    var rs := [true, true];
    assert Fresh(rs).sent == [[], []] && [] + [ON3] == [ON3];
    assert SwitchStep(rs, Fresh(rs), 3, true).sent == [[ON3], [ON3]];
    assert [ON3] + [OFF3] == [ON3, OFF3];
  }

  lemma LoadsAndReplays()
    ensures var rs := [true, true];
            && Outcome(rs, KnownOn([ON3], [ON3, OFF3], false), Attempt(Load, true), KnownOn([], [ON3, OFF3], true))
            && Outcome(rs, KnownOn([], [ON3, OFF3], true), Attempt(Replay, true), KnownOn([], [ON3, OFF3], false))
            && Outcome(rs, KnownOn([], [ON3, OFF3], false), Attempt(Switch(3, true), true),
                   KnownOn([], [ON3, OFF3], false))
  {
    hide Coefs, Disabled;
    SentToLost();
    assert LoadStep(KnownOn([ON3], [ON3, OFF3], false)).sent == [[], [ON3, OFF3]];
  }

  /** A rejected request comes between: bus 3 is switched on everywhere, the request to switch it off
      is rejected by DSP 0 and taken by DSP 1, and from then on DSP 1 has it off while the cache says
      on, through a load, its replay and a request to switch the bus on. */
  lemma LostSwitch() returns (run: seq<BusState>, calls: seq<Attempt>)
    ensures var rs := [true, true];
            && Attempts(rs, run, calls) && run[0] == Fresh(rs)
            && calls == [Attempt(Switch(3, true), true), Attempt(Switch(3, false), false), Attempt(Load, true),
                         Attempt(Replay, true), Attempt(Switch(3, true), true)]
            && Shaped(rs, run[5]) && !run[5].pending && 3 in run[5].known - run[5].disabled
            && !BusAgrees(rs, run[5].disabled, run[5].sent, 3)
  {
    hide Coefs, Disabled;
    SentToLost();
    SwitchesOnThenOff();
    LoadsAndReplays();
    var lost := KnownOn([], [ON3, OFF3], false);
    assert 3 in Disabled(lost.sent[1]);
    ShapedAfter([true, true], lost, Attempt(Switch(3, true), true), lost);
    hide Outcome;
    run := [Fresh([true, true]), KnownOn([ON3], [ON3], false), KnownOn([ON3], [ON3, OFF3], false),
            KnownOn([], [ON3, OFF3], true), lost, lost];
    calls := [Attempt(Switch(3, true), true), Attempt(Switch(3, false), false), Attempt(Load, true),
              Attempt(Replay, true), Attempt(Switch(3, true), true)];
  }

  // ---------- the driver's code ----------

  class BusMixer {
    const hasRings: seq<bool>
    var coef: map<nat, nat>
    var owner: seq<nat>
    var disabled: set<nat>
    var known: set<nat>
    var pending: bool
    var sent: seq<seq<Cmd>>

    ghost function State(): BusState
      reads this
    {
      BusState(coef, owner, disabled, known, pending, sent)
    }

    ghost predicate Valid()
      reads this
    {
      Shaped(hasRings, State())
    }

    constructor (hasRings: seq<bool>)
      requires 0 < |hasRings|
      ensures Valid() && this.hasRings == hasRings && State() == Fresh(hasRings) && Good(hasRings, State())
    {
      this.hasRings := hasRings;
      coef, owner, disabled, known := map[], seq(BUSES, _ => 0), {}, {};
      pending, sent := false, seq(|hasRings|, _ => []);
    }

    /** One entry on DSP d's ring: accepted and rung, or rejected because the ring stayed full. */
    method Send(d: nat, c: Cmd) returns (st: Status)
      requires d < |sent| == |hasRings|
      modifies `sent
      ensures st == NoDevice <==> !hasRings[d]
      ensures sent == if st == Ok then old(Append(sent, d, c)) else old(sent)
      ensures st in {Ok, NoDevice, Full}
    {
      if !hasRings[d] { return NoDevice; }
      var full: bool := *;
      if full { return Full; }
      sent := sent[d := sent[d] + [c]];
      return Ok;
    }

    /** ua_dsp_set_bus_param_flags(), without the solo-mute sign: cached whatever the rings say,
        sent to the owner and, when that is another DSP, to DSP 0. */
    method SetParam(bus: nat, param: nat, side: nat, value: nat) returns (st: Status)
      requires Valid()
      modifies `coef, `sent
      ensures Valid()
      ensures st == NoDevice <==> !hasRings[0]
      ensures st == BadValue <==> hasRings[0] && (bus > 0x1f || param > 6 || side > 1)
      ensures st in {NoDevice, BadValue} ==> State() == old(State())
      ensures st !in {NoDevice, BadValue} ==> coef == old(coef)[CellOf(bus, param, side) := value]
      ensures st == Ok ==> State() == old(SetStep(hasRings, State(), bus, param, side, value))
      ensures st !in {NoDevice, BadValue} ==>
                Outcome(hasRings, old(State()), Attempt(Set(bus, param, side, value), st == Ok), State())
    {
      if !hasRings[0] { return NoDevice; }
      if bus > 0x1f || param > 6 || side > 1 { return BadValue; }
      CellRoundTrip(bus, param, side);
      var d, c := OwnerOf(hasRings, owner, bus), Coef(bus, param, side, value);
      coef := coef[CellOf(bus, param, side) := value];
      ghost var s := sent;
      st := Send(d, c);
      DefaultsAfter(old(coef), coef, s, sent, d, c);
      ghost var s1 := sent;
      var st0 := Ok;
      if d != 0 {
        st0 := Send(0, c);
        DefaultsAfter(coef, coef, s1, sent, 0, c);
      }
      if st == Ok { st := st0; }
    }

    /** ua_dsp_set_bus_owner() */
    method SetOwner(bus: nat, dsp: nat) returns (st: Status)
      requires Valid()
      modifies `owner
      ensures Valid()
      ensures st == if bus >= BUSES || dsp >= |hasRings| then BadValue else Ok
      ensures owner == if st == Ok then old(owner)[bus := dsp] else old(owner)
    {
      if bus >= BUSES || dsp >= |hasRings| { return BadValue; }
      owner := owner[bus := dsp];
      return Ok;
    }

    /** ua_dsp_move_bus(): the new owner gets every coefficient cached for the bus. */
    method MoveBus(bus: nat, dsp: nat) returns (st: Status)
      requires Valid()
      modifies `owner, `sent
      ensures Valid()
      ensures st == BadValue <==> bus >= BUSES || dsp >= |hasRings|
      ensures st == BadValue ==> State() == old(State())
      ensures st != BadValue ==> owner == old(owner)[bus := dsp]
      ensures st == Ok ==> State() == old(MoveStep(hasRings, State(), bus, dsp))
      ensures st != BadValue ==> Outcome(hasRings, old(State()), Attempt(Move(bus, dsp), st == Ok), State())
    {
      st := SetOwner(bus, dsp);
      if st != Ok { return; }
      var d := OwnerOf(hasRings, owner, bus);
      if d == 0 { return Ok; }
      st := ResendBus(bus, d);
    }

    method ResendBus(bus: nat, d: nat) returns (err: Status)
      requires Valid() && bus < BUSES && d < |hasRings|
      modifies `sent
      ensures Valid() && err != BadValue && SameSwitches(old(sent), sent)
      ensures err == Ok ==> sent == Resend(coef, old(sent), d, CellOf(bus, 0, 0), CellOf(bus, PARAMS, 0))
    {
      err := Ok;
      var param := 0;
      while param < PARAMS
        invariant 0 <= param <= PARAMS && Valid() && err != BadValue && SameSwitches(old(sent), sent)
        invariant err == Ok ==> sent == Resend(coef, old(sent), d, CellOf(bus, 0, 0), CellOf(bus, param, 0))
      {
        var side := 0;
        while side < SIDES
          invariant 0 <= side <= SIDES && Valid() && err != BadValue && SameSwitches(old(sent), sent)
          invariant err == Ok ==> sent == Resend(coef, old(sent), d, CellOf(bus, 0, 0), CellOf(bus, param, side))
        {
          var cell := CellOf(bus, param, side);
          CellRoundTrip(bus, param, side);
          if cell in coef {
            ghost var s := sent;
            var st := Send(d, Coef(bus, param, side, coef[cell]));
            DefaultsAfter(coef, coef, s, sent, d, Coef(bus, param, side, coef[cell]));
            if st != Ok && err == Ok { err := st; }
          }
          side := side + 1;
        }
        param := param + 1;
      }
    }

    /** A DSP program load; only DSP 0 is ever loaded. */
    method LoadProgram()
      requires Valid()
      modifies `sent, `pending
      ensures Valid() && State() == old(LoadStep(State()))
    {
      sent, pending := sent[0 := []], true;
    }

    /** ua_dsp_set_bus_enable(): to every DSP with rings, unless the cache already knows that state;
        rejected anywhere, it leaves the cache as it was. */
    method SetBusEnable(bus: nat, on: bool) returns (err: Status)
      requires Valid()
      modifies `sent, `known, `disabled
      ensures Valid()
      ensures err == BadValue <==> bus > 6
      ensures err == BadValue ==> State() == old(State())
      ensures err == Ok ==> State() == old(SwitchStep(hasRings, State(), bus, on))
      ensures err != Ok ==> known == old(known) && disabled == old(disabled)
      ensures err != BadValue ==>
                Outcome(hasRings, old(State()), Attempt(Switch(bus, on), err == Ok), State())
      ensures Offered(hasRings, old(sent), sent, Enable(bus, on))
    {
      if bus > 6 { return BadValue; }
      if bus in known && (on <==> bus !in disabled) { return Ok; }
      var reached;
      err, reached := SendEnable(bus, on);
      ReachedSome(hasRings, |hasRings|);
      if err == Ok && reached > 0 {
        known := known + {bus};
        disabled := if on then disabled - {bus} else disabled + {bus};
      }
    }

    /** One enable command to every DSP with rings. */
    method SendEnable(bus: nat, on: bool) returns (err: Status, reached: nat)
      requires Valid() && bus < ENABLE_BUSES
      modifies `sent
      ensures Valid() && err in {Ok, Full} && Offered(hasRings, old(sent), sent, Enable(bus, on))
      ensures err == Ok ==> sent == Broadcast(hasRings, old(sent), Enable(bus, on), |hasRings|)
      ensures err == Ok ==> reached == Count(hasRings, |hasRings|)
    {
      hide DefaultsKept, Coefs, Disabled, Broadcast;
      BroadcastOneMore(hasRings, sent, Enable(bus, on), 0);
      err, reached := Ok, 0;
      var d := 0;
      while d < |hasRings|
        invariant 0 <= d <= |hasRings| == |sent| && err in {Ok, Full} &&
                  Offered(hasRings, old(sent), sent, Enable(bus, on))
        invariant forall e :: d <= e < |sent| ==> sent[e] == old(sent)[e]
        invariant err == Ok ==>
                  sent == Broadcast(hasRings, old(sent), Enable(bus, on), d) && reached == Count(hasRings, d)
      {
        BroadcastOneMore(hasRings, old(sent), Enable(bus, on), d);
        if hasRings[d] {
          var st := Send(d, Enable(bus, on));
          if st != Ok { err := Full; } else { reached := reached + 1; }
        }
        d := d + 1;
      }
      OfferKeepsDefaults(coef, hasRings, old(sent), sent, bus, on);
    }

    /** ua_dsp_replay_if_pending() */
    method ReplayIfPending() returns (st: Status)
      requires Valid()
      modifies `pending, `sent
      ensures Valid()
      ensures old(pending) && hasRings[0] ==> !pending
      ensures st == NoDevice <==> old(pending) && !hasRings[0]
      ensures st == NoDevice ==> State() == old(State())
      ensures st == Ok ==> State() == old(ReplayStep(hasRings, State()))
      ensures st != NoDevice ==> Outcome(hasRings, old(State()), Attempt(Op.Replay, st == Ok), State())
    {
      if !pending { return Ok; }
      if !hasRings[0] { return NoDevice; }
      pending := false;
      st := Replay();
    }

    /** ua_dsp_replay_bus_params(): buses known to be off, then every cached coefficient. */
    method Replay() returns (err: Status)
      requires Valid() && hasRings[0]
      modifies `sent
      ensures Valid() && err in {Ok, Full}
      ensures err == Ok ==> sent == old(Replayed(hasRings, State()))
      ensures OnlyOff(old(sent), sent, disabled)
    {
      hide Disabled, Coefs, OnlyOff, SameSwitches, DefaultsKept;
      if coef == map[] && known * disabled == {} {
        OnlyOffRefl(sent, disabled);
        return Ok;
      }
      err := ReplayDisabled();
      ghost var off, own := sent, Owners(hasRings, owner);
      var cell := 0;
      while cell < CELLS
        invariant 0 <= cell <= CELLS && Valid() && err in {Ok, Full}
        invariant err == Ok ==> sent == SetAgain(coef, own, off, cell)
        invariant err == Ok ==> off == OffAgain(hasRings, old(sent), known * disabled, ENABLE_BUSES)
        invariant OnlyOff(old(sent), sent, disabled)
      {
        if cell in coef {
          ghost var before := sent;
          var st := ReplayCell(cell);
          OnlyOffSame(old(sent), before, sent, disabled);
          if st != Ok && err == Ok { err := st; }
        }
        cell := cell + 1;
      }
    }

    method ReplayDisabled() returns (err: Status)
      requires Valid()
      modifies `sent
      ensures Valid() && err in {Ok, Full} &&
              (err == Ok ==> sent == OffAgain(hasRings, old(sent), known * disabled, ENABLE_BUSES))
      ensures OnlyOff(old(sent), sent, disabled)
    {
      err := Ok;
      var bus := 0;
      while bus < ENABLE_BUSES
        invariant 0 <= bus <= ENABLE_BUSES && Valid() && err in {Ok, Full}
        invariant err == Ok ==> sent == OffAgain(hasRings, old(sent), known * disabled, bus)
        invariant OnlyOff(old(sent), sent, disabled)
      {
        if bus in known && bus in disabled {
          var st, _ := SendEnable(bus, false);
          if st != Ok && err == Ok { err := st; }
        }
        bus := bus + 1;
      }
    }

    /** One cell to its owner and, unless that failed, to DSP 0. */
    method ReplayCell(cell: nat) returns (st: Status)
      requires Valid() && hasRings[0] && cell in coef
      modifies `sent
      ensures Valid() && st in {Ok, Full} && BusOf(cell) < |owner| && SameSwitches(old(sent), sent)
      ensures st == Ok ==>
                var d := OwnerOf(hasRings, owner, BusOf(cell));
                var once := Append(old(sent), d, Cached(coef, cell));
                sent == if d == 0 then once else Append(once, 0, Cached(coef, cell))
    {
      CellDecode(cell);
      var d := OwnerOf(hasRings, owner, BusOf(cell));
      var c := Coef(BusOf(cell), ParamOf(cell), SideOf(cell), coef[cell]);
      ghost var s := sent;
      st := Send(d, c);
      DefaultsAfter(coef, coef, s, sent, d, c);
      ghost var s1 := sent;
      if st == Ok && d != 0 {
        st := Send(0, c);
        DefaultsAfter(coef, coef, s1, sent, 0, c);
      }
    }
  }

  lemma OnlyOffRefl(s: seq<seq<Cmd>>, off: set<nat>)
    ensures OnlyOff(s, s, off)
  {
  }

  lemma OnlyOffSame(a: seq<seq<Cmd>>, b: seq<seq<Cmd>>, c: seq<seq<Cmd>>, off: set<nat>)
    requires OnlyOff(a, b, off) && SameSwitches(b, c)
    ensures OnlyOff(a, c, off)
  {
  }

  /** Every DSP either took the command or was left as it was; one without rings was. */
  ghost predicate Offered(rs: seq<bool>, s: seq<seq<Cmd>>, t: seq<seq<Cmd>>, c: Cmd) {
    |t| == |s| == |rs| && forall d :: 0 <= d < |s| ==> t[d] == s[d] || (rs[d] && t[d] == s[d] + [c])
  }

  function Count(rs: seq<bool>, n: nat): nat
    requires n <= |rs|
  {
    if n == 0 then 0 else Count(rs, n - 1) + if rs[n - 1] then 1 else 0
  }

  lemma {:induction false} ReachedSome(rs: seq<bool>, n: nat)
    requires n <= |rs|
    ensures Count(rs, n) > 0 <==> true in rs[..n]
    ensures n == |rs| ==> (Count(rs, n) > 0 <==> true in rs)
  {
    if n > 0 {
      ReachedSome(rs, n - 1);
      assert rs[..n] == rs[..n - 1] + [rs[n - 1]];
    }
    if n == |rs| { assert rs[..n] == rs; }
  }

  lemma OfferKeepsDefaults(coef: map<nat, nat>, rs: seq<bool>, s: seq<seq<Cmd>>, t: seq<seq<Cmd>>, bus: nat, on: bool)
    requires DefaultsKept(coef, s) && Offered(rs, s, t, Enable(bus, on))
    ensures DefaultsKept(coef, t)
  {
    forall d: nat, cell: nat | d < |t| && cell in Coefs(t[d]) ensures cell in coef {
      AppendOne(s[d], Enable(bus, on));
    }
  }

  lemma DefaultsAfter(coef: map<nat, nat>, coef': map<nat, nat>, s: seq<seq<Cmd>>, t: seq<seq<Cmd>>, d: nat, c: Cmd)
    requires DefaultsKept(coef, s) && d < |s| && c.Coef? && coef.Keys <= coef'.Keys &&
             CellOf(c.bus, c.param, c.side) in coef'
    requires t == Append(s, d, c) || t == s
    ensures DefaultsKept(coef', t)
  {
  }
}
