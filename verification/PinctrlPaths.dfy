/** set_type seen from inside and from outside: its fast paths against the slow one, the state at
    every register write, and the choice of flow handler. */
module PinctrlPaths {
  import opened Words
  import opened Mmio
  import opened PinctrlSpec
  import opened PinctrlProofs
  import Demux = PinctrlDemux

  // ---- The fast paths refine disable, set type, enable ----

  /** The slow way to give a pin another type. */
  function Slow(s: Pc, pin: nat, t: nat): (r: Pc)
    requires WellFormed(s) && pin < NUM_GPIOS
    ensures WellFormed(r)
  {
    Enable(SetType(Disable(s, pin), pin, t).0, pin)
  }

  lemma SlowEffect(s: Pc, pin: nat, t: nat)
    requires Agrees(s) && pin < NUM_GPIOS && ValidType(t) && Enabled(s, pin)
    ensures var r := Slow(s, pin, t);
            && r.irqType == s.irqType[pin := t]
            && r.edgeHandler == s.edgeHandler[pin := And(t, EDGE_BOTH) != 0]
            && r.enabled == s.enabled
            && OthersKept(s.regs, r.regs, pin)
            && Active(r.regs, pin) == Wanted(t)
  {
    var d := Disable(s, pin);
    var m := SetType(d, pin, t).0;
    var r := Enable(m, pin);
    assert !Enabled(d, pin) by { EnableBits(s, pin, pin); }
    assert Bit(s.enabled[Bank(pin)], Shift(pin));
    assert d.irqType == s.irqType && d.edgeHandler == s.edgeHandler by { hide *; DisableFrame(s, pin); }
    assert r.enabled == s.enabled by { hide *; BitmapRestored(s, pin, t); }
    hide Active, OthersKept, Wanted, Disable, Bit, And, Or, BIT;
    DisableEffect(s, pin);
    assert m.regs == d.regs;
    var b := Bank(pin);
    ConfigEffect(m.(enabled := m.enabled[b := Or(m.enabled[b], BIT(Shift(pin)))]), pin, true);
    hide Config;
    OthersKeptTrans(s.regs, d.regs, r.regs, pin);
  }

  lemma DisableFrame(s: Pc, pin: nat)
    requires WellFormed(s) && pin < NUM_GPIOS
    ensures var d := Disable(s, pin);
            && d.irqType == s.irqType && d.edgeHandler == s.edgeHandler
            && d.enabled == s.enabled[Bank(pin) := AndNot(s.enabled[Bank(pin)], BIT(Shift(pin)))]
  {}

  lemma BitmapRestored(s: Pc, pin: nat, t: nat)
    requires WellFormed(s) && pin < NUM_GPIOS && ValidType(t)
    requires Enabled(s, pin)
    ensures Slow(s, pin, t).enabled == s.enabled
  {
    var b, i := Bank(pin), Shift(pin);
    var w := s.enabled[b];
    var d := Disable(s, pin);
    DisableFrame(s, pin);
    EnableBits(s, pin, pin);
    assert Slow(s, pin, t).enabled == s.enabled[b := Or(AndNot(w, BIT(i)), BIT(i))] by {
      hide Disable, And, Bit, Or, AndNot, BIT;
    }
    hide *;
    Extensional(Or(AndNot(w, BIT(i)), BIT(i)), w);
  }

  lemma FastEffect(s: Pc, pin: nat, t: nat)
    requires Agrees(s) && pin < NUM_GPIOS && ValidType(t) && Enabled(s, pin)
    ensures var r := SetType(s, pin, t).0;
            && r.irqType == s.irqType[pin := t]
            && r.edgeHandler == s.edgeHandler[pin := And(t, EDGE_BOTH) != 0]
            && r.enabled == s.enabled
            && OthersKept(s.regs, r.regs, pin)
            && Active(r.regs, pin) == Wanted(t)
  {
    assert ValidType(s.irqType[pin]) && Active(s.regs, pin) == Wanted(s.irqType[pin]);
    SetTypeEnabledEffect(s, pin, t);
    hide SetTypeEnabled, Wanted, Active, OthersKept, Bit, And;
  }

  /** Register files that differ from `a` in the detectors of `pin` at most, and have the same of
      these active, have the same detect registers. */
  lemma SameDetectors(a: Regs, b: Regs, c: Regs, pin: nat, det: nat, bank: nat)
    requires OthersKept(a, b, pin) && OthersKept(a, c, pin) && Active(b, pin) == Active(c, pin)
    requires det in DETECTORS && bank < NUM_BANKS && pin < NUM_GPIOS
    ensures Rd(b, det + bank * 4) == Rd(c, det + bank * 4)
  {
    hide Bit, Rd;
    var u, v := Rd(b, det + bank * 4), Rd(c, det + bank * 4);
    forall i: nat ensures Bit(u, i) == Bit(v, i) {
      if bank == Bank(pin) && i == Shift(pin) {
        assert DetBit(b, det, bank, i) <==> det in Active(b, pin);
        assert DetBit(c, det, bank, i) <==> det in Active(c, pin);
      } else {
        assert DetBit(b, det, bank, i) == DetBit(a, det, bank, i);
        assert DetBit(c, det, bank, i) == DetBit(a, det, bank, i);
      }
    }
    Extensional(u, v);
  }

  /** The fast path ends in the state of the slow one: same types, handlers and enable map, and
      the same word in every detect register, so no other pin is affected either. */
  lemma FastRefinesSlow(s: Pc, pin: nat, t: nat, det: nat, b: nat)
    requires Agrees(s) && pin < NUM_GPIOS && ValidType(t) && Enabled(s, pin)
    requires det in DETECTORS && b < NUM_BANKS
    ensures var fast := SetType(s, pin, t).0;
            var slow := Slow(s, pin, t);
            && fast.irqType == slow.irqType && fast.edgeHandler == slow.edgeHandler && fast.enabled == slow.enabled
            && Rd(fast.regs, det + b * 4) == Rd(slow.regs, det + b * 4)
  {
    SlowEffect(s, pin, t);
    FastEffect(s, pin, t);
    hide *;
    SameDetectors(s.regs, SetType(s, pin, t).0.regs, Slow(s, pin, t).regs, pin, det, b);
  }

  /** The one difference that can be seen: the slow path drops an event that is latched for the pin, the
      fast path keeps it. Neither touches the event of another pin. */
  lemma FastKeepsEvent(s: Pc, pin: nat, t: nat, p: nat)
    requires WellFormed(s) && pin < NUM_GPIOS && p < NUM_GPIOS
    ensures Demux.Pending(SetType(s, pin, t).0, p) == Demux.Pending(s, p)
    ensures Demux.Pending(Slow(s, pin, t), p) == (p != pin && Demux.Pending(s, p))
  {
    hide Demux.Pending, SetType, Enable, Disable;
    var d := Disable(s, pin);
    var m := SetType(d, pin, t).0;
    Demux.StepPending(s, OpSetType(pin, t), p);
    Demux.StepPending(s, OpDisable(pin), p);
    Demux.StepPending(d, OpSetType(pin, t), p);
    Demux.StepPending(m, OpEnable(pin), p);
  }

  // ---- Every register write inside set_type ----

  /** The detectors of the pin belong to the old type or to the new one, what both types want is
      active, and every other pin is as it was. */
  ghost predicate Steady(base: Regs, now: Regs, pin: nat, oldDets: set<nat>, newDets: set<nat>) {
    var a := Active(now, pin);
    && (a <= oldDets || a <= newDets)
    && oldDets * newDets <= a
    && OthersKept(base, now, pin)
  }

  /** `r` was reached from `s` by register writes that were steady throughout. */
  ghost predicate SteadyFrom(s: Pc, r: Pc, pin: nat, oldDets: set<nat>, newDets: set<nat>) {
    && |s.writes| <= |r.writes| && r.writes[..|s.writes|] == s.writes
    && var ws := r.writes[|s.writes|..];
       && r.regs == ApplyAll(s.regs, ws)
       && forall k :: 0 <= k <= |ws| ==> Steady(s.regs, ApplyAll(s.regs, ws[..k]), pin, oldDets, newDets)
  }

  lemma SteadySnoc(s: Pc, m: Pc, r: Pc, w: Write, pin: nat, oldDets: set<nat>, newDets: set<nat>)
    requires SteadyFrom(s, m, pin, oldDets, newDets)
    requires r.writes == m.writes + [w] && r.regs == HwWrite(m.regs, w)
    requires Steady(s.regs, r.regs, pin, oldDets, newDets)
    ensures SteadyFrom(s, r, pin, oldDets, newDets)
  {
    hide Steady, HwWrite;
    var ws, vs := m.writes[|s.writes|..], r.writes[|s.writes|..];
    assert vs == ws + [w];
    assert vs[..|ws|] == ws;
    forall k | 0 <= k <= |vs| ensures Steady(s.regs, ApplyAll(s.regs, vs[..k]), pin, oldDets, newDets) {
      if k <= |ws| {
        assert vs[..k] == ws[..k];
      } else {
        assert vs[..k] == vs;
      }
    }
  }

  lemma {:induction false} ConfigAllSteady(s: Pc, m: Pc, dets: seq<nat>, pin: nat, enable: bool,
                                           oldDets: set<nat>, newDets: set<nat>)
    requires SteadyFrom(s, m, pin, oldDets, newDets) && pin < NUM_GPIOS
    requires forall d :: d in dets ==> d in DETECTORS
    requires Steady(s.regs, m.regs, pin, oldDets, newDets)
    requires if enable then Active(m.regs, pin) <= newDets && (forall d :: d in dets ==> d in newDets)
             else Active(m.regs, pin) <= oldDets && (forall d :: d in dets ==> d !in oldDets * newDets)
    ensures SteadyFrom(s, ConfigAll(m, dets, pin, enable), pin, oldDets, newDets)
    decreases |dets|
  {
    hide SteadyFrom, Active, OthersKept;
    if dets != [] {
      var r := ConfigOne(m, dets[0], pin, enable);
      ConfigOneEffect(m, dets[0], pin, enable);
      OthersKeptTrans(s.regs, m.regs, r.regs, pin);
      assert Steady(s.regs, r.regs, pin, oldDets, newDets);
      SteadySnoc(s, m, r, r.writes[|m.writes|], pin, oldDets, newDets) by { hide Or, AndNot, BIT, Bit, Steady; }
      ConfigAllSteady(s, r, dets[1..], pin, enable, oldDets, newDets);
    }
  }

  lemma SteadyStart(s: Pc, m: Pc, pin: nat, oldDets: set<nat>, newDets: set<nat>)
    requires m.regs == s.regs && m.writes == s.writes && Active(s.regs, pin) == oldDets
    ensures SteadyFrom(s, m, pin, oldDets, newDets) && Steady(s.regs, m.regs, pin, oldDets, newDets)
  {
    hide DetBit, Active;
    assert ApplyAll(s.regs, []) == s.regs;
    assert m.writes[|s.writes|..] == [];
  }

  lemma SteadyPut(s: Pc, m: Pc, pin: nat, t: nat, oldDets: set<nat>, newDets: set<nat>)
    requires WellFormed(m) && pin < NUM_GPIOS && SteadyFrom(s, m, pin, oldDets, newDets)
    ensures SteadyFrom(s, PutType(m, pin, t), pin, oldDets, newDets)
  {
    hide Steady, ApplyAll;
  }

  /** No glitch: at every register write of set_type on an enabled pin, the active detectors are
      within the old type or within the new one, and an edge that both types want stays on. */
  lemma SetTypeSteady(s: Pc, pin: nat, t: nat)
    requires Agrees(s) && pin < NUM_GPIOS && ValidType(t) && Enabled(s, pin)
    ensures SteadyFrom(s, SetType(s, pin, t).0, pin, Wanted(s.irqType[pin]), Wanted(t))
  {
    var was := s.irqType[pin];
    assert ValidType(was) && Active(s.regs, pin) == Wanted(was);
    SetTypeEnabledSteady(s, pin, t);
    hide SteadyFrom, SetTypeEnabled, And, Wanted, Bit;
    SteadyHandler(s, SetTypeEnabled(s, pin, t).0, SetType(s, pin, t).0, pin, Wanted(was), Wanted(t));
  }

  lemma SteadyHandler(s: Pc, m: Pc, r: Pc, pin: nat, oldDets: set<nat>, newDets: set<nat>)
    requires SteadyFrom(s, m, pin, oldDets, newDets) && r == m.(edgeHandler := r.edgeHandler)
    ensures SteadyFrom(s, r, pin, oldDets, newDets)
  {
    hide Steady, ApplyAll;
  }

  lemma DetectsWanted(t: nat, d: nat)
    requires d in Detects(t)
    ensures d in DETECTORS && d in Wanted(t)
  {}

  lemma ConfigSteady(s: Pc, m: Pc, pin: nat, enable: bool, oldDets: set<nat>, newDets: set<nat>)
    requires WellFormed(m) && SteadyFrom(s, m, pin, oldDets, newDets) && pin < NUM_GPIOS
    requires Steady(s.regs, m.regs, pin, oldDets, newDets)
    requires var w := Wanted(m.irqType[pin]);
             if enable then Active(m.regs, pin) <= newDets && w <= newDets
             else Active(m.regs, pin) <= oldDets && w * (oldDets * newDets) == {}
    ensures SteadyFrom(s, Config(m, pin, enable), pin, oldDets, newDets)
  {
    hide SteadyFrom, Steady, Active, ConfigAll, Detects;
    ghost var w := Wanted(m.irqType[pin]);
    forall d | d in Detects(m.irqType[pin]) ensures d in DETECTORS && d in w { DetectsWanted(m.irqType[pin], d); }
    forall d | d in Detects(m.irqType[pin]) && !enable ensures d !in oldDets * newDets {
      assert d in w * (oldDets * newDets) <==> d in w && d in oldDets * newDets;
    }
    ConfigAllSteady(s, m, Detects(m.irqType[pin]), pin, enable, oldDets, newDets);
  }

  lemma ConfigStep(s: Pc, m: Pc, pin: nat, enable: bool, oldDets: set<nat>, newDets: set<nat>)
    requires WellFormed(m) && SteadyFrom(s, m, pin, oldDets, newDets) && pin < NUM_GPIOS
    requires Steady(s.regs, m.regs, pin, oldDets, newDets)
    requires var w := Wanted(m.irqType[pin]);
             if enable then Active(m.regs, pin) <= newDets && w <= newDets
             else Active(m.regs, pin) <= oldDets && w * (oldDets * newDets) == {}
    ensures var r := Config(m, pin, enable);
            var w := Wanted(m.irqType[pin]);
            && SteadyFrom(s, r, pin, oldDets, newDets)
            && OthersKept(s.regs, r.regs, pin)
            && Active(r.regs, pin) == if enable then Active(m.regs, pin) + w else Active(m.regs, pin) - w
  {
    ConfigSteady(s, m, pin, enable, oldDets, newDets);
    hide SteadyFrom, Active, Config, Wanted, OthersKept;
    ConfigEffect(m, pin, enable);
    OthersKeptTrans(s.regs, m.regs, Config(m, pin, enable).regs, pin);
  }

  lemma SetTypeEnabledSteady(s: Pc, pin: nat, t: nat)
    requires WellFormed(s) && pin < NUM_GPIOS && ValidType(t) && ValidType(s.irqType[pin])
    requires Active(s.regs, pin) == Wanted(s.irqType[pin])
    ensures SteadyFrom(s, SetTypeEnabled(s, pin, t).0, pin, Wanted(s.irqType[pin]), Wanted(t))
  {
    var from := s.irqType[pin];
    var oldDets, newDets := Wanted(from), Wanted(t);
    WantedTypes();
    SteadyStart(s, s, pin, oldDets, newDets);
    hide SteadyFrom, Active, Config, Wanted, OthersKept;
    if from == t {
    } else if from == EDGE_BOTH && (t == EDGE_RISING || t == EDGE_FALLING) {
      var via := if t == EDGE_RISING then EDGE_FALLING else EDGE_RISING;
      var m := PutType(s, pin, via);
      SteadyStart(s, m, pin, oldDets, newDets);
      ConfigStep(s, m, pin, false, oldDets, newDets);
      SteadyPut(s, Config(m, pin, false), pin, t, oldDets, newDets);
    } else if t == EDGE_BOTH && (from == EDGE_RISING || from == EDGE_FALLING) {
      var via := if from == EDGE_RISING then EDGE_FALLING else EDGE_RISING;
      var m := PutType(s, pin, via);
      SteadyStart(s, m, pin, oldDets, newDets);
      ConfigStep(s, m, pin, true, oldDets, newDets);
      SteadyPut(s, Config(m, pin, true), pin, t, oldDets, newDets);
    } else {
      assert oldDets * newDets == {};
      ConfigStep(s, s, pin, false, oldDets, newDets);
      var c := Config(s, pin, false);
      SteadyPut(s, c, pin, t, oldDets, newDets);
      if t != TYPE_NONE {
        ConfigStep(s, PutType(c, pin, t), pin, true, oldDets, newDets);
      }
    }
  }

  // ---- The flow handler ----

  predicate IsEdge(t: nat) { t == EDGE_RISING || t == EDGE_FALLING || t == EDGE_BOTH }

  /** The flow handler of the pin is the one its recorded type calls for. */
  predicate HandlerFits(s: Pc, pin: nat)
    requires WellFormed(s) && pin < NUM_GPIOS
  {
    s.edgeHandler[pin] == IsEdge(s.irqType[pin])
  }

  lemma {:induction false} AndZero(a: nat)
    ensures And(a, 0) == 0
  {
    hide Bit;
    if a > 0 { AndZero(a / 2); }
  }

  lemma EdgeMask(t: nat)
    ensures And(t, EDGE_BOTH) == t % 4
  {
    hide Bit;
    AndZero(t / 2 / 2);
    var a := And(t / 2, 1);
    assert a == t / 2 % 2;
    assert And(t, 3) == 2 * a + t % 2;
  }

  /** A refused type still replaces the handler: afterwards handler and type fit exactly when the
      type was accepted, or has an edge bit just when the recorded type is an edge type. */
  lemma HandlerFitsIff(s: Pc, pin: nat, t: nat)
    requires WellFormed(s) && pin < NUM_GPIOS
    ensures HandlerFits(SetType(s, pin, t).0, pin) <==>
              ValidType(t) || (t % 4 != 0) == IsEdge(s.irqType[pin])
    ensures SetType(s, pin, t).1 == EInval <==> !ValidType(t)
  {
    EdgeMask(t);
    hide And, Bit, Config;
  }

  /** Such a refusal, on any pin and after any calls: a pin of type "rising edge" that is asked for both
      levels at once keeps its type and loses its handler. */
  lemma RefusedTypeMisfits(s: Pc, pin: nat)
    requires WellFormed(s) && pin < NUM_GPIOS
    ensures var u := SetType(s, pin, EDGE_RISING).0;
            var (r, ret) := SetType(u, pin, LEVEL_HIGH + LEVEL_LOW);
            && HandlerFits(u, pin) && ret == EInval
            && r.irqType[pin] == EDGE_RISING && !HandlerFits(r, pin)
  {
    var u := SetType(s, pin, EDGE_RISING).0;
    var t := LEVEL_HIGH + LEVEL_LOW;
    hide And, Bit, Config;
    assert u.irqType[pin] == EDGE_RISING;
    assert SetType(u, pin, t).0.irqType == u.irqType;
    hide SetType, HandlerFits;
    HandlerFitsIff(s, pin, EDGE_RISING);
    HandlerFitsIff(u, pin, t);
  }
}
