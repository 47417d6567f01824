/** What the interrupt-type operations guarantee over every run and at every register write. */
module PinctrlProofs {
  import opened Words
  import opened Mmio
  import opened PinctrlSpec

  // ---- One register write ----

  /** Outside bit `Shift(pin)` of bank `Bank(pin)`, no detect register differs. */
  ghost predicate OthersKept(a: Regs, b: Regs, pin: nat) {
    forall d, k: nat, i: nat {:trigger DetBit(b, d, k, i)} ::
      d in DETECTORS && k < NUM_BANKS && (k != Bank(pin) || i != Shift(pin)) ==>
        DetBit(b, d, k, i) == DetBit(a, d, k, i)
  }

  lemma OtherPinsKept(a: Regs, b: Regs, pin: nat, p: nat)
    requires OthersKept(a, b, pin) && pin < NUM_GPIOS && p < NUM_GPIOS && p != pin
    ensures Active(b, p) == Active(a, p)
  {
    hide DetBit;
    assert Bank(p) != Bank(pin) || Shift(p) != Shift(pin);
  }

  lemma ConfigOneEffect(s: Pc, det: nat, pin: nat, enable: bool)
    requires det in DETECTORS && pin < NUM_GPIOS
    ensures var r := ConfigOne(s, det, pin, enable);
            && OthersKept(s.regs, r.regs, pin)
            && Active(r.regs, pin) == if enable then Active(s.regs, pin) + {det} else Active(s.regs, pin) - {det}
  {
    hide Or, AndNot, BIT, Bit;
    var r := ConfigOne(s, det, pin, enable);
    forall d, k: nat, i: nat | d in DETECTORS && k < NUM_BANKS
      ensures DetBit(r.regs, d, k, i) ==
                if d == det && k == Bank(pin) && i == Shift(pin) then enable else DetBit(s.regs, d, k, i)
    {
      assert d + k * 4 == det + Bank(pin) * 4 <==> d == det && k == Bank(pin);
    }
  }

  lemma {:induction false} ConfigAllEffect(s: Pc, dets: seq<nat>, pin: nat, enable: bool)
    requires (forall d :: d in dets ==> d in DETECTORS) && pin < NUM_GPIOS
    ensures var r := ConfigAll(s, dets, pin, enable);
            var w := set d | d in dets;
            && OthersKept(s.regs, r.regs, pin)
            && Active(r.regs, pin) == if enable then Active(s.regs, pin) + w else Active(s.regs, pin) - w
    decreases |dets|
  {
    hide ConfigOne, DetBit, Active;
    if dets != [] {
      ConfigOneEffect(s, dets[0], pin, enable);
      ConfigAllEffect(ConfigOne(s, dets[0], pin, enable), dets[1..], pin, enable);
      assert (set d | d in dets) == {dets[0]} + (set d | d in dets[1..]);
    }
  }

  lemma ConfigEffect(s: Pc, pin: nat, enable: bool)
    requires WellFormed(s) && pin < NUM_GPIOS
    ensures var r := Config(s, pin, enable);
            var w := Wanted(s.irqType[pin]);
            && OthersKept(s.regs, r.regs, pin)
            && Active(r.regs, pin) == if enable then Active(s.regs, pin) + w else Active(s.regs, pin) - w
  {
    hide Active;
    ConfigAllEffect(s, Detects(s.irqType[pin]), pin, enable);
  }

  lemma AckEffect(s: Pc, pin: nat)
    requires pin < NUM_GPIOS
    ensures forall d :: d in DETECTORS ==> forall k: nat, i: nat :: k < NUM_BANKS ==>
              DetBit(Ack(s, pin).regs, d, k, i) == DetBit(s.regs, d, k, i)
  {
    hide Or, AndNot, BIT, Bit;
  }

  // ---- The enable bitmap ----

  lemma EnableBits(s: Pc, pin: nat, p: nat)
    requires WellFormed(s) && pin < NUM_GPIOS && p < NUM_GPIOS
    ensures Enabled(Enable(s, pin), p) == (p == pin || Enabled(s, p))
    ensures Enabled(Disable(s, pin), p) == (p != pin && Enabled(s, p))
  {
    hide Or, AndNot, BIT, Bit, Config, Ack, Store;
  }

  // ---- The invariant over every run ----

  /** What every operation keeps, for the pin it is about and for all the others. */
  lemma AgreesStep(s: Pc, r: Pc, pin: nat)
    requires Agrees(s) && WellFormed(r) && pin < NUM_GPIOS
    requires OthersKept(s.regs, r.regs, pin)
    requires forall p :: 0 <= p < NUM_GPIOS && p != pin ==>
               r.irqType[p] == s.irqType[p] && Enabled(r, p) == Enabled(s, p)
    requires ValidType(r.irqType[pin])
    requires Active(r.regs, pin) == if Enabled(r, pin) then Wanted(r.irqType[pin]) else {}
    ensures Agrees(r)
  {
    hide Active, OthersKept, Wanted, Enabled, ValidType;
    forall p | 0 <= p < NUM_GPIOS
      ensures ValidType(r.irqType[p])
      ensures Active(r.regs, p) == if Enabled(r, p) then Wanted(r.irqType[p]) else {}
    {
      if p != pin { OtherPinsKept(s.regs, r.regs, pin, p); }
    }
  }

  lemma EnableKeeps(s: Pc, pin: nat)
    requires Agrees(s) && pin < NUM_GPIOS
    ensures Agrees(Enable(s, pin))
  {
    var b := Bank(pin);
    var s1 := s.(enabled := s.enabled[b := Or(s.enabled[b], BIT(Shift(pin)))]);
    ConfigEffect(s1, pin, true);
    forall p | 0 <= p < NUM_GPIOS ensures Enabled(Enable(s, pin), p) == (p == pin || Enabled(s, p)) {
      EnableBits(s, pin, p);
    }
    hide Active, OthersKept, Wanted, Enabled, ValidType, Config, Or, BIT;
    AgreesStep(s, Enable(s, pin), pin);
  }

  lemma DisableEffect(s: Pc, pin: nat)
    requires WellFormed(s) && pin < NUM_GPIOS
    ensures var r := Disable(s, pin);
            && OthersKept(s.regs, r.regs, pin)
            && Active(r.regs, pin) == Active(s.regs, pin) - Wanted(s.irqType[pin])
  {
    hide DetBit, Wanted, Store;
    ConfigEffect(s, pin, false);
    var c := Config(s, pin, false);
    AckEffect(c, pin);
    hide Config;
    assert Disable(s, pin).regs == Ack(c, pin).regs;
  }

  lemma DisableKeeps(s: Pc, pin: nat)
    requires Agrees(s) && pin < NUM_GPIOS
    ensures Agrees(Disable(s, pin))
  {
    DisableEffect(s, pin);
    forall p | 0 <= p < NUM_GPIOS ensures Enabled(Disable(s, pin), p) == (p != pin && Enabled(s, p)) {
      EnableBits(s, pin, p);
    }
    hide Active, OthersKept, Wanted, Enabled, ValidType, Config, Store, AndNot, BIT;
    AgreesStep(s, Disable(s, pin), pin);
  }

  // ---- set_type ----

  lemma WantedTypes()
    ensures Wanted(TYPE_NONE) == {} && Wanted(EDGE_RISING) == {GPREN0} && Wanted(EDGE_FALLING) == {GPFEN0}
    ensures Wanted(EDGE_BOTH) == {GPREN0, GPFEN0} && Wanted(LEVEL_HIGH) == {GPHEN0} && Wanted(LEVEL_LOW) == {GPLEN0}
  {}

  lemma OthersKeptTrans(a: Regs, b: Regs, c: Regs, pin: nat)
    requires OthersKept(a, b, pin) && OthersKept(b, c, pin)
    ensures OthersKept(a, c, pin)
  {
    hide DetBit;
  }

  /** set_type on an enabled pin leaves exactly the new type's detectors, whichever path it takes. */
  lemma SetTypeEnabledEffect(s: Pc, pin: nat, t: nat)
    requires WellFormed(s) && pin < NUM_GPIOS && ValidType(t) && ValidType(s.irqType[pin])
    requires Active(s.regs, pin) == Wanted(s.irqType[pin])
    ensures var (r, ret) := SetTypeEnabled(s, pin, t);
            && ret == Done
            && r == s.(regs := r.regs, writes := r.writes, irqType := s.irqType[pin := t])
            && OthersKept(s.regs, r.regs, pin)
            && Active(r.regs, pin) == Wanted(t)
  {
    hide Active, Wanted, OthersKept, Config;
    WantedTypes();
    var was := s.irqType[pin];
    if was == t {
      assert OthersKept(s.regs, s.regs, pin) by { OthersKeptRefl(s.regs, pin); }
      assert s.irqType[pin := t] == s.irqType;
    } else if was == EDGE_BOTH && (t == EDGE_RISING || t == EDGE_FALLING) {
      var via := if t == EDGE_RISING then EDGE_FALLING else EDGE_RISING;
      ConfigEffect(PutType(s, pin, via), pin, false);
    } else if t == EDGE_BOTH && (was == EDGE_RISING || was == EDGE_FALLING) {
      var via := if was == EDGE_RISING then EDGE_FALLING else EDGE_RISING;
      ConfigEffect(PutType(s, pin, via), pin, true);
    } else {
      ConfigEffect(s, pin, false);
      var s1 := PutType(Config(s, pin, false), pin, t);
      ConfigEffect(s1, pin, true);
      OthersKeptTrans(s.regs, s1.regs, Config(s1, pin, true).regs, pin);
    }
  }

  lemma OthersKeptRefl(a: Regs, pin: nat)
    ensures OthersKept(a, a, pin)
  {}

  lemma SetTypeKeeps(s: Pc, pin: nat, t: nat)
    requires Agrees(s) && pin < NUM_GPIOS
    ensures Agrees(SetType(s, pin, t).0)
  {
    hide Active, Wanted, OthersKept, Bit, And, SetTypeEnabled;
    OthersKeptRefl(s.regs, pin);
    if ValidType(t) && Enabled(s, pin) {
      SetTypeEnabledEffect(s, pin, t);
    } else if Enabled(s, pin) {
      InvalidType(s, pin, t);
    }
    AgreesStep(s, SetType(s, pin, t).0, pin);
  }

  lemma InvalidType(s: Pc, pin: nat, t: nat)
    requires WellFormed(s) && pin < NUM_GPIOS && !ValidType(t)
    ensures SetTypeEnabled(s, pin, t) == (s, EInval)
  {}

  lemma AckKeeps(s: Pc, pin: nat)
    requires Agrees(s) && pin < NUM_GPIOS
    ensures Agrees(Ack(s, pin))
  {
    hide DetBit, Wanted, Store, ValidType;
    AckEffect(s, pin);
    forall p | 0 <= p < NUM_GPIOS ensures Active(Ack(s, pin).regs, p) == Active(s.regs, p) {}
    assert Ack(s, pin) == s.(regs := Ack(s, pin).regs, writes := Ack(s, pin).writes) by { AckFrame(s, pin); }
  }

  lemma AckFrame(s: Pc, pin: nat)
    ensures Ack(s, pin) == s.(regs := Ack(s, pin).regs, writes := Ack(s, pin).writes)
  {}

  lemma FselKeeps(s: Pc, pin: nat, f: nat)
    requires Agrees(s) && pin < NUM_GPIOS
    ensures Agrees(FselSet(s, pin, f))
  {
    hide Insert, Field, Wanted, ValidType, Bit;
    var r := FselSet(s, pin, f);
    forall d, k: nat, i: nat | d in DETECTORS && k < NUM_BANKS
      ensures DetBit(r.regs, d, k, i) == DetBit(s.regs, d, k, i) {}
    forall p | 0 <= p < NUM_GPIOS ensures Active(r.regs, p) == Active(s.regs, p) {}
  }

  /** Hardware and driver agree after every run of the operations. */
  lemma {:induction false} RunKeeps(s: Pc, ops: seq<Op>)
    requires Agrees(s) && forall op :: op in ops ==> ValidOp(op)
    ensures Agrees(Run(s, ops))
    decreases |ops|
  {
    assert WellFormed(s);
    hide Agrees, Enable, Disable, SetType, Ack, FselSet;
    if ops != [] {
      assert ValidOp(ops[0]);
      match ops[0] {
        case OpEnable(p) => EnableKeeps(s, p);
        case OpDisable(p) => DisableKeeps(s, p);
        case OpSetType(p, t) => SetTypeKeeps(s, p, t);
        case OpAck(p) => AckKeeps(s, p);
        case OpFsel(p, f) => FselKeeps(s, p, f);
      }
      RunKeeps(Step(s, ops[0]), ops[1..]);
    }
  }
}
