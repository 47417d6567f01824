/** When the BCM2835 latches an event for a pin, after any run of calls: exactly when the pin is enabled and
    its level does what the type asked for. Also the bits of the function-select registers. */
module PinctrlEvents {
  import opened Words
  import opened Mmio
  import opened PinctrlSpec
  import opened PinctrlProofs
  import opened PinctrlFsel
  import opened PinctrlDemux

  // ---- What the detectors see ----

  /** The bit of a pin in the registers of its bank of 32, banks being 4 bytes apart. */
  predicate PinBit(regs: Regs, reg: nat, pin: nat) {
    Bit(Rd(regs, reg + 4 * (pin / 32)), pin % 32)
  }

  /** The controller latches an event for a pin whose level was `was` and is `now`: 0x4c enables rising
      edges, 0x58 falling edges, 0x64 high levels and 0x70 low levels. */
  predicate Latches(regs: Regs, pin: nat, was: bool, now: bool) {
    || (PinBit(regs, 0x4c, pin) && !was && now)
    || (PinBit(regs, 0x58, pin) && was && !now)
    || (PinBit(regs, 0x64, pin) && now)
    || (PinBit(regs, 0x70, pin) && !now)
  }

  /** An interrupt type asks for an event: its four bits stand for rising, falling, high and low. */
  predicate Due(t: nat, was: bool, now: bool) {
    || (Bit(t, 0) && !was && now)
    || (Bit(t, 1) && was && !now)
    || (Bit(t, 2) && now)
    || (Bit(t, 3) && !now)
  }

  /** The types that set_type accepts. */
  predicate Accepted(t: nat) { t in {0, 1, 2, 3, 4, 8} }

  lemma ActiveBit(regs: Regs, det: nat, pin: nat)
    requires det in DETECTORS
    ensures det in Active(regs, pin) <==> PinBit(regs, det, pin)
  {
    hide Bit, Rd;
  }

  lemma TypeBits(t: nat)
    requires Accepted(t)
    ensures Bit(t, 0) == (t == 1 || t == 3) && Bit(t, 1) == (t == 2 || t == 3)
    ensures Bit(t, 2) == (t == 4) && Bit(t, 3) == (t == 8)
  {
    assert Bit(t, 1) == Bit(t / 2, 0) && Bit(t, 2) == Bit(t / 2 / 2, 0);
    assert Bit(t, 3) == Bit(t / 2, 2) == Bit(t / 2 / 2, 1) == Bit(t / 2 / 2 / 2, 0);
  }

  /** The detectors of a type latch exactly what the type asks for. */
  lemma DetectorsMatch(regs: Regs, pin: nat, t: nat, was: bool, now: bool)
    requires Accepted(t) && Active(regs, pin) == Wanted(t)
    ensures Latches(regs, pin, was, now) <==> Due(t, was, now)
  {
    WantedTypes();
    TypeBits(t);
    hide Active, Wanted, PinBit, Bit;
    ActiveBit(regs, 0x4c, pin);
    ActiveBit(regs, 0x58, pin);
    ActiveBit(regs, 0x64, pin);
    ActiveBit(regs, 0x70, pin);
  }

  // ---- Whole runs ----

  /** The last accepted type that was given to the pin. */
  function TypeAfter(was: nat, ops: seq<Op>, pin: nat): nat
    decreases |ops|
  {
    if ops == [] then was
    else
      var op := ops[|ops| - 1];
      if op.OpSetType? && op.pin == pin && Accepted(op.t) then op.t else TypeAfter(was, ops[..|ops| - 1], pin)
  }

  /** The last enable or disable of the pin decides. */
  predicate EnabledAfter(was: bool, ops: seq<Op>, pin: nat)
    decreases |ops|
  {
    if ops == [] then was
    else
      var op := ops[|ops| - 1];
      if (op.OpEnable? || op.OpDisable?) && op.pin == pin then op.OpEnable?
      else EnabledAfter(was, ops[..|ops| - 1], pin)
  }

  lemma {:induction false} RunSnoc(s: Pc, ops: seq<Op>, op: Op)
    requires WellFormed(s) && ValidOp(op) && forall o :: o in ops ==> ValidOp(o)
    ensures Run(s, ops + [op]) == Step(Run(s, ops), op)
    decreases |ops|
  {
    hide Step, ValidOp;
    if ops == [] {
      assert ([] + [op])[1..] == [];
    } else {
      assert ops[0] in ops && forall o :: o in ops[1..] ==> o in ops;
      assert (ops + [op])[1..] == ops[1..] + [op];
      RunSnoc(Step(s, ops[0]), ops[1..], op);
    }
  }

  lemma RunLast(s: Pc, ops: seq<Op>)
    requires WellFormed(s) && ops != [] && forall op :: op in ops ==> ValidOp(op)
    ensures ValidOp(ops[|ops| - 1]) && forall op :: op in ops[..|ops| - 1] ==> ValidOp(op)
    ensures Run(s, ops) == Step(Run(s, ops[..|ops| - 1]), ops[|ops| - 1])
  {
    hide Run, Step, ValidOp;
    var front, last := ops[..|ops| - 1], ops[|ops| - 1];
    assert ops == front + [last] && last in ops;
    forall op | op in front ensures op in ops {}
    RunSnoc(s, front, last);
  }

  lemma SetTypeRecords(s: Pc, pin: nat, t: nat)
    requires Agrees(s) && pin < NUM_GPIOS
    ensures var (r, ret) := SetType(s, pin, t);
            && r.irqType == (if Accepted(t) then s.irqType[pin := t] else s.irqType)
            && (ret == Done <==> Accepted(t))
  {
    assert ValidType(t) <==> Accepted(t);
    if Enabled(s, pin) {
      if ValidType(t) {
        assert ValidType(s.irqType[pin]) && Active(s.regs, pin) == Wanted(s.irqType[pin]);
        SetTypeEnabledEffect(s, pin, t);
      } else {
        InvalidType(s, pin, t);
      }
      hide SetTypeEnabled, Active, Wanted, OthersKept, And, Bit;
    }
  }

  lemma StepType(s: Pc, op: Op, p: nat)
    requires Agrees(s) && ValidOp(op) && p < NUM_GPIOS
    ensures Step(s, op).irqType[p] ==
              if op.OpSetType? && op.pin == p && Accepted(op.t) then op.t else s.irqType[p]
  {
    hide Config, HwWrite, Insert, Field, Or, AndNot, BIT, SetType, Agrees, Bit;
    WellFormedOf(s);
    if op.OpSetType? { SetTypeRecords(s, op.pin, op.t); }
  }

  lemma WellFormedOf(s: Pc)
    requires Agrees(s)
    ensures WellFormed(s)
  {
    hide Active, Wanted, Enabled;
  }

  lemma {:induction false} RunRecords(s: Pc, ops: seq<Op>, p: nat)
    requires Agrees(s) && p < NUM_GPIOS && WellFormed(s) && forall op :: op in ops ==> ValidOp(op)
    ensures Run(s, ops).irqType[p] == TypeAfter(s.irqType[p], ops, p)
    ensures Enabled(Run(s, ops), p) == EnabledAfter(Enabled(s, p), ops, p)
    decreases |ops|
  {
    hide Run, Step, Enabled, Agrees, ValidOp, Accepted;
    if ops == [] {
      RunNothing(s);
    } else {
      var front, last := ops[..|ops| - 1], ops[|ops| - 1];
      RunLast(s, ops);
      RunKeeps(s, front);
      RunRecords(s, front, p);
      StepType(Run(s, front), last, p);
      StepEnabled(Run(s, front), last, p);
    }
  }

  lemma RunNothing(s: Pc)
    requires WellFormed(s)
    ensures Run(s, []) == s
  {}

  lemma AgreedDetectors(s: Pc, p: nat)
    requires Agrees(s) && p < NUM_GPIOS
    ensures Accepted(s.irqType[p])
    ensures Active(s.regs, p) == if Enabled(s, p) then Wanted(s.irqType[p]) else {}
  {
    hide Active, Wanted, Enabled;
  }

  /** After any run of calls for any pins, the controller latches an event for a pin exactly when the last
      enable or disable of the pin was an enable and its level does what the last accepted type asks for. */
  lemma RunLatches(s: Pc, ops: seq<Op>, p: nat, was: bool, now: bool)
    requires Agrees(s) && WellFormed(s) && p < NUM_GPIOS && forall op :: op in ops ==> ValidOp(op)
    ensures Latches(Run(s, ops).regs, p, was, now) <==>
              EnabledAfter(Enabled(s, p), ops, p) && Due(TypeAfter(s.irqType[p], ops, p), was, now)
  {
    hide Run, Agrees, Enabled, EnabledAfter, TypeAfter, Due, Latches, Active, Wanted, Accepted, ValidOp;
    RunKeeps(s, ops);
    RunRecords(s, ops, p);
    var r := Run(s, ops);
    AgreedDetectors(r, p);
    if Enabled(r, p) {
      DetectorsMatch(r.regs, p, r.irqType[p], was, now);
    } else {
      NothingLatches(r.regs, p, was, now);
    }
  }

  lemma NothingLatches(regs: Regs, p: nat, was: bool, now: bool)
    requires Active(regs, p) == {}
    ensures !Latches(regs, p, was, now)
  {
    hide Active, PinBit;
    ActiveBit(regs, 0x4c, p);
    ActiveBit(regs, 0x58, p);
    ActiveBit(regs, 0x64, p);
    ActiveBit(regs, 0x70, p);
  }

  /** The latched events are in 0x40, where the demultiplexer looks for them. */
  lemma PendingBit(s: Pc, p: nat)
    ensures Pending(s, p) <==> PinBit(s.regs, 0x40, p)
  {
    hide Bit, Rd;
  }

  /** Disabling first switches the detectors of the pin off, so that nothing more can be latched for it, and
      then, with its last write, clears what was latched. */
  lemma DisableQuiets(s: Pc, pin: nat, was: bool, now: bool)
    requires Agrees(s) && WellFormed(s) && pin < NUM_GPIOS
    ensures var off := Config(s, pin, false);
            && !Latches(off.regs, pin, was, now)
            && Disable(s, pin).writes == off.writes + [Write(0x40 + 4 * (pin / 32), BIT(pin % 32))]
            && !Pending(Disable(s, pin), pin)
  {
    ConfigEffect(s, pin, false) by { hide *; }
    AgreedDetectors(s, pin) by { hide *; }
    StepPending(s, OpDisable(pin), pin) by { hide *; }
    hide Config, Active, Wanted, Latches, Pending, Enabled, AndNot, BIT, Agrees;
    assert Active(Config(s, pin, false).regs, pin) == {};
    NothingLatches(Config(s, pin, false).regs, pin, was, now);
  }

  // ---- Function select ----

  /** Ten pins share a register, three bits each from the lowest up: selecting a function writes the three
      bits of the pin and no other bit of any register, and nothing at all when the pin has the function. */
  lemma FselBits(s: Pc, pin: nat, f: nat, reg: nat, i: nat)
    requires pin < NUM_GPIOS && f < FSEL_COUNT && reg < GPEDS0
    ensures Fsel(s.regs, pin) == f ==> FselSet(s, pin, f).writes == s.writes
    ensures var low := 3 * (pin % 10);
            Bit(Rd(FselSet(s, pin, f).regs, reg), i) ==
              if reg == 4 * (pin / 10) && low <= i < low + 3 then Bit(f, i - low) else Bit(Rd(s.regs, reg), i)
  {
    hide Insert, Field, AndNot, Bit, Mask, And, Shr;
    Masks();
    var low, w := FselShift(pin), Rd(s.regs, FselReg(pin));
    assert low == 3 * (pin % 10) && FselReg(pin) == 4 * (pin / 10) < GPEDS0;
    var m := PutFsel(s, pin, FSEL_GPIO_IN);
    assert Rd(m.regs, FselReg(pin)) == Insert(w, FSEL_MASK, low, FSEL_GPIO_IN);
    InsertBit(w, 3, low, FSEL_GPIO_IN, i);
    InsertBit(w, 3, low, f, i);
    InsertBit(Insert(w, FSEL_MASK, low, FSEL_GPIO_IN), 3, low, f, i);
    if Fsel(s.regs, pin) == f && low <= i < low + 3 { FieldBit(w, low, i); }
  }

  lemma FieldBit(w: nat, low: nat, i: nat)
    requires low <= i < low + 3
    ensures Bit(Field(w, FSEL_MASK, low), i - low) == Bit(w, i)
  {
    hide Bit, And, Shr, Mask;
    Masks();
    assert Bit(Mask(3), i - low);
  }
}
