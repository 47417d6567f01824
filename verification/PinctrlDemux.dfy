/** Three host interrupts serve the 54 pins of the BCM2835: which pins each of them dispatches. */
module PinctrlDemux {
  import opened BitScan
  import opened Words
  import opened Mmio
  import opened Wrappers
  import opened PinctrlSpec
  import opened PinctrlProofs

  const NUM_IRQS: nat := 3

  function Events(s: Pc, bank: nat, mask: nat): nat
    requires WellFormed(s) && bank < NUM_BANKS
  {
    And(And(Rd(s.regs, GPEDS0 + bank * 4), mask), s.enabled[bank])
  }

  /** bcm2835_gpio_irq_handle_bank */
  function HandleBank(s: Pc, bank: nat, mask: nat): seq<nat>
    requires WellFormed(s) && bank < NUM_BANKS
  {
    PinsOf(Events(s, bank, mask), bank, 32)
  }

  /** The switch of bcm2835_gpio_irq_handler; `at(b)` is the state in which bank `b` is read. */
  function Dispatch(at: nat -> Pc, group: nat): seq<nat>
    requires WellFormed(at(0)) && WellFormed(at(1))
  {
    if group == 0 then HandleBank(at(0), 0, 0x0fffffff)
    else if group == 1 then HandleBank(at(0), 0, 0xf0000000) + HandleBank(at(1), 1, 0x00003fff)
    else if group == 2 then HandleBank(at(1), 1, 0x003fc000)
    else []
  }

  /** The first group whose host interrupt is `irq`. */
  function FindGroup(irqs: seq<nat>, irq: nat): (r: Option<nat>)
    ensures r.Some? ==> r.value < |irqs| && irqs[r.value] == irq && forall j :: 0 <= j < r.value ==> irqs[j] != irq
    ensures r.None? <==> irq !in irqs
  {
    if irqs == [] then None
    else if irqs[0] == irq then Some(0)
    else
      match FindGroup(irqs[1..], irq)
      case None => None
      case Some(g) => Some(g + 1)
  }

  // ---- What it means ----

  /** IRQ0 covers GPIOs 0-27, IRQ1 28-45 and IRQ2 46-53. */
  function GroupOf(pin: nat): nat {
    if pin < 28 then 0 else if pin < 46 then 1 else 2
  }

  predicate Pending(s: Pc, pin: nat) {
    Bit(Rd(s.regs, GPEDS0 + Bank(pin) * 4), Shift(pin))
  }

  lemma MaskBits(i: nat)
    ensures Bit(0x0fffffff, i) <==> i < 28
    ensures Bit(0xf0000000, i) <==> 28 <= i < 32
    ensures Bit(0x00003fff, i) <==> i < 14
    ensures Bit(0x003fc000, i) <==> 14 <= i < 22
  {
    hide Bit, Mask, Shl;
    MaskValues();
  }

  lemma MaskValues()
    ensures 0x0fffffff == Mask(28) && 0x00003fff == Mask(14)
    ensures 0xf0000000 == Shl(Mask(4), 28) && 0x003fc000 == Shl(Mask(8), 14)
  {
    hide Bit, Mask, Shl;
    MaskValue(4);
    MaskValue(8);
    MaskValue(14);
    MaskValue(28);
    ShlValue(Mask(4), 28);
    ShlValue(Mask(8), 14);
    Powers();
    PowStep(0);
    PowStep(8);
    assert Pow2(13) == 2 * Pow2(12) && Pow2(14) == 2 * Pow2(13);
    PowStep(16);
    PowStep(20);
    PowStep(24);
  }

  lemma HandleBankExact(s: Pc, bank: nat, mask: nat, p: nat)
    requires WellFormed(s) && bank < NUM_BANKS
    ensures p in HandleBank(s, bank, mask) <==>
              Bank(p) == bank && Bit(mask, Shift(p)) && Pending(s, p) && Bit(s.enabled[bank], Shift(p))
    ensures Increasing(HandleBank(s, bank, mask))
    ensures forall q :: q in HandleBank(s, bank, mask) ==> 32 * bank <= q < 32 * bank + 32
  {
    hide Bit, And, PinsOf;
    PinsOfExact(Events(s, bank, mask), bank, 32);
    assert p == 32 * Bank(p) + Shift(p);
  }

  /** A group dispatches each pin of its own that is pending and enabled when its bank is read, once,
      and no other pin. */
  lemma DispatchExact(at: nat -> Pc, group: nat, p: nat)
    requires WellFormed(at(0)) && WellFormed(at(1)) && group < NUM_IRQS
    ensures p in Dispatch(at, group) <==>
              p < NUM_GPIOS && GroupOf(p) == group && Pending(at(Bank(p)), p) && Enabled(at(Bank(p)), p)
    ensures Increasing(Dispatch(at, group))
  {
    hide Bit, HandleBank, Pending;
    MaskBits(Shift(p));
    assert p == 32 * Bank(p) + Shift(p);
    HandleBankExact(at(0), 0, 0x0fffffff, p);
    HandleBankExact(at(0), 0, 0xf0000000, p);
    HandleBankExact(at(1), 1, 0x00003fff, p);
    HandleBankExact(at(1), 1, 0x003fc000, p);
    if group == 1 {
      IncreasingConcat(HandleBank(at(0), 0, 0xf0000000), HandleBank(at(1), 1, 0x00003fff), 32)
        by { hide *; hide Increasing; }
    }
  }

  /** Every pin belongs to the mask of exactly one group. */
  predicate InMask(group: nat, pin: nat) {
    (group == 0 && Bank(pin) == 0 && Bit(0x0fffffff, Shift(pin)))
    || (group == 1 && Bank(pin) == 0 && Bit(0xf0000000, Shift(pin)))
    || (group == 1 && Bank(pin) == 1 && Bit(0x00003fff, Shift(pin)))
    || (group == 2 && Bank(pin) == 1 && Bit(0x003fc000, Shift(pin)))
  }

  lemma MasksPartition(group: nat, pin: nat)
    ensures InMask(group, pin) <==> pin < NUM_GPIOS && group == GroupOf(pin)
  {
    hide Bit;
    MaskBits(Shift(pin));
    assert pin == 32 * Bank(pin) + Shift(pin);
  }

  // ---- Pending events ----

  lemma ConfigOneQuiet(s: Pc, det: nat, pin: nat, enable: bool, bank: nat)
    requires det in DETECTORS && bank < NUM_BANKS && pin < NUM_GPIOS
    ensures Rd(ConfigOne(s, det, pin, enable).regs, GPEDS0 + bank * 4) == Rd(s.regs, GPEDS0 + bank * 4)
  {
    hide Or, AndNot, BIT;
  }

  lemma {:induction false} ConfigAllQuiet(s: Pc, dets: seq<nat>, pin: nat, enable: bool, bank: nat)
    requires bank < NUM_BANKS && pin < NUM_GPIOS && forall d :: d in dets ==> d in DETECTORS
    ensures Rd(ConfigAll(s, dets, pin, enable).regs, GPEDS0 + bank * 4) == Rd(s.regs, GPEDS0 + bank * 4)
    decreases |dets|
  {
    hide ConfigOne, Rd;
    if dets != [] {
      ConfigOneQuiet(s, dets[0], pin, enable, bank);
      ConfigAllQuiet(ConfigOne(s, dets[0], pin, enable), dets[1..], pin, enable, bank);
    }
  }

  lemma ConfigQuiet(s: Pc, pin: nat, enable: bool, p: nat)
    requires WellFormed(s) && pin < NUM_GPIOS && p < NUM_GPIOS
    ensures Pending(Config(s, pin, enable), p) == Pending(s, p)
  {
    hide ConfigAll, Rd, Bit;
    ConfigAllQuiet(s, Detects(s.irqType[pin]), pin, enable, Bank(p));
  }

  lemma AckPending(s: Pc, pin: nat, p: nat)
    requires pin < NUM_GPIOS && p < NUM_GPIOS
    ensures Pending(Ack(s, pin), p) == (p != pin && Pending(s, p))
  {
    hide AndNot, BIT, Bit;
    assert p == 32 * Bank(p) + Shift(p) && pin == 32 * Bank(pin) + Shift(pin);
  }

  lemma FselQuiet(s: Pc, pin: nat, f: nat, p: nat)
    requires pin < NUM_GPIOS && p < NUM_GPIOS
    ensures Pending(FselSet(s, pin, f), p) == Pending(s, p)
  {
    hide Insert, Field, AndNot, Bit;
  }

  lemma SetTypeQuiet(s: Pc, pin: nat, t: nat, p: nat)
    requires WellFormed(s) && pin < NUM_GPIOS && p < NUM_GPIOS
    ensures Pending(SetType(s, pin, t).0, p) == Pending(s, p)
  {
    hide Config, Pending, And, Bit;
    var c := Config(s, pin, false);
    ConfigQuiet(s, pin, false, p);
    SameEvents(c, PutType(c, pin, t), p);
    ConfigQuiet(PutType(c, pin, t), pin, true, p);
    SameEvents(s, PutType(s, pin, t), p);
    ViaQuiet(s, pin, EDGE_RISING, false, t, p);
    ViaQuiet(s, pin, EDGE_FALLING, false, t, p);
    ViaQuiet(s, pin, EDGE_RISING, true, t, p);
    ViaQuiet(s, pin, EDGE_FALLING, true, t, p);
    var r := if Enabled(s, pin) then SetTypeEnabled(s, pin, t).0 else SetTypeDisabled(s, pin, t).0;
    SameEvents(r, SetType(s, pin, t).0, p) by { hide SetTypeEnabled, SetTypeDisabled; }
  }

  lemma ViaQuiet(s: Pc, pin: nat, via: nat, enable: bool, t: nat, p: nat)
    requires WellFormed(s) && pin < NUM_GPIOS && p < NUM_GPIOS
    ensures Pending(ConfigVia(s, pin, via, enable, t), p) == Pending(s, p)
  {
    hide Config, Pending;
    var m := PutType(s, pin, via);
    SameEvents(s, m, p);
    ConfigQuiet(m, pin, enable, p);
    SameEvents(Config(m, pin, enable), ConfigVia(s, pin, via, enable, t), p);
  }

  lemma SameEvents(s: Pc, r: Pc, p: nat)
    requires r.regs == s.regs
    ensures Pending(r, p) == Pending(s, p)
  {
    hide Rd, Bit;
  }

  /** An operation takes back exactly the pending event of its own pin, and only when it disables
      that pin or acknowledges its event. */
  lemma StepPending(s: Pc, op: Op, p: nat)
    requires WellFormed(s) && ValidOp(op) && p < NUM_GPIOS
    ensures Pending(Step(s, op), p) == (Pending(s, p) && !(op.pin == p && (op.OpDisable? || op.OpAck?)))
  {
    hide Pending, Config, Ack, SetType, FselSet, Or, AndNot, BIT, Bit;
    match op {
      case OpEnable(pin) =>
        var b := Bank(pin);
        var m := s.(enabled := s.enabled[b := Or(s.enabled[b], BIT(Shift(pin)))]);
        SameEvents(s, m, p);
        ConfigQuiet(m, pin, true, p);
      case OpDisable(pin) =>
        ConfigQuiet(s, pin, false, p);
        AckPending(Config(s, pin, false), pin, p);
        SameEvents(Ack(Config(s, pin, false), pin), Disable(s, pin), p);
      case OpSetType(pin, t) => SetTypeQuiet(s, pin, t, p);
      case OpAck(pin) => AckPending(s, pin, p);
      case OpFsel(pin, f) => FselQuiet(s, pin, f, p);
    }
  }

  // ---- What the handlers of the pins do meanwhile ----

  /** `react(p)` are the calls into the driver that the handler of pin `p` makes. */
  ghost predicate ValidReactions(react: nat -> seq<Op>) {
    forall p: nat, op :: op in react(p) ==> ValidOp(op)
  }

  /** The state after the handlers of `pins` have run, one after the other. */
  function Reacted(s: Pc, pins: seq<nat>, react: nat -> seq<Op>): (r: Pc)
    requires WellFormed(s) && ValidReactions(react)
    ensures WellFormed(r)
    decreases |pins|
  {
    if pins == [] then s else Run(Reacted(s, pins[..|pins| - 1], react), react(pins[|pins| - 1]))
  }

  /** The state in which each bank is read: bank 1 of group 1 after the handlers of its bank 0. */
  function Serving(s: Pc, group: nat, react: nat -> seq<Op>): (at: nat -> Pc)
    requires WellFormed(s) && ValidReactions(react)
    ensures WellFormed(at(0)) && WellFormed(at(1))
  {
    var later := if group == 1 then Reacted(s, HandleBank(s, 0, 0xf0000000), react) else s;
    (b: nat) => if b == 0 then s else later
  }

  lemma ReactedNone(s: Pc, react: nat -> seq<Op>)
    requires WellFormed(s) && ValidReactions(react)
    ensures Reacted(s, [], react) == s
  {}

  lemma ReactedSnoc(s: Pc, pins: seq<nat>, q: nat, react: nat -> seq<Op>)
    requires WellFormed(s) && ValidReactions(react)
    ensures forall op :: op in react(q) ==> ValidOp(op)
    ensures Reacted(s, pins + [q], react) == Run(Reacted(s, pins, react), react(q))
  {
    hide Run, ValidOp;
    assert (pins + [q])[..|pins + [q]| - 1] == pins;
  }

  lemma {:induction false} ReactedConcat(s: Pc, a: seq<nat>, b: seq<nat>, react: nat -> seq<Op>)
    requires WellFormed(s) && ValidReactions(react)
    ensures Reacted(s, a + b, react) == Reacted(Reacted(s, a, react), b, react)
    decreases |b|
  {
    hide Run, ValidReactions;
    if b == [] {
      assert a + b == a;
    } else {
      assert (a + b)[..|a + b| - 1] == a + b[..|b| - 1];
      ReactedConcat(s, a, b[..|b| - 1], react);
    }
  }

  /** Operations on other pins leave a pin pending or not, and enabled or not. */
  lemma {:induction false} OthersDoNotDisturb(s: Pc, ops: seq<Op>, p: nat)
    requires WellFormed(s) && p < NUM_GPIOS && forall op :: op in ops ==> ValidOp(op) && op.pin != p
    ensures Pending(Run(s, ops), p) == Pending(s, p) && Enabled(Run(s, ops), p) == Enabled(s, p)
    decreases |ops|
  {
    hide Pending, Enabled, Step;
    if ops != [] {
      assert ops[0] in ops && forall op :: op in ops[1..] ==> op in ops;
      StepPending(s, ops[0], p);
      StepEnabled(s, ops[0], p);
      OthersDoNotDisturb(Step(s, ops[0]), ops[1..], p);
    }
  }

  /** Only enable and disable change the enable map, and only for their own pin. */
  lemma StepEnabled(s: Pc, op: Op, p: nat)
    requires WellFormed(s) && ValidOp(op) && p < NUM_GPIOS
    ensures Enabled(Step(s, op), p) ==
              if op.pin == p && op.OpEnable? then true
              else if op.pin == p && op.OpDisable? then false else Enabled(s, p)
  {
    hide Config, HwWrite, Insert, Field, And, Or, AndNot, BIT, Bit;
    match op {
      case OpEnable(pin) => EnableBits(s, pin, p);
      case OpDisable(pin) => EnableBits(s, pin, p);
      case _ =>
    }
  }

  lemma {:induction false} ReactedQuiet(s: Pc, pins: seq<nat>, react: nat -> seq<Op>, p: nat)
    requires WellFormed(s) && ValidReactions(react) && p < NUM_GPIOS && p !in pins
    requires forall q: nat, op :: op in react(q) ==> op.pin == q
    ensures var r := Reacted(s, pins, react); Pending(r, p) == Pending(s, p) && Enabled(r, p) == Enabled(s, p)
    decreases |pins|
  {
    hide Pending, Enabled, Run, ValidOp;
    if pins != [] {
      var front, q := pins[..|pins| - 1], pins[|pins| - 1];
      assert q in pins && forall x :: x in front ==> x in pins;
      ReactedQuiet(s, front, react, p);
      OthersDoNotDisturb(Reacted(s, front, react), react(q), p);
    }
  }

  /** While each handler keeps to its own pin, whatever it does there, a host interrupt calls exactly
      the handlers of the pins of its group that were pending and enabled when it arrived, once each. */
  lemma DispatchUndisturbed(s: Pc, group: nat, react: nat -> seq<Op>, p: nat)
    requires WellFormed(s) && ValidReactions(react) && group < NUM_IRQS
    requires forall q: nat, op :: op in react(q) ==> op.pin == q
    ensures p in Dispatch(Serving(s, group, react), group) <==>
              p < NUM_GPIOS && GroupOf(p) == group && Pending(s, p) && Enabled(s, p)
    ensures Increasing(Dispatch(Serving(s, group, react), group))
  {
    hide Pending, Enabled, Reacted, HandleBank, Dispatch, Increasing, ValidReactions;
    DispatchExact(Serving(s, group, react), group, p);
    if p < NUM_GPIOS && Bank(p) == 1 && group == 1 {
      var pins := HandleBank(s, 0, 0xf0000000);
      HandleBankExact(s, 0, 0xf0000000, p);
      ReactedQuiet(s, pins, react, p);
    }
  }
}
