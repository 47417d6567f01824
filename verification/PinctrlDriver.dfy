/** The BCM2835 pin controller in its own form: an object with arrays for the types, the handlers
    and the enable bitmap, whose methods rewrite registers. Every method is tied to PinctrlSpec. */
module PinctrlDriver {
  import opened Words
  import opened Mmio
  import opened Wrappers
  import opened PinctrlSpec
  import Proofs = PinctrlProofs
  import BitScan
  import Demux = PinctrlDemux

  class Bcm2835Pinctrl {
    var regs: Regs
    const enabledIrqMap: array<nat>
    const irqType: array<nat>
    const edgeHandler: array<bool>
    const irq: seq<nat>
    /** The pins whose handlers were called, in order. */
    var dispatched: seq<nat>
    ghost var writes: seq<Write>

    ghost predicate Valid()
      reads this
    {
      && enabledIrqMap.Length == NUM_BANKS && irqType.Length == edgeHandler.Length == NUM_GPIOS
      && enabledIrqMap != irqType
      && |irq| == Demux.NUM_IRQS
    }

    ghost function Abs(): (s: Pc)
      requires Valid()
      reads this, enabledIrqMap, irqType, edgeHandler
      ensures WellFormed(s)
    {
      Pc(regs, enabledIrqMap[..], irqType[..], edgeHandler[..], writes)
    }

    /** The part of probe that puts the controller into a known state: no pin detects anything, no
        event is pending, every type is none. */
    constructor (regs: Regs, irq: seq<nat>)
      requires |irq| == Demux.NUM_IRQS
      ensures Valid() && fresh(enabledIrqMap) && fresh(irqType) && fresh(edgeHandler)
      ensures this.irq == irq && dispatched == []
      ensures Agrees(Abs())
      ensures forall p :: 0 <= p < NUM_GPIOS ==>
                !Enabled(Abs(), p) && !Demux.Pending(Abs(), p) && irqType[p] == TYPE_NONE && !edgeHandler[p]
    {
      this.regs := regs;
      this.irq := irq;
      dispatched, writes := [], [];
      enabledIrqMap := new nat[NUM_BANKS](_ => 0);
      irqType := new nat[NUM_GPIOS](_ => TYPE_NONE);
      edgeHandler := new bool[NUM_GPIOS](_ => false);
      new;
      hide Bit, HwWrite, AndNot, BIT, Cleared, Agrees, Enabled, Demux.Pending, BankRegs, SameBut;
      for i := 0 to NUM_BANKS
        invariant Valid() && dispatched == []
        invariant enabledIrqMap[..] == [0, 0]
        invariant forall p :: 0 <= p < NUM_GPIOS ==> irqType[p] == TYPE_NONE && !edgeHandler[p]
        invariant forall b :: 0 <= b < i ==> Cleared(this.regs, b)
      {
        ghost var was := this.regs;
        ClearBank(i);
        forall b | 0 <= b < i ensures Cleared(this.regs, b) { OtherBanksCleared(was, this.regs, i, b); }
      }
      ProbedIsQuiet(Abs());
    }

    /** With every bank cleared and nothing enabled, driver and hardware agree. */
    lemma ProbedIsQuiet(s: Pc)
      requires WellFormed(s) && s.enabled == [0, 0] && forall b :: 0 <= b < NUM_BANKS ==> Cleared(s.regs, b)
      requires forall p :: 0 <= p < NUM_GPIOS ==> s.irqType[p] == TYPE_NONE
      ensures Agrees(s)
      ensures forall p :: 0 <= p < NUM_GPIOS ==> !Enabled(s, p) && !Demux.Pending(s, p)
    {
      hide Bit;
      ZeroBits();
      forall p | 0 <= p < NUM_GPIOS ensures Active(s.regs, p) == {} && !Demux.Pending(s, p) && !Enabled(s, p) {
        assert Cleared(s.regs, Bank(p));
      }
    }

    static predicate Quiet(regs: Regs, bank: nat) {
      && Rd(regs, GPREN0 + bank * 4) == 0 && Rd(regs, GPFEN0 + bank * 4) == 0
      && Rd(regs, GPHEN0 + bank * 4) == 0 && Rd(regs, GPLEN0 + bank * 4) == 0
    }

    /** No detector of the bank is on and no event is pending in it. */
    static ghost predicate Cleared(regs: Regs, bank: nat) {
      && Quiet(regs, bank)
      && var events := Rd(regs, GPEDS0 + bank * 4);
         forall i: nat :: i < 32 ==> !Bit(events, i)
    }

    /** The registers of a bank that probe writes. */
    static function BankRegs(bank: nat): set<nat> {
      {GPREN0 + bank * 4, GPFEN0 + bank * 4, GPHEN0 + bank * 4, GPLEN0 + bank * 4,
       GPAREN0 + bank * 4, GPAFEN0 + bank * 4, GPEDS0 + bank * 4}
    }

    static ghost predicate SameBut(before: Regs, after: Regs, touched: set<nat>) {
      forall q {:trigger Rd(after, q)} :: q !in touched ==> Rd(after, q) == Rd(before, q)
    }

    lemma OtherBanksCleared(before: Regs, after: Regs, bank: nat, b: nat)
      requires SameBut(before, after, BankRegs(bank)) && bank < NUM_BANKS && b < bank && Cleared(before, b)
      ensures Cleared(after, b)
    {
      hide Bit;
    }

    /** The register file after the six writes that switch a bank's detectors off. */
    static function Silenced(regs: Regs, bank: nat): Regs {
      regs[GPREN0 + bank * 4 := 0][GPFEN0 + bank * 4 := 0][GPHEN0 + bank * 4 := 0][GPLEN0 + bank * 4 := 0]
          [GPAREN0 + bank * 4 := 0][GPAFEN0 + bank * 4 := 0]
    }

    lemma SilencedEffect(before: Regs, bank: nat)
      ensures Quiet(Silenced(before, bank), bank)
      ensures SameBut(before, Silenced(before, bank), BankRegs(bank))
    {}

    method ClearDetectors(bank: nat)
      requires Valid() && bank < NUM_BANKS
      modifies this`regs, this`writes
      ensures regs == Silenced(old(regs), bank)
    {
      hide AndNot;
      Wr(GPREN0 + bank * 4, 0);
      Wr(GPFEN0 + bank * 4, 0);
      Wr(GPHEN0 + bank * 4, 0);
      Wr(GPLEN0 + bank * 4, 0);
      Wr(GPAREN0 + bank * 4, 0);
      Wr(GPAFEN0 + bank * 4, 0);
    }

    lemma OneWrite(before: Regs, now: Regs, r: nat, val: nat)
      requires SameBut(before, now, {r})
      ensures SameBut(before, HwWrite(now, Write(r, val)), {r})
    {
      hide AndNot;
      var after := HwWrite(now, Write(r, val));
      forall q | q != r ensures Rd(after, q) == Rd(before, q) {
        assert Rd(after, q) == Rd(now, q);
      }
    }

    method ClearEvents(bank: nat)
      requires Valid() && bank < NUM_BANKS
      modifies this`regs, this`writes
      ensures var events := Rd(regs, GPEDS0 + bank * 4);
              forall i: nat :: i < 32 ==> !Bit(events, i)
      ensures SameBut(old(regs), regs, {GPEDS0 + bank * 4})
    {
      hide Bit, AndNot, BIT, SameBut;
      var r := GPEDS0 + bank * 4;
      var events := Rd(regs, r);
      assert SameBut(old(regs), regs, {r}) by { SameRefl(regs, {r}); }
      for offset := 0 to 32
        invariant SameBut(old(regs), regs, {r})
        invariant var now := Rd(regs, r);
                  forall i: nat :: Bit(now, i) == (i >= offset && Bit(events, i))
      {
        if Bit(events, offset) {
          OneWrite(old(regs), regs, r, BIT(offset));
          Wr(r, BIT(offset));
        }
      }
    }

    lemma SameRefl(before: Regs, touched: set<nat>)
      ensures SameBut(before, before, touched)
    {}

    method ClearBank(bank: nat)
      requires Valid() && bank < NUM_BANKS
      modifies this`regs, this`writes
      ensures Cleared(regs, bank)
      ensures SameBut(old(regs), regs, BankRegs(bank))
    {
      hide Bit, AndNot, BIT, Silenced;
      SilencedEffect(regs, bank);
      ClearDetectors(bank);
      ghost var was := regs;
      ClearEvents(bank);
      assert Quiet(regs, bank) by {
        assert Rd(regs, GPREN0 + bank * 4) == Rd(was, GPREN0 + bank * 4);
      }
    }

    method Wr(reg: nat, val: nat)
      requires Valid()
      modifies this`regs, this`writes
      ensures Abs() == Store(old(Abs()), reg, val)
      ensures regs == HwWrite(old(regs), Write(reg, val))
    {
      hide AndNot;
      regs := HwWrite(regs, Write(reg, val));
      writes := writes + [Write(reg, val)];
    }

    method GpioIrqConfigReg(reg: nat, offset: nat, enable: bool)
      requires Valid()
      modifies this`regs, this`writes
      ensures Abs() == ConfigOne(old(Abs()), reg, offset, enable)
    {
      hide Or, AndNot, BIT, HwWrite;
      var r := reg + Bank(offset) * 4;
      var value := Rd(regs, r);
      if enable {
        value := Or(value, BIT(Shift(offset)));
      } else {
        value := AndNot(value, BIT(Shift(offset)));
      }
      Wr(r, value);
    }

    method GpioIrqConfig(offset: nat, enable: bool)
      requires Valid() && offset < NUM_GPIOS
      modifies this`regs, this`writes
      ensures Abs() == Config(old(Abs()), offset, enable)
    {
      hide ConfigOne;
      var t := irqType[offset];
      ghost var s := Abs();
      OneConfig(s, offset, enable);
      if t == EDGE_RISING {
        GpioIrqConfigReg(GPREN0, offset, enable);
      } else if t == EDGE_FALLING {
        GpioIrqConfigReg(GPFEN0, offset, enable);
      } else if t == EDGE_BOTH {
        GpioIrqConfigReg(GPREN0, offset, enable);
        GpioIrqConfigReg(GPFEN0, offset, enable);
        TwoConfigs(s, GPREN0, GPFEN0, offset, enable);
      } else if t == LEVEL_HIGH {
        GpioIrqConfigReg(GPHEN0, offset, enable);
      } else if t == LEVEL_LOW {
        GpioIrqConfigReg(GPLEN0, offset, enable);
      }
    }

    lemma OneConfig(s: Pc, pin: nat, enable: bool)
      ensures forall a: nat :: ConfigAll(s, [a], pin, enable) == ConfigOne(s, a, pin, enable)
    {
      hide ConfigOne;
      forall a: nat ensures ConfigAll(s, [a], pin, enable) == ConfigOne(s, a, pin, enable) {
        assert [a][1..] == [];
      }
    }

    lemma TwoConfigs(s: Pc, a: nat, b: nat, pin: nat, enable: bool)
      ensures ConfigAll(s, [a, b], pin, enable) == ConfigOne(ConfigOne(s, a, pin, enable), b, pin, enable)
    {
      hide ConfigOne;
      var m := ConfigOne(s, a, pin, enable);
      assert [a, b][1..] == [b];
      assert ConfigAll(m, [b], pin, enable) == ConfigOne(m, b, pin, enable);
    }

    /** Every operation keeps hardware and driver in agreement. */
    lemma KeptByAll(s: Pc, op: Op)
      requires WellFormed(s) && ValidOp(op)
      ensures Agrees(s) ==> Agrees(Step(s, op))
    {
      hide Agrees, Step;
      if Agrees(s) {
        assert [op][1..] == [];
        Proofs.RunKeeps(s, [op]);
        RunOne(s, op);
      }
    }

    lemma RunOne(s: Pc, op: Op)
      requires WellFormed(s) && ValidOp(op)
      ensures Run(s, [op]) == Step(s, op)
    {
      hide Step;
      assert [op][1..] == [];
      assert Run(Step(s, op), []) == Step(s, op);
    }

    method IrqEnable(gpio: nat)
      requires Valid() && gpio < NUM_GPIOS
      modifies this`regs, this`writes, enabledIrqMap
      ensures Abs() == Enable(old(Abs()), gpio)
      ensures Agrees(old(Abs())) ==> Agrees(Abs())
    {
      KeptByAll(Abs(), OpEnable(gpio));
      hide Or, BIT, Config, Agrees;
      var bank := Bank(gpio);
      ghost var s := Abs();
      enabledIrqMap[bank] := Or(enabledIrqMap[bank], BIT(Shift(gpio)));
      assert Abs() == s.(enabled := s.enabled[bank := Or(s.enabled[bank], BIT(Shift(gpio)))]);
      GpioIrqConfig(gpio, true);
    }

    method IrqDisable(gpio: nat)
      requires Valid() && gpio < NUM_GPIOS
      modifies this`regs, this`writes, enabledIrqMap
      ensures Abs() == Disable(old(Abs()), gpio)
      ensures Agrees(old(Abs())) ==> Agrees(Abs())
    {
      KeptByAll(Abs(), OpDisable(gpio));
      hide AndNot, BIT, Config, Ack, Agrees;
      var bank := Bank(gpio);
      ghost var s := Abs();
      GpioIrqConfig(gpio, false);
      IrqAck(gpio);
      ghost var c := Abs();
      assert c.enabled == s.enabled by { DisableKeepsBitmap(s, gpio); }
      enabledIrqMap[bank] := AndNot(enabledIrqMap[bank], BIT(Shift(gpio)));
      assert Abs() == c.(enabled := s.enabled[bank := AndNot(s.enabled[bank], BIT(Shift(gpio)))]);
    }

    lemma DisableKeepsBitmap(s: Pc, gpio: nat)
      requires WellFormed(s) && gpio < NUM_GPIOS
      ensures Ack(Config(s, gpio, false), gpio).enabled == s.enabled
    {
      hide Config, HwWrite, BIT;
    }

    method IrqAck(gpio: nat)
      requires Valid() && gpio < NUM_GPIOS
      modifies this`regs, this`writes
      ensures Abs() == Ack(old(Abs()), gpio)
      ensures Agrees(old(Abs())) ==> Agrees(Abs())
    {
      KeptByAll(Abs(), OpAck(gpio));
      hide BIT, Store, Agrees;
      Wr(GPEDS0 + Bank(gpio) * 4, BIT(Shift(gpio)));
    }

    method RecordType(offset: nat, t: nat)
      requires Valid() && offset < NUM_GPIOS
      modifies irqType
      ensures Abs() == PutType(old(Abs()), offset, t)
    {
      irqType[offset] := t;
    }

    method SetTypeOfDisabled(offset: nat, t: nat) returns (ret: Ret)
      requires Valid() && offset < NUM_GPIOS
      modifies irqType
      ensures (Abs(), ret) == SetTypeDisabled(old(Abs()), offset, t)
    {
      if ValidType(t) {
        RecordType(offset, t);
        ret := Done;
      } else {
        ret := EInval;
      }
    }

    /** Only one edge of two changes: configure as if that edge were the whole type. */
    method ConfigAs(offset: nat, via: nat, enable: bool, t: nat)
      requires Valid() && offset < NUM_GPIOS
      modifies this`regs, this`writes, irqType
      ensures Abs() == ConfigVia(old(Abs()), offset, via, enable, t)
    {
      hide Config, PutType;
      RecordType(offset, via);
      GpioIrqConfig(offset, enable);
      RecordType(offset, t);
    }

    method Reconfigured(offset: nat, t: nat)
      requires Valid() && offset < NUM_GPIOS
      modifies this`regs, this`writes, irqType
      ensures Abs() == Reconfigure(old(Abs()), offset, t)
    {
      hide Config, PutType;
      GpioIrqConfig(offset, false);
      RecordType(offset, t);
      GpioIrqConfig(offset, true);
    }

    method SetTypeOfEnabled(offset: nat, t: nat) returns (ret: Ret)
      requires Valid() && offset < NUM_GPIOS
      modifies this`regs, this`writes, irqType
      ensures (Abs(), ret) == SetTypeEnabled(old(Abs()), offset, t)
    {
      hide Config, PutType, ConfigVia, Reconfigure;
      var was := irqType[offset];
      ret := Done;
      if t == TYPE_NONE {
        if was != t {
          GpioIrqConfig(offset, false);
          RecordType(offset, t);
        }
      } else if t == EDGE_RISING {
        if was == EDGE_BOTH {
          ConfigAs(offset, EDGE_FALLING, false, t);
        } else if was != t {
          Reconfigured(offset, t);
        }
      } else if t == EDGE_FALLING {
        if was == EDGE_BOTH {
          ConfigAs(offset, EDGE_RISING, false, t);
        } else if was != t {
          Reconfigured(offset, t);
        }
      } else if t == EDGE_BOTH {
        if was == EDGE_RISING {
          ConfigAs(offset, EDGE_FALLING, true, t);
        } else if was == EDGE_FALLING {
          ConfigAs(offset, EDGE_RISING, true, t);
        } else if was != t {
          Reconfigured(offset, t);
        }
      } else if t == LEVEL_HIGH || t == LEVEL_LOW {
        if was != t {
          Reconfigured(offset, t);
        }
      } else {
        ret := EInval;
      }
    }

    method IrqSetType(gpio: nat, t: nat) returns (ret: Ret)
      requires Valid() && gpio < NUM_GPIOS
      modifies this`regs, this`writes, irqType, edgeHandler
      ensures (Abs(), ret) == SetType(old(Abs()), gpio, t)
      ensures Agrees(old(Abs())) ==> Agrees(Abs())
    {
      KeptByAll(Abs(), OpSetType(gpio, t));
      hide Bit, And, SetTypeEnabled, SetTypeDisabled, Agrees;
      if Bit(enabledIrqMap[Bank(gpio)], Shift(gpio)) {
        ret := SetTypeOfEnabled(gpio, t);
      } else {
        ret := SetTypeOfDisabled(gpio, t);
      }
      ghost var r := Abs();
      edgeHandler[gpio] := And(t, EDGE_BOTH) != 0;
      assert Abs() == r.(edgeHandler := r.edgeHandler[gpio := And(t, EDGE_BOTH) != 0]);
    }

    method FselGet(pin: nat) returns (f: nat)
      requires Valid() && pin < NUM_GPIOS
      ensures f == Fsel(regs, pin) && f < FSEL_COUNT
    {
      hide Field, Bit, Mask, FselReg, FselShift;
      f := Field(Rd(regs, FselReg(pin)), FSEL_MASK, FselShift(pin));
      Masks();
      FieldInRange(Rd(regs, FselReg(pin)), 3, FselShift(pin));
    }

    method FselSetTo(pin: nat, fsel: nat)
      requires Valid() && pin < NUM_GPIOS && fsel < FSEL_COUNT
      modifies this`regs, this`writes
      ensures Abs() == FselSet(old(Abs()), pin, fsel)
      ensures Agrees(old(Abs())) ==> Agrees(Abs())
    {
      KeptByAll(Abs(), OpFsel(pin, fsel));
      hide Agrees, Or, And, AndNot, Shl, Shr, Bit, FselReg, FselShift;
      var reg, shift := FselReg(pin), FselShift(pin);
      var val := Rd(regs, reg);
      var cur := And(Shr(val, shift), FSEL_MASK);
      if cur == fsel {
        return;
      }
      if cur != FSEL_GPIO_IN && fsel != FSEL_GPIO_IN {
        val := Or(AndNot(val, Shl(FSEL_MASK, shift)), Shl(FSEL_GPIO_IN, shift));
        Wr(reg, val);
        assert Rd(regs, reg) == val by { ReadsBack(old(regs), pin, val); }
      }
      val := Or(AndNot(val, Shl(FSEL_MASK, shift)), Shl(fsel, shift));
      Wr(reg, val);
    }

    lemma ReadsBack(before: Regs, pin: nat, val: nat)
      requires pin < NUM_GPIOS
      ensures Rd(HwWrite(before, Write(FselReg(pin), val)), FselReg(pin)) == val
    {
      hide AndNot;
    }

    /** One of the calls that a pin's handler may make. */
    method Perform(op: Op)
      requires Valid() && ValidOp(op)
      modifies this`regs, this`writes, enabledIrqMap, irqType, edgeHandler
      ensures Abs() == Step(old(Abs()), op)
      ensures Agrees(old(Abs())) ==> Agrees(Abs())
    {
      hide Enable, Disable, SetType, Ack, FselSet, Agrees;
      match op {
        case OpEnable(pin) => IrqEnable(pin);
        case OpDisable(pin) => IrqDisable(pin);
        case OpSetType(pin, t) => var ret := IrqSetType(pin, t);
        case OpAck(pin) => IrqAck(pin);
        case OpFsel(pin, f) => FselSetTo(pin, f);
      }
    }

    /** generic_handle_irq: the handler of the pin runs, and makes the calls `ops`. */
    method GenericHandleIrq(gpio: nat, ops: seq<Op>)
      requires Valid() && forall op :: op in ops ==> ValidOp(op)
      modifies this`regs, this`writes, this`dispatched, enabledIrqMap, irqType, edgeHandler
      ensures Abs() == Run(old(Abs()), ops) && dispatched == old(dispatched) + [gpio]
      ensures Agrees(old(Abs())) ==> Agrees(Abs())
    {
      hide Step, Agrees, ValidOp;
      dispatched := dispatched + [gpio];
      for i := 0 to |ops|
        invariant Run(Abs(), ops[i..]) == Run(old(Abs()), ops)
        invariant dispatched == old(dispatched) + [gpio]
        invariant Agrees(old(Abs())) ==> Agrees(Abs())
      {
        assert ops[i] in ops && ops[i..][0] == ops[i] && ops[i..][1..] == ops[i + 1..];
        Perform(ops[i]);
      }
    }

    /** `react(p)` are the calls that the handler of pin `p` makes while it runs. */
    method HandleBank(bank: nat, mask: nat, react: nat -> seq<Op>)
      requires Valid() && bank < NUM_BANKS && Demux.ValidReactions(react)
      modifies this`regs, this`writes, this`dispatched, enabledIrqMap, irqType, edgeHandler
      ensures var pins := Demux.HandleBank(old(Abs()), bank, mask);
              dispatched == old(dispatched) + pins && Abs() == Demux.Reacted(old(Abs()), pins, react)
      ensures Agrees(old(Abs())) ==> Agrees(Abs())
    {
      hide And, Bit, Agrees, Run, ValidOp, Demux.ValidReactions, Demux.Reacted, BitScan.PinsOf;
      var events := Rd(regs, GPEDS0 + bank * 4);
      events := And(events, mask);
      events := And(events, enabledIrqMap[bank]);
      BitScan.PinsOfNone(events, bank);
      Demux.ReactedNone(Abs(), react);
      for offset := 0 to 32
        invariant dispatched == old(dispatched) + BitScan.PinsOf(events, bank, offset)
        invariant Abs() == Demux.Reacted(old(Abs()), BitScan.PinsOf(events, bank, offset), react)
        invariant Agrees(old(Abs())) ==> Agrees(Abs())
      {
        ghost var pins := BitScan.PinsOf(events, bank, offset);
        BitScan.PinsOfNext(events, bank, offset);
        if Bit(events, offset) {
          var gpio := 32 * bank + offset;
          Demux.ReactedSnoc(old(Abs()), pins, gpio, react);
          GenericHandleIrq(gpio, react(gpio));
        }
      }
    }

    /** The chained handler. It is only ever installed for the interrupts in `irq`. */
    method IrqHandler(hostIrq: nat, react: nat -> seq<Op>)
      requires Valid() && hostIrq in irq && Demux.ValidReactions(react)
      modifies this`regs, this`writes, this`dispatched, enabledIrqMap, irqType, edgeHandler
      ensures var group := Demux.FindGroup(irq, hostIrq).value;
              var pins := Demux.Dispatch(Demux.Serving(old(Abs()), group, react), group);
              dispatched == old(dispatched) + pins && Abs() == Demux.Reacted(old(Abs()), pins, react)
      ensures Agrees(old(Abs())) ==> Agrees(Abs())
    {
      hide Demux.HandleBank, Demux.Reacted, Demux.ValidReactions, Agrees;
      assert irq == irq[..|irq|];
      var group := 0;
      while group < |irq| && irq[group] != hostIrq
        invariant group <= |irq| && hostIrq !in irq[..group]
      {
        assert irq[..group + 1] == irq[..group] + [irq[group]];
        group := group + 1;
      }
      FindsFirst(irq, hostIrq, group);
      ghost var s := Abs();
      if group == 0 {
        HandleBank(0, 0x0fffffff, react);
      } else if group == 1 {
        HandleBank(0, 0xf0000000, react);
        ghost var first := Demux.HandleBank(s, 0, 0xf0000000);
        ghost var second := Demux.HandleBank(Abs(), 1, 0x00003fff);
        HandleBank(1, 0x00003fff, react);
        Demux.ReactedConcat(s, first, second, react);
      } else {
        HandleBank(1, 0x003fc000, react);
      }
    }

    lemma {:induction false} FindsFirst(irqs: seq<nat>, hostIrq: nat, g: nat)
      requires g < |irqs| && irqs[g] == hostIrq && hostIrq !in irqs[..g]
      ensures Demux.FindGroup(irqs, hostIrq) == Some(g)
      decreases g
    {
      if g > 0 {
        assert irqs[0] in irqs[..g];
        assert irqs[1..][..g - 1] == irqs[..g][1..];
        FindsFirst(irqs[1..], hostIrq, g - 1);
      }
    }
  }
}
