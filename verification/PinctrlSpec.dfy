/** Interrupt types and pin functions of the BCM2835 pin controller: pinctrl-bcm2835.c.

    The state is the driver's per-pin type and handler, its enable bitmap and the register file.
    Each locked section of the driver is one operation here. */
module PinctrlSpec {
  import opened Words
  import opened Mmio

  const NUM_GPIOS: nat := 54
  const NUM_BANKS: nat := 2

  const GPEDS0: nat := 0x40
  const GPREN0: nat := 0x4c
  const GPFEN0: nat := 0x58
  const GPHEN0: nat := 0x64
  const GPLEN0: nat := 0x70
  const GPAREN0: nat := 0x7c
  const GPAFEN0: nat := 0x88

  const TYPE_NONE: nat := 0
  const EDGE_RISING: nat := 1
  const EDGE_FALLING: nat := 2
  const EDGE_BOTH: nat := 3
  const LEVEL_HIGH: nat := 4
  const LEVEL_LOW: nat := 8

  datatype Ret = Done | EInval

  datatype Pc = Pc(
    regs: Regs, enabled: seq<nat>, irqType: seq<nat>, edgeHandler: seq<bool>, writes: seq<Write>)

  predicate WellFormed(s: Pc) {
    |s.enabled| == NUM_BANKS && |s.irqType| == |s.edgeHandler| == NUM_GPIOS
  }

  function Bank(pin: nat): nat { pin / 32 }
  function Shift(pin: nat): nat { pin % 32 }

  /** The event registers clear the bits that are written as 1; the others store the word. */
  function HwWrite(regs: Regs, w: Write): Regs {
    if w.reg == GPEDS0 || w.reg == GPEDS0 + 4
    then Wr(regs, w.reg, AndNot(Rd(regs, w.reg), w.val))
    else Wr(regs, w.reg, w.val)
  }

  function Store(s: Pc, reg: nat, val: nat): Pc {
    s.(regs := HwWrite(s.regs, Write(reg, val)), writes := s.writes + [Write(reg, val)])
  }

  /** __bcm2835_gpio_irq_config */
  function ConfigOne(s: Pc, reg: nat, pin: nat, enable: bool): Pc {
    var r := reg + Bank(pin) * 4;
    var value := Rd(s.regs, r);
    Store(s, r, if enable then Or(value, BIT(Shift(pin))) else AndNot(value, BIT(Shift(pin))))
  }

  /** The detect registers of an interrupt type, in the order they are written. */
  function Detects(t: nat): seq<nat> {
    if t == EDGE_RISING then [GPREN0]
    else if t == EDGE_FALLING then [GPFEN0]
    else if t == EDGE_BOTH then [GPREN0, GPFEN0]
    else if t == LEVEL_HIGH then [GPHEN0]
    else if t == LEVEL_LOW then [GPLEN0]
    else []
  }

  function ConfigAll(s: Pc, dets: seq<nat>, pin: nat, enable: bool): (r: Pc)
    ensures r == s.(regs := r.regs, writes := r.writes)
    decreases |dets|
  {
    if dets == [] then s else ConfigAll(ConfigOne(s, dets[0], pin, enable), dets[1..], pin, enable)
  }

  /** bcm2835_gpio_irq_config */
  function Config(s: Pc, pin: nat, enable: bool): (r: Pc)
    requires WellFormed(s) && pin < NUM_GPIOS
    ensures r == s.(regs := r.regs, writes := r.writes)
  {
    ConfigAll(s, Detects(s.irqType[pin]), pin, enable)
  }

  predicate Enabled(s: Pc, pin: nat)
    requires WellFormed(s) && pin < NUM_GPIOS
  {
    Bit(s.enabled[Bank(pin)], Shift(pin))
  }

  function Enable(s: Pc, pin: nat): (r: Pc)
    requires WellFormed(s) && pin < NUM_GPIOS
    ensures WellFormed(r)
  {
    var b := Bank(pin);
    Config(s.(enabled := s.enabled[b := Or(s.enabled[b], BIT(Shift(pin)))]), pin, true)
  }

  function Disable(s: Pc, pin: nat): (r: Pc)
    requires WellFormed(s) && pin < NUM_GPIOS
    ensures WellFormed(r)
  {
    var b := Bank(pin);
    var c := Ack(Config(s, pin, false), pin);
    c.(enabled := s.enabled[b := AndNot(s.enabled[b], BIT(Shift(pin)))])
  }

  function Ack(s: Pc, pin: nat): Pc {
    Store(s, GPEDS0 + Bank(pin) * 4, BIT(Shift(pin)))
  }

  function PutType(s: Pc, pin: nat, t: nat): (r: Pc)
    requires WellFormed(s) && pin < NUM_GPIOS
    ensures WellFormed(r)
  {
    s.(irqType := s.irqType[pin := t])
  }

  predicate ValidType(t: nat) {
    t == TYPE_NONE || t == EDGE_RISING || t == EDGE_FALLING || t == EDGE_BOTH || t == LEVEL_HIGH || t == LEVEL_LOW
  }

  /** __bcm2835_gpio_irq_set_type_disabled */
  function SetTypeDisabled(s: Pc, pin: nat, t: nat): (r: (Pc, Ret))
    requires WellFormed(s) && pin < NUM_GPIOS
    ensures WellFormed(r.0)
  {
    if ValidType(t) then (PutType(s, pin, t), Done) else (s, EInval)
  }

  /** Reconfigures as if the pin had type `via`, then records `t`. */
  function ConfigVia(s: Pc, pin: nat, via: nat, enable: bool, t: nat): (r: Pc)
    requires WellFormed(s) && pin < NUM_GPIOS
    ensures WellFormed(r)
  {
    PutType(Config(PutType(s, pin, via), pin, enable), pin, t)
  }

  /** Switches the old type off and the new one on. */
  function Reconfigure(s: Pc, pin: nat, t: nat): (r: Pc)
    requires WellFormed(s) && pin < NUM_GPIOS
    ensures WellFormed(r)
  {
    Config(PutType(Config(s, pin, false), pin, t), pin, true)
  }

  /** __bcm2835_gpio_irq_set_type_enabled */
  function SetTypeEnabled(s: Pc, pin: nat, t: nat): (r: (Pc, Ret))
    requires WellFormed(s) && pin < NUM_GPIOS
    ensures WellFormed(r.0)
  {
    var was := s.irqType[pin];
    if t == TYPE_NONE then
      (if was != t then PutType(Config(s, pin, false), pin, t) else s, Done)
    else if t == EDGE_RISING then
      (if was == EDGE_BOTH then ConfigVia(s, pin, EDGE_FALLING, false, t)
       else if was != t then Reconfigure(s, pin, t) else s, Done)
    else if t == EDGE_FALLING then
      (if was == EDGE_BOTH then ConfigVia(s, pin, EDGE_RISING, false, t)
       else if was != t then Reconfigure(s, pin, t) else s, Done)
    else if t == EDGE_BOTH then
      (if was == EDGE_RISING then ConfigVia(s, pin, EDGE_FALLING, true, t)
       else if was == EDGE_FALLING then ConfigVia(s, pin, EDGE_RISING, true, t)
       else if was != t then Reconfigure(s, pin, t) else s, Done)
    else if t == LEVEL_HIGH || t == LEVEL_LOW then
      (if was != t then Reconfigure(s, pin, t) else s, Done)
    else (s, EInval)
  }

  /** bcm2835_gpio_irq_set_type; the handler is chosen even when the type is refused. */
  function SetType(s: Pc, pin: nat, t: nat): (r: (Pc, Ret))
    requires WellFormed(s) && pin < NUM_GPIOS
    ensures WellFormed(r.0)
  {
    var (r, ret) := if Enabled(s, pin) then SetTypeEnabled(s, pin, t) else SetTypeDisabled(s, pin, t);
    (r.(edgeHandler := r.edgeHandler[pin := And(t, EDGE_BOTH) != 0]), ret)
  }

  // ---- Function select: ten 3-bit fields a register ----

  const GPFSEL0: nat := 0x0
  const FSEL_GPIO_IN: nat := 0
  const FSEL_COUNT: nat := 8
  const FSEL_MASK: nat := 7

  function FselReg(pin: nat): nat { GPFSEL0 + pin / 10 * 4 }
  function FselShift(pin: nat): nat { pin % 10 * 3 }

  /** bcm2835_pinctrl_fsel_get */
  function Fsel(regs: Regs, pin: nat): nat {
    Field(Rd(regs, FselReg(pin)), FSEL_MASK, FselShift(pin))
  }

  function PutFsel(s: Pc, pin: nat, f: nat): Pc {
    Store(s, FselReg(pin), Insert(Rd(s.regs, FselReg(pin)), FSEL_MASK, FselShift(pin), f))
  }

  /** bcm2835_pinctrl_fsel_set */
  function FselSet(s: Pc, pin: nat, f: nat): Pc {
    var cur := Fsel(s.regs, pin);
    if cur == f then s
    else if cur != FSEL_GPIO_IN && f != FSEL_GPIO_IN then PutFsel(PutFsel(s, pin, FSEL_GPIO_IN), pin, f)
    else PutFsel(s, pin, f)
  }

  // ---- Runs ----

  datatype Op =
    | OpEnable(pin: nat) | OpDisable(pin: nat) | OpSetType(pin: nat, t: nat) | OpAck(pin: nat)
    | OpFsel(pin: nat, f: nat)

  predicate ValidOp(op: Op) {
    op.pin < NUM_GPIOS && (op.OpFsel? ==> op.f < FSEL_COUNT)
  }

  function Step(s: Pc, op: Op): (r: Pc)
    requires WellFormed(s) && ValidOp(op)
    ensures WellFormed(r)
  {
    match op
    case OpFsel(p, f) => FselSet(s, p, f)
    case OpEnable(p) => Enable(s, p)
    case OpDisable(p) => Disable(s, p)
    case OpSetType(p, t) => SetType(s, p, t).0
    case OpAck(p) => Ack(s, p)
  }

  function Run(s: Pc, ops: seq<Op>): (r: Pc)
    requires WellFormed(s) && forall op :: op in ops ==> ValidOp(op)
    ensures WellFormed(r)
    decreases |ops|
  {
    if ops == [] then s else Run(Step(s, ops[0]), ops[1..])
  }

  /** The register file after a sequence of writes. */
  function ApplyAll(regs: Regs, ws: seq<Write>): Regs {
    if ws == [] then regs else HwWrite(ApplyAll(regs, ws[..|ws| - 1]), ws[|ws| - 1])
  }

  // ---- What it means ----

  const DETECTORS: set<nat> := {GPREN0, GPFEN0, GPHEN0, GPLEN0}

  /** Bit `i` of detect register `det` of bank `b`. */
  predicate DetBit(regs: Regs, det: nat, b: nat, i: nat) {
    Bit(Rd(regs, det + b * 4), i)
  }

  /** The detectors that are active for a pin. */
  function Active(regs: Regs, pin: nat): set<nat> {
    set d | d in DETECTORS && DetBit(regs, d, Bank(pin), Shift(pin))
  }

  /** The detectors that an interrupt type stands for. */
  function Wanted(t: nat): set<nat> {
    set d | d in Detects(t)
  }

  /** An enabled pin has exactly the detectors of its type, a disabled pin has none. */
  ghost predicate Agrees(s: Pc) {
    && WellFormed(s)
    && (forall p :: 0 <= p < NUM_GPIOS ==> ValidType(s.irqType[p]))
    && (forall p :: 0 <= p < NUM_GPIOS ==>
          Active(s.regs, p) == if Enabled(s, p) then Wanted(s.irqType[p]) else {})
  }
}
