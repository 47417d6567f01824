/** The iProc GPIO controller: one bit a pin in banks of 32, and a drive strength sliced over three
    registers, which on some parts sit in a register block of their own. */
module IprocSpec {
  import opened Words
  import opened Mmio
  import opened Wrappers

  const DATA_OUT: nat := 0x04
  const OUT_EN: nat := 0x08
  const INT_TYPE: nat := 0x0c
  const INT_DE: nat := 0x10
  const INT_EDGE: nat := 0x14
  const INT_CLR: nat := 0x24
  const PAD_RES: nat := 0x34
  const RES_EN: nat := 0x38
  const ASIU_DRV0_CTRL: nat := 0x58
  const DRV0_CTRL: nat := 0x00
  const GPIO_BANK_SIZE: nat := 0x200
  const DRV_STRENGTH_BITS: nat := 3

  datatype Ret = Done | EInval | ENotSupp | ENoMem

  datatype Param = DriveStrength | BiasDisable | BiasPullUp | BiasPullDown | OtherParam(n: nat)

  datatype Conf = Conf(param: Param, arg: nat)

  /** A register write; `io` tells the separate block from the GPIO block. */
  datatype Access = Access(io: bool, reg: nat, val: nat)

  datatype Iproc = Iproc(base: Regs, ioCtrl: Option<Regs>, disabled: seq<Param>, trace: seq<Access>)

  function Bank(pin: nat): nat { pin / 32 }

  function Shift(pin: nat): nat { pin % 32 }

  function RegOf(pin: nat, reg: nat): nat { Bank(pin) * GPIO_BANK_SIZE + reg }

  function Store(s: Iproc, a: Access): Iproc
    requires a.io ==> s.ioCtrl.Some?
  {
    if a.io then s.(ioCtrl := Some(Wr(s.ioCtrl.value, a.reg, a.val)), trace := s.trace + [a])
    else s.(base := Wr(s.base, a.reg, a.val), trace := s.trace + [a])
  }

  // ---- One bit a pin ----

  function SetBit(s: Iproc, reg: nat, pin: nat, on: bool): Iproc {
    var w := Rd(s.base, RegOf(pin, reg));
    Store(s, Access(false, RegOf(pin, reg), if on then Or(w, BIT(Shift(pin))) else AndNot(w, BIT(Shift(pin)))))
  }

  predicate GetBit(s: Iproc, reg: nat, pin: nat) {
    And(Rd(s.base, RegOf(pin, reg)), BIT(Shift(pin))) != 0
  }

  function SetPull(s: Iproc, pin: nat, disable: bool, pullUp: bool): Iproc {
    if disable then SetBit(s, RES_EN, pin, false)
    else SetBit(SetBit(s, PAD_RES, pin, pullUp), RES_EN, pin, true)
  }

  function DirectionOutput(s: Iproc, pin: nat, val: bool): Iproc {
    SetBit(SetBit(s, OUT_EN, pin, true), DATA_OUT, pin, val)
  }

  // ---- Drive strength ----

  function Drv(s: Iproc): Regs {
    if s.ioCtrl.Some? then s.ioCtrl.value else s.base
  }

  /** The register of the lowest slice; the separate block has no banks. */
  function DrvReg(s: Iproc, pin: nat): nat {
    if s.ioCtrl.Some? then DRV0_CTRL else RegOf(pin, ASIU_DRV0_CTRL)
  }

  /** Writes the `n` lowest bits of `level`, one to each register. */
  function PutSlices(s: Iproc, reg: nat, shift: nat, level: nat, n: nat): (r: Iproc)
    ensures r.ioCtrl.Some? == s.ioCtrl.Some?
  {
    if n == 0 then s
    else
      var m := PutSlices(s, reg, shift, level, n - 1);
      var at := reg + 4 * (n - 1);
      Store(m, Access(s.ioCtrl.Some?, at, Insert(Rd(Drv(m), at), 1, shift, And(Shr(level, n - 1), 1))))
  }

  /** Collects `n` slices into a number. */
  function Slices(regs: Regs, reg: nat, shift: nat, n: nat): nat {
    if n == 0 then 0
    else Slices(regs, reg, shift, n - 1) + Shl(Shr(And(Rd(regs, reg + 4 * (n - 1)), BIT(shift)), shift), n - 1)
  }

  predicate ValidStrength(mA: nat) { 2 <= mA <= 16 && mA % 2 == 0 }

  function SetStrength(s: Iproc, pin: nat, mA: nat): (Iproc, Ret) {
    if !ValidStrength(mA) then (s, ENotSupp)
    else (PutSlices(s, DrvReg(s, pin), Shift(pin), mA / 2 - 1, DRV_STRENGTH_BITS), Done)
  }

  function GetStrength(s: Iproc, pin: nat): nat {
    (Slices(Drv(s), DrvReg(s, pin), Shift(pin), DRV_STRENGTH_BITS) + 1) * 2
  }

  // ---- Configurations ----

  /** One round of iproc_pin_config_set. */
  function ApplyConf(s: Iproc, pin: nat, c: Conf): (Iproc, Ret) {
    if c.param in s.disabled then (s, ENotSupp)
    else
      match c.param
      case BiasDisable => (SetPull(s, pin, true, false), Done)
      case BiasPullUp => (SetPull(s, pin, false, true), Done)
      case BiasPullDown => (SetPull(s, pin, false, false), Done)
      case DriveStrength => SetStrength(s, pin, c.arg)
      case OtherParam(_) => (s, ENotSupp)
  }

  function ConfigSet(s: Iproc, pin: nat, cs: seq<Conf>, ret: Ret): (Iproc, Ret)
    decreases |cs|
  {
    if cs == [] then (s, ret)
    else
      var (s1, ret1) := ApplyConf(s, pin, cs[0]);
      if ret1 != Done then (s1, ret1) else ConfigSet(s1, pin, cs[1..], ret1)
  }

  function ConfigGet(s: Iproc, pin: nat, param: Param): (Ret, nat) {
    if param in s.disabled then (ENotSupp, 0)
    else
      var disable, pullUp := !GetBit(s, RES_EN, pin), GetBit(s, PAD_RES, pin);
      match param
      case BiasDisable => (if disable then Done else EInval, 0)
      case BiasPullUp => (if !disable && pullUp then Done else EInval, 0)
      case BiasPullDown => (if !disable && !pullUp then Done else EInval, 0)
      case DriveStrength => (Done, GetStrength(s, pin))
      case OtherParam(_) => (ENotSupp, 0)
  }

  // ---- Interrupt types ----

  datatype IrqType = EdgeRising | EdgeFalling | EdgeBoth | LevelHigh | LevelLow | NoType

  function SetIrqType(s: Iproc, pin: nat, t: IrqType): (Iproc, Ret) {
    if t == NoType then (s, EInval)
    else
      var level := t == LevelHigh || t == LevelLow;
      var rising := t == EdgeRising || t == LevelHigh;
      (SetBit(SetBit(SetBit(s, INT_TYPE, pin, level), INT_DE, pin, t == EdgeBoth), INT_EDGE, pin, rising), Done)
  }
}
