/** What iProc calls do in terms of the bits of its registers, and which calls are accepted. */
module IprocBits {
  import opened Words
  import opened Mmio
  import opened Wrappers
  import opened IprocSpec
  import opened IprocProofs
  import opened IprocConf

  /** The bit of a pin in one of the registers of its bank of 32; banks are 0x200 bytes apart. */
  predicate PinBit(s: Iproc, reg: nat, pin: nat) {
    Bit(Rd(s.base, 0x200 * (pin / 32) + reg), pin % 32)
  }

  lemma PinBitRead(s: Iproc, reg: nat, pin: nat)
    ensures GetBit(s, reg, pin) == PinBit(s, reg, pin)
  {
    hide Bit, GetBit, Rd;
    GetBitIsBit(s, reg, pin);
  }

  // ---- Drive strength ----

  /** Bit `j` of the strength of a pin: in the `j`-th of three registers from 0x58 on in its bank, or, where
      there is a block of its own for them, from 0 on in that block. */
  predicate StrengthBit(s: Iproc, pin: nat, j: nat) {
    if s.ioCtrl.Some? then Bit(Rd(s.ioCtrl.value, 4 * j), pin % 32)
    else Bit(Rd(s.base, 0x200 * (pin / 32) + 0x58 + 4 * j), pin % 32)
  }

  function B(b: bool): nat { if b then 1 else 0 }

  lemma LevelBits(s: Iproc, pin: nat, j: nat)
    requires j < 3
    ensures Bit(Level(s, pin), j) == StrengthBit(s, pin, j)
    ensures Level(s, pin) < 8
  {
    hide Bit, Slices, Rd;
    SlicesBit(Drv(s), DrvReg(s, pin), Shift(pin), DRV_STRENGTH_BITS);
    Powers();
  }

  lemma LowNumber(v: nat)
    requires v < 8
    ensures v == B(Bit(v, 0)) + 2 * B(Bit(v, 1)) + 4 * B(Bit(v, 2))
  {
    assert Bit(v, 1) == Bit(v / 2, 0) && Bit(v, 2) == Bit(v / 2, 1) == Bit(v / 2 / 2, 0);
  }

  /** The strength that is read back is 2 mA for each step of the number that the three bits make. */
  lemma StrengthRead(s: Iproc, pin: nat)
    ensures GetStrength(s, pin) ==
              2 * (1 + B(StrengthBit(s, pin, 0)) + 2 * B(StrengthBit(s, pin, 1)) + 4 * B(StrengthBit(s, pin, 2)))
  {
    hide Bit, Slices, StrengthBit;
    LevelBits(s, pin, 0);
    LevelBits(s, pin, 1);
    LevelBits(s, pin, 2);
    LowNumber(Level(s, pin));
  }

  /** A strength that is accepted is written as the number of its steps above 2 mA. */
  lemma StrengthWritten(s: Iproc, pin: nat, mA: nat, j: nat)
    requires SetStrength(s, pin, mA).1 == Done && j < 3
    ensures StrengthBit(SetStrength(s, pin, mA).0, pin, j) == Bit((mA - 2) / 2, j)
  {
    hide Bit, PutSlices, StrengthBit, Slices;
    var t := SetStrength(s, pin, mA).0;
    StrengthPath(s, pin, mA / 2 - 1, DRV_STRENGTH_BITS, pin, j);
    LevelBits(t, pin, j);
    assert (mA - 2) / 2 == mA / 2 - 1;
  }

  function Twice(k: nat): nat { 2 * k }

  /** The eight even strengths from 2 to 16 mA are accepted, and no other. */
  lemma StrengthAcceptedIff(s: Iproc, pin: nat, mA: nat)
    ensures SetStrength(s, pin, mA).1 == Done <==> exists k: nat {:trigger Twice(k)} :: k < 8 && mA == Twice(k) + 2
    ensures SetStrength(s, pin, mA).1 != Done ==> SetStrength(s, pin, mA) == (s, ENotSupp)
  {
    hide PutSlices;
    if 2 <= mA <= 16 && mA % 2 == 0 { assert Twice(mA / 2 - 1) + 2 == mA; }
  }

  /** Whatever strength is read from any pin in any state can be set on any other. */
  lemma ReportedIsAccepted(s: Iproc, q: nat, t: Iproc, p: nat)
    ensures SetStrength(t, p, GetStrength(s, q)).1 == Done
  {
    hide Slices, PutSlices, StrengthBit;
    StrengthRead(s, q);
    hide GetStrength;
    var k := GetStrength(s, q) / 2 - 1;
    assert Twice(k) + 2 == GetStrength(s, q);
    StrengthAcceptedIff(t, p, GetStrength(s, q));
  }

  // ---- Configurations ----

  /** Which configurations are accepted: the four kinds that the driver knows, unless the board has switched
      the kind off, and of the strengths the even ones up to 16 mA. A refused one changes nothing. */
  lemma AcceptedIff(s: Iproc, pin: nat, c: Conf)
    ensures var (t, ret) := ConfigSet(s, pin, [c], ENotSupp);
            && (ret == Done <==>
                  && c.param !in s.disabled && c.param in {BiasDisable, BiasPullUp, BiasPullDown, DriveStrength}
                  && (c.param == DriveStrength ==> c.arg in {2, 4, 6, 8, 10, 12, 14, 16}))
            && (ret != Done ==> ret == ENotSupp && t == s)
  {
    hide SetPull, PutSlices;
    OneConf(s, pin, c);
    hide ConfigSet;
  }

  lemma OneConf(s: Iproc, pin: nat, c: Conf)
    ensures ConfigSet(s, pin, [c], ENotSupp) == ApplyConf(s, pin, c)
  {
    hide ApplyConf;
    assert [c][1..] == [];
    var (t, ret) := ApplyConf(s, pin, c);
    assert ConfigSet(t, pin, [], ret) == (t, ret);
  }

  /** What an accepted configuration leaves in the registers: bit 0x38 switches the resistor on, bit 0x34
      says up or down, and a strength is a number in three bits. */
  lemma ConfBits(s: Iproc, pin: nat, c: Conf)
    requires ConfigSet(s, pin, [c], ENotSupp).1 == Done
    ensures var t := ConfigSet(s, pin, [c], ENotSupp).0;
            && (c.param == BiasDisable ==> !PinBit(t, 0x38, pin))
            && (c.param == BiasPullUp ==> PinBit(t, 0x38, pin) && PinBit(t, 0x34, pin))
            && (c.param == BiasPullDown ==> PinBit(t, 0x38, pin) && !PinBit(t, 0x34, pin))
            && (c.param == DriveStrength ==>
                  c.arg >= 2 && forall j: nat :: j < 3 ==> StrengthBit(t, pin, j) == Bit((c.arg - 2) / 2, j))
  {
    OneConf(s, pin, c) by { hide *; }
    hide ConfigSet, SetPull, PutSlices, PinBit, StrengthBit, Bit, GetBit, GetStrength;
    if c.param == DriveStrength {
      forall j: nat | j < 3
        ensures StrengthBit(SetStrength(s, pin, c.arg).0, pin, j) == Bit((c.arg - 2) / 2, j)
      {
        StrengthWritten(s, pin, c.arg, j);
      }
    } else {
      PullEffect(s, pin, c.param == BiasDisable, c.param == BiasPullUp, pin);
      PinBitRead(ApplyConf(s, pin, c).0, 0x38, pin);
      PinBitRead(ApplyConf(s, pin, c).0, 0x34, pin);
    }
  }

  /** What the queries answer, in terms of the same bits; a kind that is switched off is not answered. */
  lemma QueryBits(s: Iproc, pin: nat, p: Param)
    ensures var on, up := PinBit(s, 0x38, pin), PinBit(s, 0x34, pin);
            var strength := 2 * (1 + B(StrengthBit(s, pin, 0)) + 2 * B(StrengthBit(s, pin, 1))
                                   + 4 * B(StrengthBit(s, pin, 2)));
            ConfigGet(s, pin, p) ==
              if p in s.disabled || p.OtherParam? then (ENotSupp, 0)
              else if p == BiasDisable then (if on then EInval else Done, 0)
              else if p == BiasPullUp then (if on && up then Done else EInval, 0)
              else if p == BiasPullDown then (if on && !up then Done else EInval, 0)
              else (Done, strength)
  {
    hide GetBit, GetStrength, PinBit, StrengthBit;
    PinBitRead(s, 0x38, pin);
    PinBitRead(s, 0x34, pin);
    StrengthRead(s, pin);
  }

  // ---- Levels, directions and interrupt types ----

  /** direction_output sets bit 0x08 and puts the level into bit 0x04, of the pin alone. */
  lemma OutputBits(s: Iproc, pin: nat, val: bool, q: nat)
    ensures var t := DirectionOutput(s, pin, val);
            && PinBit(t, 0x08, q) == (q == pin || PinBit(s, 0x08, q))
            && PinBit(t, 0x04, q) == if q == pin then val else PinBit(s, 0x04, q)
  {
    hide GetBit, SetBit, PinBit;
    var m := SetBit(s, OUT_EN, pin, true);
    SetBitEffect(s, OUT_EN, pin, true, OUT_EN, q);
    SetBitEffect(s, OUT_EN, pin, true, DATA_OUT, q);
    SetBitEffect(m, DATA_OUT, pin, val, OUT_EN, q);
    SetBitEffect(m, DATA_OUT, pin, val, DATA_OUT, q);
    PinBitRead(s, OUT_EN, q);
    PinBitRead(s, DATA_OUT, q);
    PinBitRead(DirectionOutput(s, pin, val), OUT_EN, q);
    PinBitRead(DirectionOutput(s, pin, val), DATA_OUT, q);
  }

  /** When the controller raises the interrupt of a pin whose level was `was` and is `now`, as its three type
      bits say: 0x0c for levels, 0x10 for both edges, 0x14 for high or rising. */
  predicate Fires(s: Iproc, pin: nat, was: bool, now: bool) {
    if PinBit(s, 0x0c, pin) then now == PinBit(s, 0x14, pin)
    else was != now && (PinBit(s, 0x10, pin) || now == PinBit(s, 0x14, pin))
  }

  /** When a type of interrupt is due. */
  predicate Due(t: IrqType, was: bool, now: bool)
    requires t != NoType
  {
    match t
    case EdgeRising => !was && now
    case EdgeFalling => was && !now
    case EdgeBoth => was != now
    case LevelHigh => now
    case LevelLow => !now
    case NoType => false
  }

  /** After set_type the interrupt of the pin fires exactly when one of its type is due. */
  lemma TypeFires(s: Iproc, pin: nat, t: IrqType, was: bool, now: bool)
    requires t != NoType
    ensures Fires(SetIrqType(s, pin, t).0, pin, was, now) <==> Due(t, was, now)
  {
    hide GetBit, SetBit, PinBit;
    var r := SetIrqType(s, pin, t).0;
    IrqTypeReadsBack(s, pin, t, pin);
    hide SetIrqType;
    PinBitRead(r, 0x0c, pin);
    PinBitRead(r, 0x10, pin);
    PinBitRead(r, 0x14, pin);
  }
}
