/** The iProc GPIO driver in its own form: an object whose registers are rewritten bit by bit and
    whose disable list is found and filled in place. Every method is tied to the specification. */
module IprocDriver {
  import opened Words
  import opened Mmio
  import opened Wrappers
  import opened IprocSpec
  import Proofs = IprocProofs
  import Disable = IprocDisable
  import Irq = IprocIrq

  class IprocGpio {
    var base: Regs
    var ioCtrl: Option<Regs>
    var numBanks: nat
    var pinconfDisable: array?<Param>
    var nrPinconfDisable: nat
    ghost var trace: seq<Access>

    ghost predicate Valid()
      reads this
    {
      nrPinconfDisable == 0 || (pinconfDisable != null && nrPinconfDisable <= pinconfDisable.Length)
    }

    ghost function Disabled(): seq<Param>
      requires Valid()
      reads this, pinconfDisable
    {
      if nrPinconfDisable == 0 then [] else pinconfDisable[..nrPinconfDisable]
    }

    ghost function Abs(): Iproc
      requires Valid()
      reads this, pinconfDisable
    {
      Iproc(base, ioCtrl, Disabled(), trace)
    }

    constructor (base: Regs, ioCtrl: Option<Regs>, ngpios: nat)
      requires ngpios < 0x1_0000_0000
      ensures Valid() && Abs() == Iproc(base, ioCtrl, [], [])
      ensures numBanks == Irq.NumBanks(ngpios)
    {
      this.base, this.ioCtrl := base, ioCtrl;
      numBanks := (ngpios + 31) % 0x1_0000_0000 / 32;
      pinconfDisable, nrPinconfDisable := null, 0;
      trace := [];
    }

    /** writel */
    method Writel(io: bool, reg: nat, val: nat)
      requires Valid() && (io ==> ioCtrl.Some?)
      modifies this`base, this`ioCtrl, this`trace
      ensures Valid() && Abs() == Store(old(Abs()), Access(io, reg, val))
    {
      if io {
        ioCtrl := Some(Wr(ioCtrl.value, reg, val));
      } else {
        base := Wr(base, reg, val);
      }
      trace := trace + [Access(io, reg, val)];
    }

    // ---- One bit a pin ----

    method SetBit(reg: nat, gpio: nat, on: bool)
      requires Valid()
      modifies this`base, this`ioCtrl, this`trace
      ensures Valid() && Abs() == IprocSpec.SetBit(old(Abs()), reg, gpio, on)
    {
      hide Or, AndNot, BIT, RegOf, Shift, Store;
      var offset, shift := RegOf(gpio, reg), Shift(gpio);
      var val := Rd(base, offset);
      if on {
        val := Or(val, BIT(shift));
      } else {
        val := AndNot(val, BIT(shift));
      }
      Writel(false, offset, val);
    }

    method GetBit(reg: nat, gpio: nat) returns (on: bool)
      requires Valid()
      ensures on == IprocSpec.GetBit(Abs(), reg, gpio)
      ensures on == Bit(Rd(base, RegOf(gpio, reg)), Shift(gpio))
    {
      hide And, BIT, Bit;
      Proofs.GetBitIsBit(Abs(), reg, gpio);
      var offset, shift := RegOf(gpio, reg), Shift(gpio);
      on := And(Rd(base, offset), BIT(shift)) != 0;
    }

    method DirectionInput(gpio: nat)
      requires Valid()
      modifies this`base, this`ioCtrl, this`trace
      ensures Valid() && Abs() == IprocSpec.SetBit(old(Abs()), OUT_EN, gpio, false)
    {
      SetBit(OUT_EN, gpio, false);
    }

    method DirectionOutput(gpio: nat, val: bool)
      requires Valid()
      modifies this`base, this`ioCtrl, this`trace
      ensures Valid() && Abs() == IprocSpec.DirectionOutput(old(Abs()), gpio, val)
    {
      hide IprocSpec.SetBit;
      SetBit(OUT_EN, gpio, true);
      SetBit(DATA_OUT, gpio, val);
    }

    method IrqSetType(gpio: nat, t: IrqType) returns (ret: Ret)
      requires Valid()
      modifies this`base, this`ioCtrl, this`trace
      ensures Valid() && (Abs(), ret) == SetIrqType(old(Abs()), gpio, t)
    {
      hide IprocSpec.SetBit;
      var levelTriggered, dualEdge, risingOrHigh := false, false, false;
      match t {
        case EdgeRising => risingOrHigh := true;
        case EdgeFalling =>
        case EdgeBoth => dualEdge := true;
        case LevelHigh => levelTriggered, risingOrHigh := true, true;
        case LevelLow => levelTriggered := true;
        case NoType => return EInval;
      }
      SetBit(INT_TYPE, gpio, levelTriggered);
      SetBit(INT_DE, gpio, dualEdge);
      SetBit(INT_EDGE, gpio, risingOrHigh);
      ret := Done;
    }

    // ---- Pads ----

    method SetPull(gpio: nat, disable: bool, pullUp: bool)
      requires Valid()
      modifies this`base, this`ioCtrl, this`trace
      ensures Valid() && Abs() == IprocSpec.SetPull(old(Abs()), gpio, disable, pullUp)
    {
      hide IprocSpec.SetBit;
      if disable {
        SetBit(RES_EN, gpio, false);
      } else {
        SetBit(PAD_RES, gpio, pullUp);
        SetBit(RES_EN, gpio, true);
      }
    }

    method GetPull(gpio: nat) returns (disable: bool, pullUp: bool)
      requires Valid()
      ensures disable == !IprocSpec.GetBit(Abs(), RES_EN, gpio)
      ensures pullUp == IprocSpec.GetBit(Abs(), PAD_RES, gpio)
    {
      hide IprocSpec.GetBit;
      var on := GetBit(RES_EN, gpio);
      disable := !on;
      pullUp := GetBit(PAD_RES, gpio);
    }

    method SetStrength(gpio: nat, strength: nat) returns (ret: Ret)
      requires Valid()
      modifies this`base, this`ioCtrl, this`trace
      ensures Valid() && (Abs(), ret) == IprocSpec.SetStrength(old(Abs()), gpio, strength)
    {
      hide And, AndNot, Or, Shr, Shl, BIT, Store;
      if strength < 2 || strength > 16 || strength % 2 != 0 {
        return ENotSupp;
      }
      var io := ioCtrl.Some?;
      ghost var reg := DrvReg(Abs(), gpio);
      var offset := if io then DRV0_CTRL else RegOf(gpio, ASIU_DRV0_CTRL);
      var shift := Shift(gpio);
      var level := strength / 2 - 1;
      for i := 0 to DRV_STRENGTH_BITS
        invariant Valid() && offset == reg + 4 * i
        invariant Abs() == PutSlices(old(Abs()), reg, shift, level, i)
        invariant Abs().ioCtrl.Some? == io
      {
        ghost var m := Abs();
        assert Drv(m) == if io then ioCtrl.value else base;
        var val := Rd(if io then ioCtrl.value else base, offset);
        OneSlice(val, shift, And(Shr(level, i), 1));
        val := AndNot(val, BIT(shift));
        val := Or(val, Shl(And(Shr(level, i), 1), shift));
        Writel(io, offset, val);
        assert Abs() == Store(m, Access(io, offset, Insert(Rd(Drv(m), offset), 1, shift, And(Shr(level, i), 1))));
        offset := offset + 4;
      }
      ret := Done;
    }

    lemma OneSlice(w: nat, shift: nat, v: nat)
      ensures Or(AndNot(w, BIT(shift)), Shl(v, shift)) == Insert(w, 1, shift, v)
    {
      hide Or, AndNot, Shl;
    }

    method GetStrength(gpio: nat) returns (strength: nat)
      requires Valid()
      ensures strength == IprocSpec.GetStrength(Abs(), gpio)
    {
      hide And, Shr, Shl, BIT;
      var io := ioCtrl.Some?;
      ghost var reg := DrvReg(Abs(), gpio);
      var offset := if io then DRV0_CTRL else RegOf(gpio, ASIU_DRV0_CTRL);
      var shift := Shift(gpio);
      strength := 0;
      for i := 0 to DRV_STRENGTH_BITS
        invariant offset == reg + 4 * i && strength == Slices(Drv(Abs()), reg, shift, i)
      {
        var val := And(Rd(if io then ioCtrl.value else base, offset), BIT(shift));
        val := Shr(val, shift);
        strength := strength + Shl(val, i);
        offset := offset + 4;
      }
      strength := (strength + 1) * 2;
    }

    // ---- The disable list ----

    method ParamIsDisabled(param: Param) returns (yes: bool)
      requires Valid()
      ensures yes <==> param in Disabled()
    {
      if nrPinconfDisable == 0 {
        return false;
      }
      for i := 0 to nrPinconfDisable
        invariant param !in pinconfDisable[..i]
      {
        if pinconfDisable[i] == param {
          return true;
        }
        assert pinconfDisable[..i + 1] == pinconfDisable[..i] + [pinconfDisable[i]];
      }
      yes := false;
    }

    /** Called once, by probe, before any list exists. `found` is whether memory was available. */
    method DisableMapCreate(mask: nat, found: bool) returns (ret: Ret)
      requires Valid() && nrPinconfDisable == 0
      modifies this`pinconfDisable, this`nrPinconfDisable
      ensures Valid()
      ensures ret == if found || Disable.Listed(mask, Disable.MAP_SIZE) == [] then Done else ENoMem
      ensures Disabled() == if ret == Done then Disable.Listed(mask, Disable.MAP_SIZE) else []
    {
      hide Bit;
      ghost var all := Disable.Listed(mask, Disable.MAP_SIZE);
      var nbits := 0;
      for bit := 0 to Disable.MAP_SIZE
        invariant nbits == |Disable.Listed(mask, bit)|
      {
        if Bit(mask, bit) {
          nbits := nbits + 1;
        }
      }
      if nbits == 0 {
        assert all == [];
        return Done;
      }
      if !found {
        pinconfDisable := null;
        return ENoMem;
      }
      var list := new Param[nbits](_ => OtherParam(0));
      pinconfDisable := list;
      nrPinconfDisable := nbits;
      var n := 0;
      for bit := 0 to Disable.MAP_SIZE
        invariant pinconfDisable == list && nrPinconfDisable == nbits && fresh(list)
        invariant Disable.Listed(mask, bit) <= all
        invariant n <= nbits && list[..n] == Disable.Listed(mask, bit)
      {
        PrefixListed(mask, bit + 1, Disable.MAP_SIZE);
        if Bit(mask, bit) {
          list[n] := Disable.MapAt(bit);
          n := n + 1;
          assert list[..n] == list[..n - 1] + [list[n - 1]];
        }
      }
      assert list[..n] == all;
      ret := Done;
    }

    lemma {:induction false} PrefixListed(mask: nat, j: nat, k: nat)
      requires j <= k <= Disable.MAP_SIZE
      ensures Disable.Listed(mask, j) <= Disable.Listed(mask, k)
      decreases k
    {
      hide Bit;
      if j < k { PrefixListed(mask, j, k - 1); }
    }

    // ---- Configurations ----

    method PinConfigGet(pin: nat, param: Param) returns (ret: Ret, arg: nat)
      requires Valid()
      ensures (ret, arg) == ConfigGet(Abs(), pin, param)
    {
      hide IprocSpec.GetBit, IprocSpec.GetStrength;
      arg := 0;
      var off := ParamIsDisabled(param);
      if off {
        return ENotSupp, 0;
      }
      match param {
        case BiasDisable =>
          var disable, _ := GetPull(pin);
          ret := if disable then Done else EInval;
        case BiasPullUp =>
          var disable, pullUp := GetPull(pin);
          ret := if !disable && pullUp then Done else EInval;
        case BiasPullDown =>
          var disable, pullUp := GetPull(pin);
          ret := if !disable && !pullUp then Done else EInval;
        case DriveStrength =>
          arg := GetStrength(pin);
          ret := Done;
        case OtherParam(_) =>
          ret := ENotSupp;
      }
    }

    /** One round of iproc_pin_config_set. */
    method Configure(pin: nat, c: Conf) returns (ret: Ret)
      requires Valid()
      modifies this`base, this`ioCtrl, this`trace
      ensures Valid() && (Abs(), ret) == ApplyConf(old(Abs()), pin, c)
    {
      hide IprocSpec.SetPull, IprocSpec.SetStrength;
      var off := ParamIsDisabled(c.param);
      if off {
        return ENotSupp;
      }
      ret := Done;
      match c.param {
        case BiasDisable => SetPull(pin, true, false);
        case BiasPullUp => SetPull(pin, false, true);
        case BiasPullDown => SetPull(pin, false, false);
        case DriveStrength => ret := SetStrength(pin, c.arg);
        case OtherParam(_) => ret := ENotSupp;
      }
    }

    method PinConfigSet(pin: nat, cs: seq<Conf>) returns (ret: Ret)
      requires Valid()
      modifies this`base, this`ioCtrl, this`trace
      ensures Valid() && (Abs(), ret) == ConfigSet(old(Abs()), pin, cs, ENotSupp)
    {
      hide ApplyConf;
      ret := ENotSupp;
      var i := 0;
      while i < |cs|
        invariant 0 <= i <= |cs| && Valid()
        invariant ConfigSet(Abs(), pin, cs[i..], ret) == ConfigSet(old(Abs()), pin, cs, ENotSupp)
      {
        ret := Configure(pin, cs[i]);
        if ret != Done {
          return;
        }
        assert cs[i..][1..] == cs[i + 1..];
        i := i + 1;
      }
    }

    // ---- Interrupts ----

    /** The chained handler; `status` is what the masked status register of each bank reads. */
    method IrqHandler(status: nat -> nat) returns (events: seq<Irq.Event>)
      ensures events == Irq.Events(status, numBanks)
    {
      hide Bit, BIT;
      events := [];
      for i := 0 to numBanks
        invariant events == Irq.Events(status, i)
      {
        var val := status(i);
        ghost var before := events;
        for bit := 0 to 32
          invariant events == before + Irq.BankEvents(val, i, bit)
        {
          if Bit(val, bit) {
            var pin := 32 * i + bit;
            events := events + [Irq.Cleared(i * GPIO_BANK_SIZE + INT_CLR, BIT(bit))];
            events := events + [Irq.Handled(pin)];
          }
        }
      }
    }
  }
}
