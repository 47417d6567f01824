/** The Northstar2 multiplexer driver in its own form: an object whose log is filled in place and
    whose registers are rewritten field by field. Every method is tied to Ns2Spec or Ns2Conf. */
module Ns2Driver {
  import opened Words
  import opened Mmio
  import opened Ns2Spec
  import opened Ns2Conf
  import opened Ns2Table
  import Proofs = Ns2Proofs

  class Ns2Pinctrl {
    var muxLog: array<LogEntry>
    var base0: Regs
    var base1: Regs
    var conf: Regs
    ghost var writes: seq<MuxWrite>

    /** The log has been allocated. */
    ghost predicate Valid()
      reads this
    {
      muxLog.Length == NUM_IOMUX
    }

    ghost function Abs(): (s: Pinmux)
      requires Valid()
      reads this, muxLog
      ensures |s.log| == NUM_IOMUX
    {
      Pinmux(muxLog[..], base0, base1, writes)
    }

    constructor (base0: Regs, base1: Regs, conf: Regs)
      ensures this.base0 == base0 && this.base1 == base1 && this.conf == conf && writes == []
    {
      this.base0, this.base1, this.conf, writes := base0, base1, conf, [];
      muxLog := new LogEntry[0];
    }

    /** ns2_mux_log_init, when the allocation succeeds or not as `memory` says. */
    method MuxLogInit(memory: bool) returns (ret: Ret)
      modifies this`muxLog
      ensures ret == if memory then Done else ENoMem
      ensures ret == Done ==> fresh(muxLog) && Valid() && Proofs.Initial(Abs())
      ensures ret != Done ==> muxLog == old(muxLog)
    {
      if !memory {
        return ENoMem;
      }
      muxLog := new LogEntry[NUM_IOMUX](_ => LogEntry(0, 0, 0, 0, false));
      FillMuxLog();
      ret := Done;
    }

    /** The keys of the log. */
    method FillMuxLog()
      requires Valid()
      modifies muxLog
      ensures Proofs.Initial(Abs())
    {
      for i := 0 to NUM_IOMUX
        invariant forall j :: 0 <= j < i ==> !muxLog[j].configured
      {
        muxLog[i] := muxLog[i].(configured := false);
      }
      muxLog[0] := LogEntry(MUX_BASE0, 0, 31, 0, muxLog[0].configured);
      for i := 1 to NUM_IOMUX - NUM_PWM_MUX
        invariant forall j :: 0 <= j < NUM_IOMUX ==> !muxLog[j].configured
        invariant forall j :: 0 <= j < i ==> muxLog[j] == InitialEntry(j)
      {
        muxLog[i] := LogEntry(MUX_BASE0, MUX_PAD_FUNC1_OFFSET, 32 - i * 2, 0, muxLog[i].configured);
      }
      for i := 0 to NUM_PWM_MUX
        invariant forall j :: 0 <= j < NUM_IOMUX ==> !muxLog[j].configured
        invariant forall j :: 0 <= j < NUM_IOMUX - NUM_PWM_MUX + i ==> muxLog[j] == InitialEntry(j)
      {
        var k := NUM_IOMUX - NUM_PWM_MUX + i;
        muxLog[k] := LogEntry(MUX_BASE1, 0, i, 0, muxLog[k].configured);
      }
    }

    method PinmuxSet(m: Mux) returns (ret: Ret)
      requires Valid()
      modifies this`base0, this`base1, this`writes, muxLog
      ensures (Abs(), ret) == MuxSet(old(Abs()), m)
    {
      hide Or, AndNot, Shl;
      ghost var s := Abs();
      var i := 0;
      while i < NUM_IOMUX
        invariant 0 <= i <= NUM_IOMUX
        invariant Find(s.log, m, 0) == Find(s.log, m, i)
      {
        if m.shift != muxLog[i].shift || m.base != muxLog[i].base || m.offset != muxLog[i].offset {
          i := i + 1;
          continue;
        }
        if !muxLog[i].configured {
          break;
        }
        if muxLog[i].alt != m.alt {
          return EInval;
        }
        return Done;
      }
      if i == NUM_IOMUX {
        return EInval;
      }
      muxLog[i] := muxLog[i].(alt := m.alt);
      muxLog[i] := muxLog[i].(configured := true);
      ghost var t := Abs();
      assert t == s.(log := s.log[i := s.log[i].(alt := m.alt, configured := true)]);
      if m.base != MUX_BASE0 && m.base != MUX_BASE1 {
        return EInval;
      }
      var val := Rd(if m.base == MUX_BASE0 then base0 else base1, m.offset);
      val := AndNot(val, Shl(m.mask, m.shift));
      val := Or(val, Shl(m.alt, m.shift));
      if m.base == MUX_BASE0 {
        base0 := Wr(base0, m.offset, val);
      } else {
        base1 := Wr(base1, m.offset, val);
      }
      writes := writes + [MuxWrite(m.base, m.offset, val)];
      ret := Done;
    }

    /** ns2_pinmux_enable. An index equal to the size of its table passes the driver's check; `beyond`
        is what then stands for a group in the memory after the table of groups. */
    method PinmuxEnable(funcSelect: nat, grpSelect: nat, beyond: Mux) returns (ret: Ret)
      requires Valid()
      modifies this`base0, this`base1, this`writes, muxLog
      ensures if grpSelect <= NUM_GROUPS && funcSelect <= NUM_FUNCTIONS
              then (Abs(), ret) == MuxSet(old(Abs()), if grpSelect < NUM_GROUPS then GroupAt(grpSelect).mux else beyond)
              else Abs() == old(Abs()) && ret == EInval
    {
      hide MuxSet, GroupAt;
      if grpSelect > NUM_GROUPS || funcSelect > NUM_FUNCTIONS {
        return EInval;
      }
      var mux := if grpSelect < NUM_GROUPS then GroupAt(grpSelect).mux else beyond;
      ret := PinmuxSet(mux);
    }

    /** Reads the configuration register of a pin with one field cleared. */
    method FieldCleared(pin: nat, mask: nat, shift: nat) returns (val: nat)
      requires Configurable(pin)
      ensures val == Insert(Rd(conf, ConfOffset(pin)), mask, shift, 0)
    {
      InsertZero(Rd(conf, ConfOffset(pin)), mask, shift);
      hide AndNot, Shl, Insert;
      val := Rd(conf, ConfOffset(pin));
      val := AndNot(val, Shl(mask, shift));
    }

    /** Setting bits in a cleared field is inserting them. */
    lemma OrIntoCleared(w: nat, mask: nat, shift: nat, v: nat)
      ensures Or(Insert(w, mask, shift, 0), Shl(v, shift)) == Insert(w, mask, shift, v)
    {
      hide Bit, Or, AndNot, Shl;
      InsertZero(w, mask, shift);
    }

    method PinSetEnable(pin: nat, enable: nat)
      requires Configurable(pin)
      modifies this`conf
      ensures conf == PutParam(old(conf), pin, InputEn, if enable == 0 then 1 else 0)
      ensures OnlyField(old(conf), conf, RowAt(pin).offset, RowAt(pin).input, 1, if enable == 0 then 1 else 0)
    {
      PutOnly(conf, pin, InputEn, if enable == 0 then 1 else 0);
      hide RowAt, OnlyField, Or, Shl, Insert, ConfOffset, Lane;
      var shift := ShiftOf(pin, InputEn);
      var val := FieldCleared(pin, SRC_MASK, shift);
      if enable == 0 {
        OrIntoCleared(Rd(conf, ConfOffset(pin)), SRC_MASK, shift, INPUT_EN_MASK);
        val := Or(val, Shl(INPUT_EN_MASK, shift));
      }
      conf := Wr(conf, ConfOffset(pin), val);
    }

    method PinGetEnable(pin: nat) returns (enable: nat)
      requires Configurable(pin)
      ensures enable == if ReadParam(conf, pin, InputEn) == 0 then 1 else 0
      ensures enable == if Bit(Rd(conf, ConfOffset(pin)), ShiftOf(pin, InputEn)) then 0 else 1
    {
      hide Field, ConfOffset, Lane, Bit;
      OneBitField(Rd(conf, ConfOffset(pin)), ShiftOf(pin, InputEn));
      enable := Field(Rd(conf, ConfOffset(pin)), INPUT_EN_MASK, ShiftOf(pin, InputEn));
      if enable == 0 {
        enable := INPUT_EN_MASK;
      } else {
        enable := 0;
      }
    }

    lemma OneBitField(w: nat, shift: nat)
      ensures Field(w, INPUT_EN_MASK, shift) == if Bit(w, shift) then 1 else 0
    {
      hide Bit, And, Shr, Mask;
      Masks();
      ZeroBits();
      var a, v := Field(w, Mask(1), shift), if Bit(w, shift) then Mask(1) else 0;
      forall i: nat ensures Bit(a, i) == Bit(v, i) {
        assert Bit(Mask(1), i) == (i < 1);
      }
      Extensional(a, v);
    }

    method PinSetSlew(pin: nat, slew: nat)
      requires Configurable(pin)
      modifies this`conf
      ensures conf == PutParam(old(conf), pin, Slew, if slew != 0 then 1 else 0)
      ensures OnlyField(old(conf), conf, RowAt(pin).offset, RowAt(pin).src, 1, if slew != 0 then 1 else 0)
    {
      PutOnly(conf, pin, Slew, if slew != 0 then 1 else 0);
      hide RowAt, OnlyField, Or, Shl, Insert, ConfOffset, Lane;
      var shift := ShiftOf(pin, Slew);
      var val := FieldCleared(pin, SRC_MASK, shift);
      if slew != 0 {
        OrIntoCleared(Rd(conf, ConfOffset(pin)), SRC_MASK, shift, SRC_MASK);
        val := Or(val, Shl(SRC_MASK, shift));
      }
      conf := Wr(conf, ConfOffset(pin), val);
    }

    /** The value of the pull field: each flag sets a bit of its own. */
    static function PullValue(pullUp: bool, pullDown: bool): nat {
      (if pullUp then PULL_UP else 0) + (if pullDown then PULL_DOWN else 0)
    }

    lemma OrPulls(w: nat, shift: nat)
      ensures Or(Insert(w, PULL_MASK, shift, PULL_UP), Shl(PULL_DOWN, shift)) ==
                Insert(w, PULL_MASK, shift, PULL_UP + PULL_DOWN)
    {
      hide Or, AndNot, Shl;
      forall i: nat ensures Bit(PULL_UP + PULL_DOWN, i) == (Bit(PULL_UP, i) || Bit(PULL_DOWN, i)) {
        PullBits(i);
      }
      hide Bit;
      Extensional(Or(Insert(w, PULL_MASK, shift, PULL_UP), Shl(PULL_DOWN, shift)),
                  Insert(w, PULL_MASK, shift, PULL_UP + PULL_DOWN));
    }

    lemma PullBits(i: nat)
      ensures Bit(PULL_UP, i) <==> i == 0
      ensures Bit(PULL_DOWN, i) <==> i == 1
      ensures Bit(PULL_UP + PULL_DOWN, i) <==> i <= 1
    {
      ZeroBits();
      if i >= 2 {
        assert Bit(PULL_UP, i) == Bit(0, i - 1);
        assert Bit(PULL_DOWN, i) == Bit(1, i - 1) == Bit(0, i - 2);
        assert Bit(PULL_UP + PULL_DOWN, i) == Bit(1, i - 1);
      }
    }

    method PinSetPull(pin: nat, pullUp: bool, pullDown: bool)
      requires Configurable(pin)
      modifies this`conf
      ensures conf == PutParam(old(conf), pin, Pull, PullValue(pullUp, pullDown))
      ensures OnlyField(old(conf), conf, RowAt(pin).offset, RowAt(pin).pull, 2,
                        (if pullUp then 1 else 0) + (if pullDown then 2 else 0))
    {
      PutOnly(conf, pin, Pull, PullValue(pullUp, pullDown));
      hide RowAt, OnlyField, Or, Shl, Insert, ConfOffset, Lane;
      var shift := ShiftOf(pin, Pull);
      var val := FieldCleared(pin, PULL_MASK, shift);
      OrIntoCleared(Rd(conf, ConfOffset(pin)), PULL_MASK, shift, PULL_UP);
      OrIntoCleared(Rd(conf, ConfOffset(pin)), PULL_MASK, shift, PULL_DOWN);
      OrPulls(Rd(conf, ConfOffset(pin)), shift);
      if pullUp {
        val := Or(val, Shl(PULL_UP, shift));
      }
      if pullDown {
        val := Or(val, Shl(PULL_DOWN, shift));
      }
      conf := Wr(conf, ConfOffset(pin), val);
    }

    method PinGetPull(pin: nat) returns (pullUp: bool, pullDown: bool)
      requires Configurable(pin)
      ensures pullUp == (ReadParam(conf, pin, Pull) == PULL_UP)
      ensures pullDown == (ReadParam(conf, pin, Pull) == PULL_DOWN)
    {
      hide Field, ConfOffset, Lane;
      var val := Field(Rd(conf, ConfOffset(pin)), PULL_MASK, ShiftOf(pin, Pull));
      pullUp, pullDown := false, false;
      if val == PULL_UP {
        pullUp := true;
      }
      if val == PULL_DOWN {
        pullDown := true;
      }
    }

    method PinSetStrength(pin: nat, strength: nat) returns (ret: Ret)
      requires Configurable(pin)
      modifies this`conf
      ensures ret == if Acceptable(DriveStrength(strength)) then Done else ENotSupp
      ensures conf == if ret == Done then PutParam(old(conf), pin, Drive, strength / 2 - 1) else old(conf)
      ensures ret == Done ==> OnlyField(old(conf), conf, RowAt(pin).offset, RowAt(pin).drive, 3, strength / 2 - 1)
    {
      hide RowAt, OnlyField, Or, Shl, Insert, ConfOffset, Lane;
      if strength < 2 || strength > 16 || strength % 2 != 0 {
        return ENotSupp;
      }
      PutOnly(conf, pin, Drive, strength / 2 - 1);
      var shift := ShiftOf(pin, Drive);
      var val := FieldCleared(pin, DRIVE_STRENGTH_MASK, shift);
      OrIntoCleared(Rd(conf, ConfOffset(pin)), DRIVE_STRENGTH_MASK, shift, strength / 2 - 1);
      val := Or(val, Shl(strength / 2 - 1, shift));
      conf := Wr(conf, ConfOffset(pin), val);
      ret := Done;
    }

    method PinConfigGet(pin: nat, c: Conf) returns (ret: Ret, arg: nat)
      requires pin < NUM_PINS
      ensures (ret, arg) == if Configurable(pin) then Ns2Conf.ConfigGet(conf, pin, c) else (ENotSupp, 0)
    {
      hide ReadParam;
      arg := 0;
      if !Configurable(pin) {
        return ENotSupp, 0;
      }
      match c {
        case BiasDisable =>
          var up, down := PinGetPull(pin);
          ret := if !up && !down then Done else EInval;
        case BiasPullUp =>
          var up, down := PinGetPull(pin);
          ret := if up then Done else EInval;
        case BiasPullDown =>
          var up, down := PinGetPull(pin);
          ret := if down then Done else EInval;
        case DriveStrength(_) =>
          ret, arg := Done, (ReadParam(conf, pin, Drive) + 1) * 2;
        case SlewRate(_) =>
          ret, arg := Done, ReadParam(conf, pin, Slew);
        case InputEnable(_) =>
          var enable := PinGetEnable(pin);
          ret := if enable != 0 then Done else EInval;
        case Unknown =>
          ret := ENotSupp;
      }
    }

    /** One configuration of ns2_pin_config_set. */
    method ApplyConf(pin: nat, c: Conf) returns (ret: Ret)
      requires Configurable(pin)
      modifies this`conf
      ensures ret == if Acceptable(c) then Done else ENotSupp
      ensures conf == if Acceptable(c) then PutParam(old(conf), pin, ParamOf(c), ValueOf(c)) else old(conf)
    {
      hide PutParam;
      ret := Done;
      match c {
        case BiasDisable => PinSetPull(pin, false, false);
        case BiasPullUp => PinSetPull(pin, true, false);
        case BiasPullDown => PinSetPull(pin, false, true);
        case DriveStrength(arg) => ret := PinSetStrength(pin, arg);
        case SlewRate(arg) => PinSetSlew(pin, arg);
        case InputEnable(arg) => PinSetEnable(pin, arg % 0x1_0000);
        case Unknown => ret := ENotSupp;
      }
    }

    method PinConfigSet(pin: nat, cs: seq<Conf>) returns (ret: Ret)
      requires pin < NUM_PINS
      modifies this`conf
      ensures (conf, ret) ==
                if Configurable(pin) then Ns2Conf.ConfigSet(old(conf), pin, cs, ENotSupp) else (old(conf), ENotSupp)
    {
      hide PutParam, Acceptable;
      ret := ENotSupp;
      if !Configurable(pin) {
        return;
      }
      var i := 0;
      while i < |cs|
        invariant 0 <= i <= |cs|
        invariant ConfigSet(conf, pin, cs[i..], ret) == ConfigSet(old(conf), pin, cs, ENotSupp)
      {
        ret := ApplyConf(pin, cs[i]);
        if ret != Done {
          return;
        }
        assert cs[i..][1..] == cs[i + 1..];
        i := i + 1;
      }
    }
  }
}
