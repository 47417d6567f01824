/** Pin configuration of Northstar2: four parameters a pin, packed four pins to a register. */
module Ns2Conf {
  import opened Words
  import opened Mmio
  import opened Ns2Spec

  const NUM_PINS: nat := 119
  const SRC_MASK: nat := 1
  const INPUT_EN_MASK: nat := 1
  const PULL_MASK: nat := 3
  const DRIVE_STRENGTH_MASK: nat := 7
  const PULL_UP: nat := 1
  const PULL_DOWN: nat := 2

  /** Pins 0 to 62 have no configuration register. */
  predicate Configurable(pin: nat) { 63 <= pin < NUM_PINS }

  /** The register of a pin in the pin table: pins 63-106 fill registers 0x00 to 0x28, 107 and 108
      share 0x2c, 109-116 fill 0x34 and 0x38, 117 and 118 share 0x3c. */
  function ConfOffset(pin: nat): nat
    requires Configurable(pin)
  {
    if pin <= 106 then 4 * ((pin - 63) / 4)
    else if pin <= 108 then 0x2c
    else if pin <= 116 then 0x34 + 4 * ((pin - 109) / 4)
    else 0x3c
  }

  /** The byte lane of a pin; the pins of a register are listed from the top. */
  function Lane(pin: nat): nat
    requires Configurable(pin)
  {
    if pin <= 106 then 3 - (pin - 63) % 4
    else if pin <= 108 then 108 - pin
    else if pin <= 116 then 3 - (pin - 109) % 4
    else 118 - pin
  }

  datatype Param = Slew | InputEn | Pull | Drive

  function ParamWidth(a: Param): nat {
    match a
    case Slew => 1
    case InputEn => 1
    case Pull => 2
    case Drive => 3
  }

  function ParamShift(a: Param): nat {
    match a
    case Slew => 7
    case InputEn => 6
    case Pull => 3
    case Drive => 0
  }

  function ParamMask(a: Param): nat {
    match a
    case Slew => SRC_MASK
    case InputEn => INPUT_EN_MASK
    case Pull => PULL_MASK
    case Drive => DRIVE_STRENGTH_MASK
  }

  function ShiftOf(pin: nat, a: Param): nat
    requires Configurable(pin)
  {
    8 * Lane(pin) + ParamShift(a)
  }

  function ReadParam(regs: Regs, pin: nat, a: Param): nat
    requires Configurable(pin)
  {
    Field(Rd(regs, ConfOffset(pin)), ParamMask(a), ShiftOf(pin, a))
  }

  function PutParam(regs: Regs, pin: nat, a: Param, v: nat): Regs
    requires Configurable(pin)
  {
    Wr(regs, ConfOffset(pin), Insert(Rd(regs, ConfOffset(pin)), ParamMask(a), ShiftOf(pin, a), v))
  }

  // ---- Configurations ----

  datatype Conf =
    | BiasDisable | BiasPullUp | BiasPullDown
    | DriveStrength(arg: nat) | SlewRate(arg: nat) | InputEnable(arg: nat) | Unknown

  /** The parameter that a configuration sets, and the value its field gets. */
  function ParamOf(c: Conf): Param
    requires c != Unknown
  {
    match c
    case DriveStrength(_) => Drive
    case SlewRate(_) => Slew
    case InputEnable(_) => InputEn
    case _ => Pull
  }

  function ValueOf(c: Conf): nat
    requires Acceptable(c)
  {
    match c
    case BiasDisable => 0
    case BiasPullUp => PULL_UP
    case BiasPullDown => PULL_DOWN
    case DriveStrength(arg) => arg / 2 - 1
    case SlewRate(arg) => if arg != 0 then 1 else 0
    case InputEnable(arg) => if arg % 0x1_0000 != 0 then 0 else 1   // the argument is cut to 16 bits
  }

  predicate Acceptable(c: Conf) {
    c != Unknown && (c.DriveStrength? ==> 2 <= c.arg <= 16 && c.arg % 2 == 0)
  }

  /** ns2_pin_config_set, with `ret` the result so far. */
  function ConfigSet(regs: Regs, pin: nat, cs: seq<Conf>, ret: Ret): (Regs, Ret)
    requires Configurable(pin)
    decreases |cs|
  {
    if cs == [] then (regs, ret)
    else if !Acceptable(cs[0]) then (regs, ENotSupp)
    else ConfigSet(PutParam(regs, pin, ParamOf(cs[0]), ValueOf(cs[0])), pin, cs[1..], Done)
  }

  /** ns2_pin_config_get for the kind of configuration that `c` is, with the argument it reports. */
  function ConfigGet(regs: Regs, pin: nat, c: Conf): (Ret, nat)
    requires Configurable(pin)
  {
    match c
    case BiasDisable =>
      var v := ReadParam(regs, pin, Pull);
      (if v != PULL_UP && v != PULL_DOWN then Done else EInval, 0)
    case BiasPullUp => (if ReadParam(regs, pin, Pull) == PULL_UP then Done else EInval, 0)
    case BiasPullDown => (if ReadParam(regs, pin, Pull) == PULL_DOWN then Done else EInval, 0)
    case DriveStrength(_) => (Done, (ReadParam(regs, pin, Drive) + 1) * 2)
    case SlewRate(_) => (Done, ReadParam(regs, pin, Slew))
    case InputEnable(_) => (if ReadParam(regs, pin, InputEn) == 0 then Done else EInval, 0)
    case Unknown => (ENotSupp, 0)
  }

  // ---- Lanes ----

  lemma ParamMasks(a: Param)
    ensures ParamMask(a) == Mask(ParamWidth(a))
  {
    hide Bit, Mask;
    Masks();
  }

  lemma LanesUnique(p: nat, q: nat)
    requires Configurable(p) && Configurable(q) && p != q && ConfOffset(p) == ConfOffset(q)
    ensures Lane(p) != Lane(q)
  {}

  /** The fields of different pins or parameters do not overlap. */
  lemma ParamsApart(p: nat, a: Param, q: nat, b: Param)
    requires Configurable(p) && Configurable(q) && ConfOffset(p) == ConfOffset(q) && (p != q || a != b)
    ensures ShiftOf(p, a) + ParamWidth(a) <= ShiftOf(q, b) || ShiftOf(q, b) + ParamWidth(b) <= ShiftOf(p, a)
  {
    hide Lane, ConfOffset;
    if p != q { LanesUnique(p, q); }
  }

  /** Writing one parameter of one pin changes that parameter of that pin and nothing else. */
  lemma PutParamEffect(regs: Regs, pin: nat, a: Param, v: nat, q: nat, b: Param)
    requires Configurable(pin) && Configurable(q) && v <= ParamMask(a)
    ensures ReadParam(PutParam(regs, pin, a, v), q, b) == if q == pin && b == a then v else ReadParam(regs, q, b)
  {
    hide Field, Insert, Mask, Bit, ShiftOf, ConfOffset, ParamMask, ParamWidth;
    ParamMasks(a);
    ParamMasks(b);
    var w := Rd(regs, ConfOffset(pin));
    if q == pin && b == a {
      FieldInserted(w, ParamWidth(a), ShiftOf(pin, a), v);
    } else if ConfOffset(q) == ConfOffset(pin) {
      ParamsApart(pin, a, q, b);
      FieldKept(w, ParamWidth(a), ShiftOf(pin, a), v, ParamWidth(b), ShiftOf(q, b));
    }
  }

  // ---- Lists of configurations ----

  /** The configurations before the first one that is refused. */
  function Accepted(cs: seq<Conf>): (r: seq<Conf>)
    ensures forall c :: c in r ==> Acceptable(c)
    decreases |cs|
  {
    if cs == [] || !Acceptable(cs[0]) then [] else [cs[0]] + Accepted(cs[1..])
  }

  /** The value a list of configurations leaves in a parameter: the last one wins. */
  function LastValue(cs: seq<Conf>, a: Param, was: nat): nat
    requires forall c :: c in cs ==> Acceptable(c)
    decreases |cs|
  {
    if cs == [] then was
    else
      assert Acceptable(cs[0]) && forall c :: c in cs[1..] ==> c in cs;
      LastValue(cs[1..], a, if ParamOf(cs[0]) == a then ValueOf(cs[0]) else was)
  }

  lemma ValueFits(c: Conf)
    requires Acceptable(c)
    ensures ValueOf(c) <= ParamMask(ParamOf(c))
  {}

  lemma AcceptedStep(cs: seq<Conf>, a: Param, was: nat)
    requires cs != [] && Acceptable(cs[0])
    ensures LastValue(Accepted(cs), a, was) ==
              LastValue(Accepted(cs[1..]), a, if ParamOf(cs[0]) == a then ValueOf(cs[0]) else was)
  {
    var r := Accepted(cs[1..]);
    assert Accepted(cs) == [cs[0]] + r;
    assert ([cs[0]] + r)[0] == cs[0] && ([cs[0]] + r)[1..] == r;
  }

  /** config_set applies what comes before the first refused configuration, the last value of each
      parameter winning; it reports success exactly when nothing was refused, and every parameter
      of every other pin is as before. */
  lemma {:induction false} ConfigSetEffect(regs: Regs, pin: nat, cs: seq<Conf>, ret: Ret, q: nat, b: Param)
    requires Configurable(pin) && Configurable(q)
    ensures var (r, ret') := ConfigSet(regs, pin, cs, ret);
            && ReadParam(r, q, b) ==
                 (if q == pin then LastValue(Accepted(cs), b, ReadParam(regs, q, b)) else ReadParam(regs, q, b))
            && (ret' == if cs == [] then ret else if |Accepted(cs)| == |cs| then Done else ENotSupp)
    decreases |cs|
  {
    hide ReadParam, PutParam, ValueOf, ParamOf, LastValue;
    if cs == [] {
      NothingAccepted(cs, b, ReadParam(regs, q, b));
    } else if !Acceptable(cs[0]) {
      NothingAccepted(cs, b, ReadParam(regs, q, b));
    } else {
      ValueFits(cs[0]);
      PutParamEffect(regs, pin, ParamOf(cs[0]), ValueOf(cs[0]), q, b);
      AcceptedStep(cs, b, ReadParam(regs, q, b));
      ConfigSetEffect(PutParam(regs, pin, ParamOf(cs[0]), ValueOf(cs[0])), pin, cs[1..], Done, q, b);
    }
  }

  lemma NothingAccepted(cs: seq<Conf>, a: Param, was: nat)
    requires cs == [] || !Acceptable(cs[0])
    ensures Accepted(cs) == [] && LastValue(Accepted(cs), a, was) == was
  {}

  // ---- Runs of calls for many pins ----

  datatype Call = Call(pin: nat, confs: seq<Conf>)

  /** A run of ns2_pin_config_set; a pin without a register is refused. */
  function RunConfig(regs: Regs, calls: seq<Call>): Regs
    decreases |calls|
  {
    if calls == [] then regs
    else
      var c := calls[0];
      RunConfig(if Configurable(c.pin) then ConfigSet(regs, c.pin, c.confs, ENotSupp).0 else regs, calls[1..])
  }

  /** The accepted configurations of the calls for pin `q`, in order. */
  function Concerning(calls: seq<Call>, q: nat): (r: seq<Conf>)
    ensures forall c :: c in r ==> Acceptable(c)
    decreases |calls|
  {
    if calls == [] then []
    else (if calls[0].pin == q then Accepted(calls[0].confs) else []) + Concerning(calls[1..], q)
  }

  lemma {:induction false} LastValueConcat(a: seq<Conf>, b: seq<Conf>, p: Param, was: nat)
    requires forall c :: c in a + b ==> Acceptable(c)
    ensures forall c :: c in a || c in b ==> Acceptable(c)
    ensures LastValue(a + b, p, was) == LastValue(b, p, LastValue(a, p, was))
    decreases |a|
  {
    hide ParamOf, ValueOf;
    assert forall c :: c in a || c in b ==> c in a + b;
    assert forall c :: c in a || c in b ==> Acceptable(c);
    if a == [] {
      assert a + b == b;
    } else {
      assert a[0] in a;
      var v := if ParamOf(a[0]) == p then ValueOf(a[0]) else was;
      assert (a + b)[0] == a[0] && (a + b)[1..] == a[1..] + b;
      assert forall c :: c in a[1..] + b ==> c in a + b;
      LastValueConcat(a[1..], b, p, v);
    }
  }

  /** After any run every parameter of every pin holds what the accepted configurations of the calls for
      that pin leave, the last one winning, starting from what it held before. */
  lemma {:induction false} RunEffect(regs: Regs, calls: seq<Call>, q: nat, b: Param)
    requires Configurable(q)
    ensures ReadParam(RunConfig(regs, calls), q, b) == LastValue(Concerning(calls, q), b, ReadParam(regs, q, b))
    decreases |calls|
  {
    hide ReadParam, ConfigSet, LastValue, Acceptable;
    if calls == [] {
      NothingAccepted([], b, ReadParam(regs, q, b));
    } else {
      var pin, cs := calls[0].pin, calls[0].confs;
      var mine, rest := if pin == q then Accepted(cs) else [], Concerning(calls[1..], q);
      var next := if Configurable(pin) then ConfigSet(regs, pin, cs, ENotSupp).0 else regs;
      if Configurable(pin) { ConfigSetEffect(regs, pin, cs, ENotSupp, q, b); }
      NothingAccepted([], b, ReadParam(regs, q, b));
      assert ReadParam(next, q, b) == LastValue(mine, b, ReadParam(regs, q, b));
      RunEffect(next, calls[1..], q, b);
      LastValueConcat(mine, rest, b, ReadParam(regs, q, b));
    }
  }

  /** What config_get answers for the kind of `c` right after `c` was accepted. */
  function Reported(c: Conf): (Ret, nat)
    requires Acceptable(c)
  {
    if c.DriveStrength? then (Done, c.arg)
    else if c.SlewRate? then (Done, if c.arg != 0 then 1 else 0)
    else if c.InputEnable? then (if c.arg % 0x1_0000 != 0 then Done else EInval, 0)
    else (Done, 0)
  }

  /** Every configuration reads back. */
  lemma RoundTrip(regs: Regs, pin: nat, c: Conf)
    requires Configurable(pin) && Acceptable(c)
    ensures ConfigSet(regs, pin, [c], ENotSupp).1 == Done
    ensures ConfigGet(ConfigSet(regs, pin, [c], ENotSupp).0, pin, c) == Reported(c)
  {
    hide ReadParam, PutParam;
    ValueFits(c);
    PutParamEffect(regs, pin, ParamOf(c), ValueOf(c), pin, ParamOf(c));
    var r := PutParam(regs, pin, ParamOf(c), ValueOf(c));
    assert [c][1..] == [];
    assert ConfigSet(r, pin, [], Done) == (r, Done);
    assert ConfigSet(regs, pin, [c], ENotSupp) == (r, Done);
  }

  /** Whatever the register holds, exactly one of the three bias queries is answered with yes. */
  lemma OneBias(regs: Regs, pin: nat)
    requires Configurable(pin)
    ensures var yes := set c | c in {BiasDisable, BiasPullUp, BiasPullDown} && ConfigGet(regs, pin, c).0 == Done;
            exists c :: c in {BiasDisable, BiasPullUp, BiasPullDown} && yes == {c}
  {
    hide ReadParam;
    var v := ReadParam(regs, pin, Pull);
    var c := if v == PULL_UP then BiasPullUp else if v == PULL_DOWN then BiasPullDown else BiasDisable;
    var yes := set d | d in {BiasDisable, BiasPullUp, BiasPullDown} && ConfigGet(regs, pin, d).0 == Done;
    assert c in {BiasDisable, BiasPullUp, BiasPullDown} && yes == {c};
  }
}
