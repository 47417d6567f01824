/** Function select of the BCM2835: packed fields, read-back, and no direct move between two
    functions that are not input. */
module PinctrlFsel {
  import opened Words
  import opened Mmio
  import opened PinctrlSpec

  /** Distinct pins have disjoint fields, none of them in an event register. */
  lemma FselApart(pin: nat, p: nat)
    requires pin < NUM_GPIOS && p < NUM_GPIOS
    ensures FselReg(pin) < GPEDS0
    ensures p != pin && FselReg(p) == FselReg(pin) ==>
              FselShift(p) + 3 <= FselShift(pin) || FselShift(pin) + 3 <= FselShift(p)
  {
    assert pin == 10 * (pin / 10) + pin % 10;
    assert p == 10 * (p / 10) + p % 10;
  }

  lemma PutFselEffect(s: Pc, pin: nat, f: nat, p: nat)
    requires pin < NUM_GPIOS && p < NUM_GPIOS && f < FSEL_COUNT
    ensures Fsel(PutFsel(s, pin, f).regs, p) == if p == pin then f else Fsel(s.regs, p)
  {
    hide Field, Insert, Mask, FselShift, FselReg, AndNot, Bit;
    FselApart(pin, p);
    Masks();
    var w := Rd(s.regs, FselReg(pin));
    if p == pin {
      FieldInserted(w, 3, FselShift(pin), f);
    } else if FselReg(p) == FselReg(pin) {
      FieldKept(w, 3, FselShift(pin), f, 3, FselShift(p));
    }
  }

  /** fsel_get after fsel_set: the requested function, and every other pin's function kept. */
  lemma FselSetEffect(s: Pc, pin: nat, f: nat, p: nat)
    requires pin < NUM_GPIOS && p < NUM_GPIOS && f < FSEL_COUNT
    ensures Fsel(FselSet(s, pin, f).regs, p) == if p == pin then f else Fsel(s.regs, p)
  {
    hide Fsel, PutFsel;
    PutFselEffect(s, pin, f, p);
    PutFselEffect(s, pin, FSEL_GPIO_IN, p);
    PutFselEffect(PutFsel(s, pin, FSEL_GPIO_IN), pin, f, p);
  }

  /** No pin goes from one non-input function straight to another. */
  ghost predicate GentleStep(a: Regs, b: Regs) {
    forall p :: 0 <= p < NUM_GPIOS ==>
      Fsel(a, p) == Fsel(b, p) || Fsel(a, p) == FSEL_GPIO_IN || Fsel(b, p) == FSEL_GPIO_IN
  }

  /** `r` was reached from `s` by register writes, each of them gentle. */
  ghost predicate GentleFrom(s: Pc, r: Pc) {
    && |s.writes| <= |r.writes| && r.writes[..|s.writes|] == s.writes
    && var ws := r.writes[|s.writes|..];
       && r.regs == ApplyAll(s.regs, ws)
       && forall k :: 0 <= k < |ws| ==> GentleStep(ApplyAll(s.regs, ws[..k]), ApplyAll(s.regs, ws[..k + 1]))
  }

  lemma GentleRefl(s: Pc)
    ensures GentleFrom(s, s)
  {
    assert s.writes[|s.writes|..] == [];
  }

  lemma GentleSnoc(s: Pc, m: Pc, r: Pc, w: Write)
    requires GentleFrom(s, m) && GentleStep(m.regs, r.regs)
    requires r.writes == m.writes + [w] && r.regs == HwWrite(m.regs, w)
    ensures GentleFrom(s, r)
  {
    hide GentleStep, HwWrite;
    var ws, vs := m.writes[|s.writes|..], r.writes[|s.writes|..];
    assert vs == ws + [w];
    assert vs[..|ws|] == ws;
    forall k | 0 <= k < |vs| ensures GentleStep(ApplyAll(s.regs, vs[..k]), ApplyAll(s.regs, vs[..k + 1])) {
      if k < |ws| {
        assert vs[..k] == ws[..k] && vs[..k + 1] == ws[..k + 1];
      } else {
        assert vs[..k + 1] == vs;
      }
    }
  }

  lemma GentleSame(s: Pc, m: Pc, r: Pc)
    requires GentleFrom(s, m) && r.regs == m.regs && r.writes == m.writes
    ensures GentleFrom(s, r)
  {
    hide GentleStep, HwWrite, ApplyAll;
  }

  /** A write outside the function-select registers. */
  lemma GentleElsewhere(s: Pc, m: Pc, reg: nat, val: nat)
    requires GentleFrom(s, m) && reg >= GPEDS0
    ensures GentleFrom(s, Store(m, reg, val))
  {
    hide GentleFrom;
    var r := Store(m, reg, val);
    assert GentleStep(m.regs, r.regs) by { hide Field, AndNot; }
    hide GentleStep, HwWrite;
    GentleSnoc(s, m, r, Write(reg, val));
  }

  lemma {:induction false} GentleConfigAll(s: Pc, m: Pc, dets: seq<nat>, pin: nat, enable: bool)
    requires GentleFrom(s, m) && forall d :: d in dets ==> d in DETECTORS
    ensures GentleFrom(s, ConfigAll(m, dets, pin, enable))
    decreases |dets|
  {
    hide GentleFrom, Or, AndNot, BIT, Store;
    if dets != [] {
      assert dets[0] in dets;
      var r := dets[0] + Bank(pin) * 4;
      var value := Rd(m.regs, r);
      GentleElsewhere(s, m, r, if enable then Or(value, BIT(Shift(pin))) else AndNot(value, BIT(Shift(pin))));
      GentleConfigAll(s, ConfigOne(m, dets[0], pin, enable), dets[1..], pin, enable);
    }
  }

  lemma GentleConfig(s: Pc, m: Pc, pin: nat, enable: bool)
    requires GentleFrom(s, m) && WellFormed(m) && pin < NUM_GPIOS
    ensures GentleFrom(s, Config(m, pin, enable))
  {
    hide GentleFrom, ConfigAll;
    GentleConfigAll(s, m, Detects(m.irqType[pin]), pin, enable);
  }

  lemma GentleAck(s: Pc, m: Pc, pin: nat)
    requires GentleFrom(s, m)
    ensures GentleFrom(s, Ack(m, pin))
  {
    hide GentleFrom, BIT, Store;
    GentleElsewhere(s, m, GPEDS0 + Bank(pin) * 4, BIT(Shift(pin)));
  }

  lemma GentleEnable(s: Pc, m: Pc, pin: nat)
    requires GentleFrom(s, m) && WellFormed(m) && pin < NUM_GPIOS
    ensures GentleFrom(s, Enable(m, pin))
  {
    hide GentleFrom, Or, BIT, Config;
    var b := Bank(pin);
    var m1 := m.(enabled := m.enabled[b := Or(m.enabled[b], BIT(Shift(pin)))]);
    GentleSame(s, m, m1);
    GentleConfig(s, m1, pin, true);
  }

  lemma GentleDisable(s: Pc, m: Pc, pin: nat)
    requires GentleFrom(s, m) && WellFormed(m) && pin < NUM_GPIOS
    ensures GentleFrom(s, Disable(m, pin))
  {
    hide GentleFrom, AndNot, BIT, Config, Ack;
    GentleConfig(s, m, pin, false);
    var c := Ack(Config(m, pin, false), pin);
    GentleAck(s, Config(m, pin, false), pin);
    GentleSame(s, c, Disable(m, pin));
  }

  lemma GentlePut(s: Pc, m: Pc, pin: nat, t: nat)
    requires GentleFrom(s, m) && WellFormed(m) && pin < NUM_GPIOS
    ensures GentleFrom(s, PutType(m, pin, t))
  {
    hide GentleFrom;
    GentleSame(s, m, PutType(m, pin, t));
  }

  lemma GentleConfigVia(s: Pc, m: Pc, pin: nat, via: nat, enable: bool, t: nat)
    requires GentleFrom(s, m) && WellFormed(m) && pin < NUM_GPIOS
    ensures GentleFrom(s, ConfigVia(m, pin, via, enable, t))
  {
    hide GentleFrom, Config;
    GentlePut(s, m, pin, via);
    GentleConfig(s, PutType(m, pin, via), pin, enable);
    GentlePut(s, Config(PutType(m, pin, via), pin, enable), pin, t);
  }

  lemma GentleReconfigure(s: Pc, m: Pc, pin: nat, t: nat)
    requires GentleFrom(s, m) && WellFormed(m) && pin < NUM_GPIOS
    ensures GentleFrom(s, PutType(Config(m, pin, false), pin, t))
    ensures GentleFrom(s, Reconfigure(m, pin, t))
  {
    hide GentleFrom, Config;
    GentleConfig(s, m, pin, false);
    GentlePut(s, Config(m, pin, false), pin, t);
    GentleConfig(s, PutType(Config(m, pin, false), pin, t), pin, true);
  }

  lemma GentleSetType(s: Pc, m: Pc, pin: nat, t: nat)
    requires GentleFrom(s, m) && WellFormed(m) && pin < NUM_GPIOS
    ensures GentleFrom(s, SetType(m, pin, t).0)
  {
    hide GentleFrom, ConfigVia, Reconfigure, Config, And, Bit;
    GentleConfigVia(s, m, pin, EDGE_FALLING, false, t);
    GentleConfigVia(s, m, pin, EDGE_RISING, false, t);
    GentleConfigVia(s, m, pin, EDGE_FALLING, true, t);
    GentleConfigVia(s, m, pin, EDGE_RISING, true, t);
    GentleReconfigure(s, m, pin, t);
    GentlePut(s, m, pin, t);
    var r := if Enabled(m, pin) then SetTypeEnabled(m, pin, t).0 else SetTypeDisabled(m, pin, t).0;
    assert GentleFrom(s, r);
    GentleSame(s, r, SetType(m, pin, t).0) by { hide SetTypeEnabled, SetTypeDisabled; }
  }

  lemma GentlePutFsel(s: Pc, m: Pc, pin: nat, f: nat)
    requires GentleFrom(s, m) && pin < NUM_GPIOS && f < FSEL_COUNT
    requires Fsel(m.regs, pin) == FSEL_GPIO_IN || f == FSEL_GPIO_IN
    ensures GentleFrom(s, PutFsel(m, pin, f))
  {
    hide GentleFrom, Fsel, Insert;
    var r := PutFsel(m, pin, f);
    forall p | 0 <= p < NUM_GPIOS ensures Fsel(r.regs, p) == if p == pin then f else Fsel(m.regs, p) {
      PutFselEffect(m, pin, f, p);
    }
    GentleSnoc(s, m, r, r.writes[|m.writes|]) by { hide Fsel, HwWrite; }
  }

  lemma GentleFselSet(s: Pc, m: Pc, pin: nat, f: nat)
    requires GentleFrom(s, m) && pin < NUM_GPIOS && f < FSEL_COUNT
    ensures GentleFrom(s, FselSet(m, pin, f))
  {
    hide GentleFrom, Fsel, PutFsel;
    var cur := Fsel(m.regs, pin);
    if cur != f {
      if cur != FSEL_GPIO_IN && f != FSEL_GPIO_IN {
        GentlePutFsel(s, m, pin, FSEL_GPIO_IN);
        PutFselEffect(m, pin, FSEL_GPIO_IN, pin);
        GentlePutFsel(s, PutFsel(m, pin, FSEL_GPIO_IN), pin, f);
      } else {
        GentlePutFsel(s, m, pin, f);
      }
    }
  }

  lemma {:induction false} RunIsGentle(s: Pc, m: Pc, ops: seq<Op>)
    requires GentleFrom(s, m) && WellFormed(m) && forall op :: op in ops ==> ValidOp(op)
    ensures GentleFrom(s, Run(m, ops))
    decreases |ops|
  {
    hide GentleFrom, Enable, Disable, SetType, Ack, FselSet;
    if ops != [] {
      assert ValidOp(ops[0]);
      match ops[0] {
        case OpEnable(p) => GentleEnable(s, m, p);
        case OpDisable(p) => GentleDisable(s, m, p);
        case OpSetType(p, t) => GentleSetType(s, m, p, t);
        case OpAck(p) => GentleAck(s, m, p);
        case OpFsel(p, f) => GentleFselSet(s, m, p, f);
      }
      RunIsGentle(s, Step(m, ops[0]), ops[1..]);
    }
  }

  /** In the write trace of any run of the driver, no pin moves directly between two functions
      that are not input. */
  lemma RunGentle(s: Pc, ops: seq<Op>)
    requires WellFormed(s) && forall op :: op in ops ==> ValidOp(op)
    ensures GentleFrom(s, Run(s, ops))
  {
    hide GentleFrom;
    GentleRefl(s);
    RunIsGentle(s, s, ops);
  }
}
