/** Pin configuration of the iProc controller as a caller sees it: what reads back, which pins a
    call touches, and what the pad does between two register writes. */
module IprocConf {
  import opened Words
  import opened Mmio
  import opened Wrappers
  import opened IprocSpec
  import opened IprocProofs

  // ---- Drive strength ----

  /** The pins whose drive strength is kept in the same bits. Without a separate block only the pin
      itself; the separate block has no banks, so there the pins that agree modulo 32. */
  predicate Shares(s: Iproc, p: nat, q: nat) {
    if s.ioCtrl.Some? then p % 32 == q % 32 else p == q
  }

  function Level(s: Iproc, pin: nat): nat {
    Slices(Drv(s), DrvReg(s, pin), Shift(pin), DRV_STRENGTH_BITS)
  }

  lemma SliceHeld(s: Iproc, pin: nat, n: nat, q: nat, j: nat)
    requires n <= DRV_STRENGTH_BITS && j < DRV_STRENGTH_BITS
    ensures Holds(DrvReg(s, pin), Shift(pin), n, DrvReg(s, q) + 4 * j, Shift(q)) <==> Shares(s, pin, q) && j < n
    ensures Shares(s, pin, q) ==> DrvReg(s, pin) == DrvReg(s, q)
  {
    assert pin == 32 * Bank(pin) + Shift(pin) && q == 32 * Bank(q) + Shift(q);
    if s.ioCtrl.None? && Holds(DrvReg(s, pin), Shift(pin), n, DrvReg(s, q) + 4 * j, Shift(q)) {
      assert Bank(pin) == Bank(q);
    }
  }

  /** Midway, after `n` of the three writes, a sharing pin has the low bits of the new strength and
      the high bits of the old one; every other pin has its own. */
  lemma StrengthPath(s: Iproc, pin: nat, level: nat, n: nat, q: nat, j: nat)
    requires n <= DRV_STRENGTH_BITS
    ensures var t := PutSlices(s, DrvReg(s, pin), Shift(pin), level, n);
            Bit(Level(t, q), j) == if Shares(s, pin, q) && j < n then Bit(level, j) else Bit(Level(s, q), j)
  {
    hide Bit, Slices, PutSlices, Holds, Shift, Bank, RegOf, Shares, Drv;
    var t := PutSlices(s, DrvReg(s, pin), Shift(pin), level, n);
    SlicesBit(Drv(s), DrvReg(s, q), Shift(q), DRV_STRENGTH_BITS);
    SlicesBit(Drv(t), DrvReg(t, q), Shift(q), DRV_STRENGTH_BITS);
    if j < DRV_STRENGTH_BITS {
      SliceHeld(s, pin, n, q, j);
      var r := DrvReg(s, q) + 4 * j;
      PutSlicesBit(s, DrvReg(s, pin), Shift(pin), level, n, r, Shift(q));
      if Shares(s, pin, q) { assert (r - DrvReg(s, pin)) / 4 == j; }
    }
  }

  lemma SharedLevel(s: Iproc, p: nat, q: nat)
    requires Shares(s, p, q)
    ensures Level(s, p) == Level(s, q)
  {
    hide Slices;
  }

  /** A valid strength reads back from every pin that shares its bits; all other pins keep theirs,
      and no register below the drive registers changes. */
  lemma StrengthEffect(s: Iproc, pin: nat, mA: nat, q: nat, reg: nat)
    requires ValidStrength(mA) && reg < ASIU_DRV0_CTRL
    ensures var t := SetStrength(s, pin, mA).0;
            && GetStrength(t, q) == (if Shares(s, pin, q) then mA else GetStrength(s, q))
            && GetBit(t, reg, q) == GetBit(s, reg, q)
            && t.disabled == s.disabled && t.ioCtrl.Some? == s.ioCtrl.Some?
  {
    hide Bit, Slices, PutSlices, GetBit, Shares;
    var level := mA / 2 - 1;
    var t := SetStrength(s, pin, mA).0;
    forall j: nat
      ensures Bit(Level(t, q), j) ==
                if Shares(s, pin, q) && j < DRV_STRENGTH_BITS then Bit(level, j) else Bit(Level(s, q), j)
    {
      StrengthPath(s, pin, level, DRV_STRENGTH_BITS, q, j);
    }
    ThreeBits(s, q, level);
    if Shares(s, pin, q) { Extensional(Level(t, q), level); } else { Extensional(Level(t, q), Level(s, q)); }
    OtherRegister(s, pin, level, q, reg);
  }

  lemma ThreeBits(s: Iproc, q: nat, level: nat)
    requires level < 8
    ensures forall j: nat :: j >= DRV_STRENGTH_BITS ==> !Bit(level, j) && !Bit(Level(s, q), j)
  {
    hide Bit, Slices;
    Powers();
    Fits(level, DRV_STRENGTH_BITS);
    SlicesBit(Drv(s), DrvReg(s, q), Shift(q), DRV_STRENGTH_BITS);
  }

  lemma OtherRegister(s: Iproc, pin: nat, level: nat, q: nat, reg: nat)
    requires reg < ASIU_DRV0_CTRL
    ensures var t := PutSlices(s, DrvReg(s, pin), Shift(pin), level, DRV_STRENGTH_BITS);
            && GetBit(t, reg, q) == GetBit(s, reg, q)
            && t.disabled == s.disabled && t.ioCtrl.Some? == s.ioCtrl.Some?
  {
    hide Bit, PutSlices, GetBit;
    var t := PutSlices(s, DrvReg(s, pin), Shift(pin), level, DRV_STRENGTH_BITS);
    PutSlicesBit(s, DrvReg(s, pin), Shift(pin), level, DRV_STRENGTH_BITS, RegOf(q, reg), Shift(q));
    GetBitIsBit(s, reg, q);
    GetBitIsBit(t, reg, q);
  }

  /** The three writes are not one: on the way from 8 mA to 10 mA the pad drives 2 mA. */
  lemma StrengthDips(s: Iproc, pin: nat)
    requires GetStrength(s, pin) == 8
    ensures GetStrength(PutSlices(s, DrvReg(s, pin), Shift(pin), 10 / 2 - 1, 2), pin) == 2
  {
    hide Slices, PutSlices;
    var t := PutSlices(s, DrvReg(s, pin), Shift(pin), 4, 2);
    assert Level(s, pin) == 3;
    assert !Bit(4, 0) && !Bit(4, 1) by { assert !Bit(2, 0); }
    ZeroBits();
    forall j: nat ensures !Bit(Level(t, pin), j) {
      StrengthPath(s, pin, 4, 2, pin, j);
      if j >= 2 { assert Bit(3, j) == Bit(0, j - 2) by { assert Bit(3, j) == Bit(1, j - 1); } }
    }
    Extensional(Level(t, pin), 0);
  }

  /** The level of the pad after `n` of the writes that set `level`. */
  function Midway(s: Iproc, pin: nat, level: nat, n: nat): nat {
    Level(PutSlices(s, DrvReg(s, pin), Shift(pin), level, n), pin)
  }

  lemma MidwayBit(s: Iproc, pin: nat, level: nat, n: nat, j: nat)
    requires n <= DRV_STRENGTH_BITS
    ensures Bit(Midway(s, pin, level, n), j) == Bit(if j < n then level else Level(s, pin), j)
  {
    hide Bit, Slices, PutSlices;
    StrengthPath(s, pin, level, n, pin, j);
  }

  predicate SameBit(a: nat, b: nat, j: nat) { Bit(a, j) == Bit(b, j) }

  lemma MidwayIsOld(s: Iproc, pin: nat, level: nat, n: nat)
    requires level < 8 && n <= DRV_STRENGTH_BITS
    ensures Midway(s, pin, level, n) == Level(s, pin) <==> forall j: nat :: j < n ==> SameBit(Level(s, pin), level, j)
  {
    hide Bit, Level, Midway;
    var m, was := Midway(s, pin, level, n), Level(s, pin);
    forall j: nat ensures Bit(m, j) == Bit(if j < n then level else was, j) { MidwayBit(s, pin, level, n, j); }
    if forall j: nat :: j < n ==> SameBit(was, level, j) {
      forall j: nat ensures Bit(m, j) == Bit(was, j) { if j < n { assert SameBit(was, level, j); } }
      Extensional(m, was);
    } else {
      var j: nat :| j < n && !SameBit(was, level, j);
      assert Bit(m, j) == Bit(level, j);
    }
  }

  lemma MidwayIsNew(s: Iproc, pin: nat, level: nat, n: nat)
    requires level < 8 && n <= DRV_STRENGTH_BITS
    ensures Midway(s, pin, level, n) == level <==>
              forall j: nat :: n <= j < DRV_STRENGTH_BITS ==> SameBit(Level(s, pin), level, j)
  {
    hide Bit, Level, Midway;
    var m, was := Midway(s, pin, level, n), Level(s, pin);
    ThreeBits(s, pin, level);
    forall j: nat ensures Bit(m, j) == Bit(if j < n then level else was, j) { MidwayBit(s, pin, level, n, j); }
    if forall j: nat :: n <= j < DRV_STRENGTH_BITS ==> SameBit(was, level, j) {
      forall j: nat ensures Bit(m, j) == Bit(level, j) {
        if n <= j < DRV_STRENGTH_BITS { assert SameBit(was, level, j); }
      }
      Extensional(m, level);
    } else {
      var j: nat :| n <= j < DRV_STRENGTH_BITS && !SameBit(was, level, j);
      assert Bit(m, j) == Bit(was, j);
    }
  }

  /** The pad keeps to the old strength or the new one throughout exactly when no two bits of the
      level change. */
  lemma StrengthSteadyIff(s: Iproc, pin: nat, level: nat)
    requires level < 8
    ensures (forall n: nat :: n <= DRV_STRENGTH_BITS ==>
               Midway(s, pin, level, n) == Level(s, pin) || Midway(s, pin, level, n) == level)
            <==> (forall j: nat, k: nat :: j < k < DRV_STRENGTH_BITS ==>
                    SameBit(Level(s, pin), level, j) || SameBit(Level(s, pin), level, k))
  {
    hide SameBit, Level, Midway;
    forall n: nat | n <= DRV_STRENGTH_BITS
      ensures Midway(s, pin, level, n) == Level(s, pin) <==> forall j: nat :: j < n ==> SameBit(Level(s, pin), level, j)
      ensures Midway(s, pin, level, n) == level <==>
                forall j: nat :: n <= j < DRV_STRENGTH_BITS ==> SameBit(Level(s, pin), level, j)
    {
      MidwayIsOld(s, pin, level, n);
      MidwayIsNew(s, pin, level, n);
    }
    forall j: nat, k: nat
      | j < k < DRV_STRENGTH_BITS && !SameBit(Level(s, pin), level, j) && !SameBit(Level(s, pin), level, k)
      ensures Midway(s, pin, level, k) != Level(s, pin) && Midway(s, pin, level, k) != level {}
  }

  // ---- Lists of configurations ----

  /** What a pin is set to. `up` is kept by the pad while its resistor is off. */
  datatype Settings = Settings(enabled: bool, up: bool, strength: nat)

  function View(s: Iproc, pin: nat): Settings {
    Settings(GetBit(s, RES_EN, pin), GetBit(s, PAD_RES, pin), GetStrength(s, pin))
  }

  predicate Acceptable(disabled: seq<Param>, c: Conf) {
    c.param !in disabled && !c.param.OtherParam? && (c.param == DriveStrength ==> ValidStrength(c.arg))
  }

  function Accepted(disabled: seq<Param>, cs: seq<Conf>): seq<Conf>
    decreases |cs|
  {
    if cs == [] || !Acceptable(disabled, cs[0]) then [] else [cs[0]] + Accepted(disabled, cs[1..])
  }

  function Setting(v: Settings, c: Conf): Settings {
    match c.param
    case BiasDisable => v.(enabled := false)
    case BiasPullUp => v.(enabled := true, up := true)
    case BiasPullDown => v.(enabled := true, up := false)
    case DriveStrength => v.(strength := c.arg)
    case OtherParam(_) => v
  }

  function Settled(v: Settings, cs: seq<Conf>): Settings
    decreases |cs|
  {
    if cs == [] then v else Settled(Setting(v, cs[0]), cs[1..])
  }

  /** The settings of `q` when those of `pin` have become `v`. */
  function Seen(s: Iproc, pin: nat, v: Settings, q: nat): Settings {
    var was := View(s, q);
    Settings(if q == pin then v.enabled else was.enabled, if q == pin then v.up else was.up,
             if Shares(s, pin, q) then v.strength else was.strength)
  }

  lemma PullEffect(s: Iproc, pin: nat, disable: bool, up: bool, q: nat)
    ensures var t := SetPull(s, pin, disable, up);
            && GetBit(t, RES_EN, q) == (if q == pin then !disable else GetBit(s, RES_EN, q))
            && GetBit(t, PAD_RES, q) == (if q == pin && !disable then up else GetBit(s, PAD_RES, q))
            && GetStrength(t, q) == GetStrength(s, q)
            && t.disabled == s.disabled && t.ioCtrl.Some? == s.ioCtrl.Some?
  {
    hide GetBit, GetStrength, Or, AndNot, BIT;
    if disable {
      PullBitEffect(s, RES_EN, pin, false, q);
    } else {
      var m := SetBit(s, PAD_RES, pin, up);
      PullBitEffect(s, PAD_RES, pin, up, q);
      PullBitEffect(m, RES_EN, pin, true, q);
    }
  }

  lemma PullBitEffect(s: Iproc, reg: nat, pin: nat, on: bool, q: nat)
    requires reg < ASIU_DRV0_CTRL
    ensures var t := SetBit(s, reg, pin, on);
            && (forall r :: r == RES_EN || r == PAD_RES ==>
                  GetBit(t, r, q) == if r == reg && q == pin then on else GetBit(s, r, q))
            && GetStrength(t, q) == GetStrength(s, q)
            && t.disabled == s.disabled && t.ioCtrl == s.ioCtrl
  {
    hide GetBit, Bit, Or, And, AndNot, BIT, Slices;
    var t := SetBit(s, reg, pin, on);
    SetBitEffect(s, reg, pin, on, RES_EN, q);
    SetBitEffect(s, reg, pin, on, PAD_RES, q);
    SlicesBit(Drv(s), DrvReg(s, q), Shift(q), DRV_STRENGTH_BITS);
    SlicesBit(Drv(t), DrvReg(t, q), Shift(q), DRV_STRENGTH_BITS);
    forall j: nat ensures Bit(Level(t, q), j) == Bit(Level(s, q), j) {
      if j < DRV_STRENGTH_BITS { assert RegOf(pin, reg) != DrvReg(s, q) + 4 * j || s.ioCtrl.Some?; }
    }
    Extensional(Level(t, q), Level(s, q));
  }

  /** An accepted configuration becomes the setting of its pin and leaves all others alone, except
      that a shared drive strength is seen by the pins that share it. A refused one changes nothing. */
  lemma ApplyConfEffect(s: Iproc, pin: nat, c: Conf, q: nat)
    ensures var (t, ret) := ApplyConf(s, pin, c);
            if Acceptable(s.disabled, c) then
              && ret == Done && View(t, q) == Seen(s, pin, Setting(View(s, pin), c), q)
              && t.disabled == s.disabled && t.ioCtrl.Some? == s.ioCtrl.Some?
            else ret == ENotSupp && t == s
  {
    hide GetBit, GetStrength, SetPull, PutSlices;
    if Acceptable(s.disabled, c) {
      SharedStrength(s, pin, q);
      if c.param == DriveStrength {
        StrengthEffect(s, pin, c.arg, q, RES_EN);
        StrengthEffect(s, pin, c.arg, q, PAD_RES);
      } else {
        PullEffect(s, pin, c.param == BiasDisable, c.param == BiasPullUp, q);
      }
    }
  }

  lemma SharedStrength(s: Iproc, pin: nat, q: nat)
    ensures Shares(s, pin, q) ==> GetStrength(s, pin) == GetStrength(s, q)
  {
    hide Slices;
    if Shares(s, pin, q) { SharedLevel(s, pin, q); }
  }

  /** A whole list: what comes before the first refusal takes effect in order, and the call succeeds
      exactly when nothing was refused. */
  lemma {:induction false} ConfigSetEffect(s: Iproc, pin: nat, cs: seq<Conf>, ret: Ret, q: nat)
    ensures var (t, ret') := ConfigSet(s, pin, cs, ret);
            var ok := Accepted(s.disabled, cs);
            && View(t, q) == Seen(s, pin, Settled(View(s, pin), ok), q)
            && ret' == (if cs == [] then ret else if |ok| == |cs| then Done else ENotSupp)
            && t.disabled == s.disabled
    decreases |cs|
  {
    hide View, ApplyConf, Acceptable, Setting, Shares;
    if cs == [] {
      NothingSeen(s, pin, q);
    } else {
      var s1 := ApplyConf(s, pin, cs[0]).0;
      ApplyConfEffect(s, pin, cs[0], q);
      ApplyConfEffect(s, pin, cs[0], pin);
      if Acceptable(s.disabled, cs[0]) {
        ConfigSetEffect(s1, pin, cs[1..], Done, q);
        SharesSelf(s, pin, s1, q);
        var rest := Accepted(s.disabled, cs[1..]);
        assert ([cs[0]] + rest)[0] == cs[0] && ([cs[0]] + rest)[1..] == rest;
      } else {
        NothingSeen(s, pin, q);
      }
    }
  }

  lemma NothingSeen(s: Iproc, pin: nat, q: nat)
    ensures Seen(s, pin, View(s, pin), q) == View(s, q)
  {
    hide GetBit, GetStrength;
    SharedStrength(s, pin, q);
  }

  lemma SharesSelf(s: Iproc, pin: nat, t: Iproc, q: nat)
    requires t.ioCtrl.Some? == s.ioCtrl.Some?
    ensures Shares(s, pin, pin) && Shares(t, pin, q) == Shares(s, pin, q)
  {}

  /** Every accepted configuration reads back. */
  lemma RoundTrip(s: Iproc, pin: nat, c: Conf)
    requires Acceptable(s.disabled, c)
    ensures ConfigSet(s, pin, [c], ENotSupp).1 == Done
    ensures ConfigGet(ConfigSet(s, pin, [c], ENotSupp).0, pin, c.param) ==
              (Done, if c.param == DriveStrength then c.arg else 0)
  {
    hide GetBit, GetStrength, ApplyConf;
    ApplyConfEffect(s, pin, c, pin);
    var t := ApplyConf(s, pin, c).0;
    assert [c][1..] == [];
    assert ConfigSet(t, pin, [], Done) == (t, Done);
    assert ConfigSet(s, pin, [c], ENotSupp) == (t, Done);
  }

  /** As long as no bias parameter is disabled, exactly one of the three bias queries is answered with
      yes, whatever the registers hold. */
  lemma OneBias(s: Iproc, pin: nat)
    requires BiasDisable !in s.disabled && BiasPullUp !in s.disabled && BiasPullDown !in s.disabled
    ensures var yes := set p | p in {BiasDisable, BiasPullUp, BiasPullDown} && ConfigGet(s, pin, p).0 == Done;
            exists p :: p in {BiasDisable, BiasPullUp, BiasPullDown} && yes == {p}
  {
    hide GetBit, GetStrength;
    var p := if !GetBit(s, RES_EN, pin) then BiasDisable
             else if GetBit(s, PAD_RES, pin) then BiasPullUp else BiasPullDown;
    var yes := set q | q in {BiasDisable, BiasPullUp, BiasPullDown} && ConfigGet(s, pin, q).0 == Done;
    assert p in {BiasDisable, BiasPullUp, BiasPullDown} && yes == {p};
  }

  // ---- Runs ----

  datatype Call = Call(pin: nat, confs: seq<Conf>)

  function Run(s: Iproc, calls: seq<Call>): Iproc
    decreases |calls|
  {
    if calls == [] then s else Run(ConfigSet(s, calls[0].pin, calls[0].confs, ENotSupp).0, calls[1..])
  }

  function Strengths(cs: seq<Conf>): seq<Conf>
    decreases |cs|
  {
    if cs == [] then [] else (if cs[0].param == DriveStrength then [cs[0]] else []) + Strengths(cs[1..])
  }

  /** The accepted configurations of a run that concern pin `q`: those made for it, and the drive
      strengths made for the pins it shares with. */
  function Concerning(s: Iproc, calls: seq<Call>, q: nat): seq<Conf>
    decreases |calls|
  {
    if calls == [] then []
    else
      var ok := Accepted(s.disabled, calls[0].confs);
      (if q == calls[0].pin then ok else if Shares(s, calls[0].pin, q) then Strengths(ok) else [])
      + Concerning(s, calls[1..], q)
  }

  lemma {:induction false} SettledConcat(v: Settings, a: seq<Conf>, b: seq<Conf>)
    ensures Settled(v, a + b) == Settled(Settled(v, a), b)
    decreases |a|
  {
    hide Setting;
    if a == [] {
      assert a + b == b;
    } else {
      assert (a + b)[0] == a[0] && (a + b)[1..] == a[1..] + b;
      SettledConcat(Setting(v, a[0]), a[1..], b);
    }
  }

  lemma {:induction false} OnlyStrengths(v: Settings, u: Settings, cs: seq<Conf>)
    requires v.strength == u.strength
    ensures Settled(u, Strengths(cs)) == u.(strength := Settled(v, cs).strength)
    decreases |cs|
  {
    if cs != [] {
      var u1 := if cs[0].param == DriveStrength then Setting(u, cs[0]) else u;
      OnlyStrengths(Setting(v, cs[0]), u1, cs[1..]);
      if cs[0].param == DriveStrength {
        assert ([cs[0]] + Strengths(cs[1..]))[1..] == Strengths(cs[1..]);
      } else {
        assert [] + Strengths(cs[1..]) == Strengths(cs[1..]);
      }
    }
  }

  /** After any run every pin holds what the accepted configurations that concern it leave, in
      order, starting from what it held before. */
  lemma {:induction false} RunEffect(s: Iproc, calls: seq<Call>, q: nat)
    ensures View(Run(s, calls), q) == Settled(View(s, q), Concerning(s, calls, q))
    decreases |calls|
  {
    if calls != [] {
      var pin, cs := calls[0].pin, calls[0].confs;
      var ok := Accepted(s.disabled, cs);
      var t := ConfigSet(s, pin, cs, ENotSupp).0;
      hide View, ConfigSet, Settled, Strengths, Accepted, Shares;
      ConfigSetEffect(s, pin, cs, ENotSupp, q);
      StillShared(s, pin, cs, ENotSupp);
      SameConcerns(s, t, calls[1..], q);
      RunEffect(t, calls[1..], q);
      var mine := if q == pin then ok else if Shares(s, pin, q) then Strengths(ok) else [];
      assert Settled(View(s, q), mine) == Seen(s, pin, Settled(View(s, pin), ok), q) by { OneCall(s, pin, ok, q); }
      SettledConcat(View(s, q), mine, Concerning(s, calls[1..], q));
    }
  }

  lemma OneCall(s: Iproc, pin: nat, ok: seq<Conf>, q: nat)
    ensures var mine := if q == pin then ok else if Shares(s, pin, q) then Strengths(ok) else [];
            Settled(View(s, q), mine) == Seen(s, pin, Settled(View(s, pin), ok), q)
  {
    hide GetBit, GetStrength;
    SharedStrength(s, pin, q);
    if Shares(s, pin, q) { OnlyStrengths(View(s, pin), View(s, q), ok); }
  }

  lemma {:induction false} StillShared(s: Iproc, pin: nat, cs: seq<Conf>, ret: Ret)
    ensures ConfigSet(s, pin, cs, ret).0.ioCtrl.Some? == s.ioCtrl.Some?
    ensures ConfigSet(s, pin, cs, ret).0.disabled == s.disabled
    decreases |cs|
  {
    hide ApplyConf, View, Seen, Setting;
    if cs != [] {
      ApplyConfEffect(s, pin, cs[0], pin);
      var (s1, ret1) := ApplyConf(s, pin, cs[0]);
      if ret1 == Done { StillShared(s1, pin, cs[1..], ret1); }
    }
  }

  lemma {:induction false} SameConcerns(s: Iproc, t: Iproc, calls: seq<Call>, q: nat)
    requires t.disabled == s.disabled && t.ioCtrl.Some? == s.ioCtrl.Some?
    ensures Concerning(t, calls, q) == Concerning(s, calls, q)
    decreases |calls|
  {
    if calls != [] { SameConcerns(s, t, calls[1..], q); }
  }

  // ---- Between two writes ----

  function Replay(s: Iproc, ws: seq<Access>): Iproc
    requires forall w :: w in ws ==> w.io ==> s.ioCtrl.Some?
    decreases |ws|
  {
    if ws == [] then s
    else
      assert ws[0] in ws && forall w :: w in ws[1..] ==> w in ws;
      Replay(Store(s, ws[0]), ws[1..])
  }

  datatype Pull = Off | Up | Down

  function PadPull(s: Iproc, pin: nat): Pull {
    if !GetBit(s, RES_EN, pin) then Off else if GetBit(s, PAD_RES, pin) then Up else Down
  }

  /** What SetBit writes. */
  function BitWrite(s: Iproc, reg: nat, pin: nat, on: bool): (a: Access)
    ensures !a.io && SetBit(s, reg, pin, on) == Store(s, a)
  {
    var w := Rd(s.base, RegOf(pin, reg));
    Access(false, RegOf(pin, reg), if on then Or(w, BIT(Shift(pin))) else AndNot(w, BIT(Shift(pin))))
  }

  /** The writes between two states whose second trace extends the first. */
  function Added(s: Iproc, t: Iproc): seq<Access>
    requires s.trace <= t.trace
  {
    t.trace[|s.trace|..]
  }

  lemma TwoWrites(s: Iproc, a: Access, b: Access)
    requires !a.io && !b.io
    ensures Replay(s, []) == s && Replay(s, [a]) == Store(s, a) && Replay(s, [a, b]) == Store(Store(s, a), b)
    ensures s.trace <= Store(Store(s, a), b).trace && Added(s, Store(Store(s, a), b)) == [a, b]
    ensures s.trace <= Store(s, a).trace && Added(s, Store(s, a)) == [a]
    ensures [a, b][..0] == [] && [a, b][..1] == [a] && [a, b][..2] == [a, b] && [a][..0] == [] && [a][..1] == [a]
  {
    assert [a][1..] == [] && [a, b][1..] == [b] && [b][1..] == [];
    assert Replay(Store(s, a), [b]) == Store(Store(s, a), b);
  }

  /** Changing the pull of a pad passes through no third pull: after every write the pad is as it
      was or as it will be, and no other pad ever changes. */
  lemma PullSteady(s: Iproc, pin: nat, disable: bool, up: bool, k: nat, q: nat)
    ensures var t := SetPull(s, pin, disable, up);
            && s.trace <= t.trace
            && (forall w :: w in Added(s, t) ==> !w.io)
            && Replay(s, Added(s, t)) == t
            && (k <= |Added(s, t)| ==>
                  var m := Replay(s, Added(s, t)[..k]);
                  && (PadPull(m, pin) == PadPull(s, pin) || PadPull(m, pin) == PadPull(t, pin))
                  && (q != pin ==> PadPull(m, q) == PadPull(s, q)))
  {
    hide GetBit, BitWrite, SetBit, Store, Replay;
    PullSteps(s, pin, disable, up, q);
    PullSteps(s, pin, disable, up, pin);
    if disable {
      var a := BitWrite(s, RES_EN, pin, false);
      TwoWrites(s, a, a);
    } else {
      var a := BitWrite(s, PAD_RES, pin, up);
      var m := SetBit(s, PAD_RES, pin, up);
      var b := BitWrite(m, RES_EN, pin, true);
      TwoWrites(s, a, b);
      assert Added(s, SetPull(s, pin, disable, up)) == [a, b];
    }
  }

  lemma PullSteps(s: Iproc, pin: nat, disable: bool, up: bool, q: nat)
    ensures var m := SetBit(s, PAD_RES, pin, up);
            var t := SetPull(s, pin, disable, up);
            && (q == pin ==> !disable ==> PadPull(m, q) == PadPull(s, q) || PadPull(m, q) == PadPull(t, q))
            && (q != pin ==> PadPull(m, q) == PadPull(s, q) && PadPull(t, q) == PadPull(s, q))
  {
    hide GetBit, SetBit, GetStrength;
    PullEffect(s, pin, disable, up, q);
    PullBitEffect(s, PAD_RES, pin, up, q);
  }

  /** The level a pin drives, if it drives one. */
  function Driven(s: Iproc, pin: nat): Option<bool> {
    if GetBit(s, OUT_EN, pin) then Some(GetBit(s, DATA_OUT, pin)) else None
  }

  /** direction_output ends with the pin driving the requested level, but it enables the driver
      before it writes the level: in between, the pin drives the level that the data register held.
      The pin goes straight from its old state to its new one exactly when the register already
      held that level, or the pin was an output already. */
  lemma OutputSteadyIff(s: Iproc, pin: nat, val: bool)
    ensures var t := DirectionOutput(s, pin, val);
            var m := SetBit(s, OUT_EN, pin, true);
            && Driven(t, pin) == Some(val)
            && Driven(m, pin) == Some(GetBit(s, DATA_OUT, pin))
            && (Driven(m, pin) == Driven(s, pin) || Driven(m, pin) == Driven(t, pin) <==>
                GetBit(s, OUT_EN, pin) || GetBit(s, DATA_OUT, pin) == val)
  {
    hide GetBit, SetBit;
    var m := SetBit(s, OUT_EN, pin, true);
    SetBitEffect(s, OUT_EN, pin, true, OUT_EN, pin);
    SetBitEffect(s, OUT_EN, pin, true, DATA_OUT, pin);
    SetBitEffect(m, DATA_OUT, pin, val, OUT_EN, pin);
    SetBitEffect(m, DATA_OUT, pin, val, DATA_OUT, pin);
  }

  /** A glitch that every pin can show, after any calls: a pin that drove high, was turned to input and
      is now to drive low drives high first. */
  lemma OutputGlitch(s: Iproc, pin: nat)
    ensures var u := SetBit(DirectionOutput(s, pin, true), OUT_EN, pin, false);
            var t := DirectionOutput(u, pin, false);
            && Driven(u, pin) == None && Driven(t, pin) == Some(false)
            && Driven(SetBit(u, OUT_EN, pin, true), pin) == Some(true)
  {
    hide GetBit, SetBit;
    var o := DirectionOutput(s, pin, true);
    var u := SetBit(o, OUT_EN, pin, false);
    OutputSteadyIff(s, pin, true);
    OutputSteadyIff(u, pin, false);
    SetBitEffect(o, OUT_EN, pin, false, OUT_EN, pin);
    SetBitEffect(o, OUT_EN, pin, false, DATA_OUT, pin);
  }

  // ---- Interrupt types ----

  /** The interrupt type that the hardware reads from its three registers. */
  function TypeOf(s: Iproc, pin: nat): IrqType {
    if GetBit(s, INT_TYPE, pin) then (if GetBit(s, INT_EDGE, pin) then LevelHigh else LevelLow)
    else if GetBit(s, INT_DE, pin) then EdgeBoth
    else if GetBit(s, INT_EDGE, pin) then EdgeRising
    else EdgeFalling
  }

  /** Every valid type is what the hardware then reads for that pin and for no other; an invalid
      type changes nothing. */
  lemma IrqTypeReadsBack(s: Iproc, pin: nat, t: IrqType, q: nat)
    ensures var (r, ret) := SetIrqType(s, pin, t);
            if t == NoType then ret == EInval && r == s
            else ret == Done && TypeOf(r, q) == (if q == pin then t else TypeOf(s, q))
  {
    hide GetBit, SetBit;
    if t != NoType {
      var level := t == LevelHigh || t == LevelLow;
      var rising := t == EdgeRising || t == LevelHigh;
      var a := SetBit(s, INT_TYPE, pin, level);
      var b := SetBit(a, INT_DE, pin, t == EdgeBoth);
      forall reg | reg == INT_TYPE || reg == INT_DE || reg == INT_EDGE
        ensures GetBit(SetBit(b, INT_EDGE, pin, rising), reg, q) ==
                  (if q == pin then (if reg == INT_TYPE then level else if reg == INT_DE then t == EdgeBoth else rising)
                   else GetBit(s, reg, q))
      {
        SetBitEffect(s, INT_TYPE, pin, level, reg, q);
        SetBitEffect(a, INT_DE, pin, t == EdgeBoth, reg, q);
        SetBitEffect(b, INT_EDGE, pin, rising, reg, q);
      }
    }
  }
}
