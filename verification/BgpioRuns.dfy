/** What a memory-mapped GPIO chip answers after any run of calls, and what it is after bgpio_init. */
module BgpioRuns {
  import opened Words
  import opened BgpioSpec
  import opened BgpioProofs

  // ---- The last call on a pin decides ----

  predicate HasDirection(cfg: Config) { cfg.dirMode == DirOut || cfg.dirMode == DirIn }

  /** The outputs are written from the shadow. */
  predicate Shadowed(cfg: Config) { cfg.setMode == SetDat || cfg.setMode == SetSet }

  /** The call writes the outputs. */
  predicate Drives(cfg: Config, op: Op) {
    cfg.setMode != SetNone && !op.OpDirIn? && (op.OpDirOut? ==> cfg.dirMode != DirNoOutput)
  }

  /** The call gives the pin a level, `Given(op, pin)`. */
  predicate Gives(cfg: Config, op: Op, pin: nat) {
    Drives(cfg, op) && if op.OpSetMultiple? then Bit(op.mask, pin) else op.pin == pin
  }

  predicate Given(op: Op, pin: nat)
    requires !op.OpDirIn?
  {
    if op.OpSetMultiple? then Bit(op.values, pin) else op.val
  }

  predicate IsTurn(op: Op) { op.OpDirIn? || op.OpDirOut? }

  /** The call turns the pin to input or output. */
  predicate Turns(op: Op, pin: nat) { IsTurn(op) && op.pin == pin }

  /** The pin is an input after `ops`: the last direction call on it decides. */
  predicate InputAfter(was: bool, ops: seq<Op>, pin: nat)
    decreases |ops|
  {
    if ops == [] then was
    else if Turns(ops[|ops| - 1], pin) then ops[|ops| - 1].OpDirIn?
    else InputAfter(was, ops[..|ops| - 1], pin)
  }

  /** The level of the pin's latch after `ops`: the last level that was given to it decides. */
  predicate LevelAfter(cfg: Config, was: bool, ops: seq<Op>, pin: nat)
    decreases |ops|
  {
    if ops == [] then was
    else if Gives(cfg, ops[|ops| - 1], pin) then Given(ops[|ops| - 1], pin)
    else LevelAfter(cfg, was, ops[..|ops| - 1], pin)
  }

  predicate SomeDrives(cfg: Config, ops: seq<Op>) { exists op :: op in ops && Drives(cfg, op) }

  predicate SomeGives(cfg: Config, ops: seq<Op>, pin: nat) { exists op :: op in ops && Gives(cfg, op, pin) }

  predicate SomeTurns(ops: seq<Op>) { exists op :: op in ops && IsTurn(op) }

  predicate SomeTurnsPin(ops: seq<Op>, pin: nat) { exists op :: op in ops && Turns(op, pin) }

  lemma {:induction false} RunSnoc(s: Chip, ops: seq<Op>, op: Op)
    requires ValidOp(s.cfg, op) && forall o :: o in ops ==> ValidOp(s.cfg, o)
    ensures Run(s, ops + [op]) == Step(Run(s, ops), op)
    decreases |ops|
  {
    hide Step, ValidOp;
    if ops == [] {
      assert ([] + [op])[1..] == [];
    } else {
      assert ops[0] in ops && forall o :: o in ops[1..] ==> o in ops;
      assert (ops + [op])[1..] == ops[1..] + [op];
      RunSnoc(Step(s, ops[0]), ops[1..], op);
    }
  }

  /** The run without its last call, and that call. */
  lemma RunLast(s: Chip, ops: seq<Op>)
    requires ops != [] && forall op :: op in ops ==> ValidOp(s.cfg, op)
    ensures ValidOp(s.cfg, ops[|ops| - 1]) && forall op :: op in ops[..|ops| - 1] ==> ValidOp(s.cfg, op)
    ensures Run(s, ops) == Step(Run(s, ops[..|ops| - 1]), ops[|ops| - 1])
  {
    hide Run, Step, ValidOp;
    var front, last := ops[..|ops| - 1], ops[|ops| - 1];
    assert ops == front + [last] && last in ops;
    forall op | op in front ensures op in ops {}
    RunSnoc(s, front, last);
  }

  // ---- One call ----

  lemma StepLevel(s: Chip, op: Op, pin: nat)
    requires ValidOp(s.cfg, op) && pin < s.cfg.bits
    ensures var r, i := Step(s, op), Pos(s.cfg, pin);
            && (!Drives(s.cfg, op) ==> r.data == s.data && r.out == s.out)
            && (if Shadowed(s.cfg)
                then Bit(r.data, i) == (if Gives(s.cfg, op, pin) then Given(op, pin) else Bit(s.data, i))
                     && (Drives(s.cfg, op) ==> r.out == r.data)
                else Bit(r.out, i) == if Gives(s.cfg, op, pin) then Given(op, pin) else Bit(s.out, i))
  {
    hide Bit, Set, SetMultiple, Or, AndNot, BIT;
    PosInvolution(s.cfg, pin);
    match op {
      case OpSet(p, val) => SetLevel(s, p, val, pin);
      case OpSetMultiple(mask, values) => SetMultipleLevel(s, mask, values, pin);
      case OpDirIn(p) =>
      case OpDirOut(p, val) => SetLevel(s, p, val, pin);
    }
  }

  lemma SetLevel(s: Chip, p: nat, val: bool, pin: nat)
    requires p < s.cfg.bits && pin < s.cfg.bits
    ensures var r, i := Set(s, p, val), Pos(s.cfg, pin);
            if s.cfg.setMode == SetNone then r == s
            else if s.cfg.setMode == SetWithClear
            then r.data == s.data && Bit(r.out, i) == if p == pin then val else Bit(s.out, i)
            else r.out == r.data && Bit(r.data, i) == if p == pin then val else Bit(s.data, i)
  {
    hide Bit;
    if s.cfg.setMode != SetNone {
      hide Set;
      SetBits(s, p, val, Pos(s.cfg, pin));
    }
  }

  lemma SetMultipleLevel(s: Chip, mask: nat, values: nat, pin: nat)
    requires s.cfg.setMode != SetNone && pin < s.cfg.bits
    ensures var r, i := SetMultiple(s, mask, values), Pos(s.cfg, pin);
            if s.cfg.setMode == SetWithClear
            then r.data == s.data && Bit(r.out, i) == if Bit(mask, pin) then Bit(values, pin) else Bit(s.out, i)
            else r.out == r.data && Bit(r.data, i) == if Bit(mask, pin) then Bit(values, pin) else Bit(s.data, i)
  {
    hide Bit, Or, AndNot, Select;
    ZeroBits();
    PosInvolution(s.cfg, pin);
    SelectBit(s.cfg, mask, values, true, s.cfg.bits, Pos(s.cfg, pin));
    SelectBit(s.cfg, mask, values, false, s.cfg.bits, Pos(s.cfg, pin));
  }

  lemma StepTurn(s: Chip, op: Op, pin: nat)
    requires ValidOp(s.cfg, op) && pin < s.cfg.bits
    ensures var r, i := Step(s, op), Pos(s.cfg, pin);
            if HasDirection(s.cfg) && IsTurn(op)
            then r.dirReg == r.dir
                 && Bit(r.dir, i) == if op.pin == pin then op.OpDirIn? == (s.cfg.dirMode == DirIn) else Bit(s.dir, i)
            else r.dirReg == s.dirReg && r.dir == s.dir
  {
    hide Bit, Set, SetMultiple, Or, AndNot, BIT;
    PosInvolution(s.cfg, pin);
    match op {
      case OpSet(p, val) => SetFrame(s, p, val);
      case OpSetMultiple(mask, values) => BulkFrame(s, mask, values);
      case OpDirIn(p) =>
      case OpDirOut(p, val) => SetFrame(s, p, val);
    }
  }

  // ---- Runs, from any state ----

  lemma RunNothing(s: Chip)
    ensures Run(s, []) == s
  {}

  lemma {:induction false} RunLevels(s: Chip, ops: seq<Op>, pin: nat)
    requires pin < s.cfg.bits && forall op :: op in ops ==> ValidOp(s.cfg, op)
    ensures var r, i := Run(s, ops), Pos(s.cfg, pin);
            && (!SomeDrives(s.cfg, ops) ==> r.data == s.data && r.out == s.out)
            && (if Shadowed(s.cfg)
                then Bit(r.data, i) == LevelAfter(s.cfg, Bit(s.data, i), ops, pin)
                     && (SomeDrives(s.cfg, ops) ==> r.out == r.data)
                else Bit(r.out, i) == LevelAfter(s.cfg, Bit(s.out, i), ops, pin))
    decreases |ops|
  {
    hide Run, Step, Bit, ValidOp, Gives, Given, Drives;
    if ops == [] {
      RunNothing(s);
    } else {
      RunLast(s, ops);
      RunLevels(s, ops[..|ops| - 1], pin);
      StepLevel(Run(s, ops[..|ops| - 1]), ops[|ops| - 1], pin);
      LastOrBefore(ops);
    }
  }

  lemma LastOrBefore(ops: seq<Op>)
    requires ops != []
    ensures forall op :: op in ops <==> op == ops[|ops| - 1] || op in ops[..|ops| - 1]
  {
    assert ops == ops[..|ops| - 1] + [ops[|ops| - 1]];
  }

  lemma {:induction false} RunTurns(s: Chip, ops: seq<Op>, pin: nat)
    requires pin < s.cfg.bits && HasDirection(s.cfg) && forall op :: op in ops ==> ValidOp(s.cfg, op)
    ensures var r, i, toInput := Run(s, ops), Pos(s.cfg, pin), s.cfg.dirMode == DirIn;
            && (Bit(r.dir, i) == toInput) == InputAfter(Bit(s.dir, i) == toInput, ops, pin)
            && (if SomeTurns(ops) then r.dirReg == r.dir else r.dirReg == s.dirReg && r.dir == s.dir)
    decreases |ops|
  {
    hide Run, Step, Bit, ValidOp;
    if ops == [] {
      RunNothing(s);
    } else {
      RunLast(s, ops);
      RunTurns(s, ops[..|ops| - 1], pin);
      StepTurn(Run(s, ops[..|ops| - 1]), ops[|ops| - 1], pin);
      LastOrBefore(ops);
    }
  }

  /** Without a register the direction words never change. */
  lemma {:induction false} RunNoTurn(s: Chip, ops: seq<Op>, pin: nat)
    requires pin < s.cfg.bits && !HasDirection(s.cfg) && forall op :: op in ops ==> ValidOp(s.cfg, op)
    ensures Run(s, ops).dir == s.dir
    decreases |ops|
  {
    hide Run, Step, Bit, ValidOp;
    if ops == [] {
      RunNothing(s);
    } else {
      RunLast(s, ops);
      RunNoTurn(s, ops[..|ops| - 1], pin);
      StepTurn(Run(s, ops[..|ops| - 1]), ops[|ops| - 1], pin);
    }
  }

  lemma {:induction false} NeverGiven(cfg: Config, was: bool, ops: seq<Op>, pin: nat)
    requires !SomeGives(cfg, ops, pin)
    ensures LevelAfter(cfg, was, ops, pin) == was
    decreases |ops|
  {
    hide Gives, Given;
    if ops != [] {
      LastOrBefore(ops);
      NeverGiven(cfg, was, ops[..|ops| - 1], pin);
    }
  }

  lemma {:induction false} NeverTurned(was: bool, ops: seq<Op>, pin: nat)
    requires !SomeTurnsPin(ops, pin)
    ensures InputAfter(was, ops, pin) == was
    decreases |ops|
  {
    if ops != [] {
      LastOrBefore(ops);
      NeverTurned(was, ops[..|ops| - 1], pin);
    }
  }

  /** What the latch of a pin starts from: once anything has been written, from the shadow. */
  predicate LevelFrom(s: Chip, ops: seq<Op>, pin: nat)
    requires pin < s.cfg.bits
  {
    Bit(if Shadowed(s.cfg) && SomeDrives(s.cfg, ops) then s.data else s.out, Pos(s.cfg, pin))
  }

  /** After any run, from any state, the latch of a pin holds the last level that was given to it. A pin
      that was given none keeps its level until the first write for any pin, and then takes that of the
      shadow. The output shadow is right afterwards exactly when it was, or something was written. */
  lemma RunLevel(s: Chip, ops: seq<Op>, pin: nat)
    requires pin < s.cfg.bits && forall op :: op in ops ==> ValidOp(s.cfg, op)
    ensures Bit(Run(s, ops).out, Pos(s.cfg, pin)) == LevelAfter(s.cfg, LevelFrom(s, ops, pin), ops, pin)
    ensures DataCoherent(Run(s, ops)) <==> DataCoherent(s) || SomeDrives(s.cfg, ops)
  {
    hide Run, Bit, ValidOp, LevelAfter, Drives;
    RunLevels(s, ops, pin);
    if !SomeDrives(s.cfg, ops) {
      assert !SomeGives(s.cfg, ops, pin);
      NeverGiven(s.cfg, Bit(s.out, Pos(s.cfg, pin)), ops, pin);
    }
  }

  /** What the direction of a pin starts from: once any pin has been turned, from the shadow. */
  predicate InputFrom(s: Chip, ops: seq<Op>, pin: nat)
    requires pin < s.cfg.bits
  {
    Bit(if SomeTurns(ops) then s.dir else s.dirReg, Pos(s.cfg, pin)) == (s.cfg.dirMode == DirIn)
  }

  /** After any run, from any state, get_direction reports what the last direction call on the pin asked
      for. A pin that was never turned keeps its direction until the first call that turns any pin, and
      then takes that of the shadow. */
  lemma RunDirection(s: Chip, ops: seq<Op>, pin: nat)
    requires pin < s.cfg.bits && HasDirection(s.cfg) && forall op :: op in ops ==> ValidOp(s.cfg, op)
    ensures IsInput(Run(s, ops), pin) == InputAfter(InputFrom(s, ops, pin), ops, pin)
    ensures DirCoherent(Run(s, ops)) <==> DirCoherent(s) || SomeTurns(ops)
  {
    RunTurns(s, ops, pin);
    hide Run, Bit, ValidOp, InputAfter, BIT, And;
    MaskTest(s.cfg, Run(s, ops).dirReg, pin);
    if !SomeTurns(ops) {
      assert !SomeTurnsPin(ops, pin);
      NeverTurned(Bit(s.dirReg, Pos(s.cfg, pin)) == (s.cfg.dirMode == DirIn), ops, pin);
    }
  }

  /** The pin is answered from its latch after `ops`: the chip reads its output register, and the
      direction bit of the shadow is set. */
  predicate ReadsLatch(s: Chip, ops: seq<Op>, pin: nat)
    requires pin < s.cfg.bits
  {
    var i, toInput := Pos(s.cfg, pin), s.cfg.dirMode == DirIn;
    && s.cfg.getMode == GetSet
    && if HasDirection(s.cfg) then InputAfter(Bit(s.dir, i) == toInput, ops, pin) == toInput else Bit(s.dir, i)
  }

  /** What get answers after any run, from any state: the level of the pin, except where the chip reads
      its latch. With an output-direction register that is for the outputs; with an input-direction
      register it is for the inputs. */
  lemma RunGet(s: Chip, ops: seq<Op>, levels: nat, pin: nat)
    requires pin < s.cfg.bits && forall op :: op in ops ==> ValidOp(s.cfg, op)
    ensures Get(Run(s, ops), levels, pin) ==
              if ReadsLatch(s, ops, pin) then LevelAfter(s.cfg, LevelFrom(s, ops, pin), ops, pin)
              else Bit(levels, Pos(s.cfg, pin))
  {
    hide Run, Bit, ValidOp, InputAfter, LevelAfter, LevelFrom, BIT, And;
    RunLevel(s, ops, pin);
    GetFacts(Run(s, ops), levels, pin);
    if HasDirection(s.cfg) { RunTurns(s, ops, pin); } else { RunNoTurn(s, ops, pin); }
  }

  lemma GetFacts(s: Chip, levels: nat, pin: nat)
    requires pin < s.cfg.bits
    ensures var i := Pos(s.cfg, pin);
            Get(s, levels, pin) == Bit(if s.cfg.getMode == GetSet && Bit(s.dir, i) then s.out else levels, i)
  {
    hide Bit, And, BIT;
    MaskTest(s.cfg, s.dir, pin);
    MaskTest(s.cfg, s.out, pin);
    MaskTest(s.cfg, levels, pin);
  }

  // ---- Pins that the calls, or coherent shadows, determine ----

  lemma {:induction false} GivenDecides(cfg: Config, a: bool, b: bool, ops: seq<Op>, pin: nat)
    requires SomeGives(cfg, ops, pin)
    ensures LevelAfter(cfg, a, ops, pin) == LevelAfter(cfg, b, ops, pin)
    decreases |ops|
  {
    hide Gives, Given;
    LastOrBefore(ops);
    if !Gives(cfg, ops[|ops| - 1], pin) { GivenDecides(cfg, a, b, ops[..|ops| - 1], pin); }
  }

  lemma {:induction false} TurnDecides(a: bool, b: bool, ops: seq<Op>, pin: nat)
    requires SomeTurnsPin(ops, pin)
    ensures InputAfter(a, ops, pin) == InputAfter(b, ops, pin)
    decreases |ops|
  {
    LastOrBefore(ops);
    if !Turns(ops[|ops| - 1], pin) { TurnDecides(a, b, ops[..|ops| - 1], pin); }
  }

  /** A stale shadow does not matter for a pin once it was given a level: its latch follows the calls. */
  lemma LevelKnown(s: Chip, ops: seq<Op>, pin: nat)
    requires pin < s.cfg.bits && forall op :: op in ops ==> ValidOp(s.cfg, op)
    requires DataCoherent(s) || SomeGives(s.cfg, ops, pin)
    ensures Bit(Run(s, ops).out, Pos(s.cfg, pin)) == LevelAfter(s.cfg, Bit(s.out, Pos(s.cfg, pin)), ops, pin)
    ensures DataCoherent(Run(s, ops))
  {
    hide Run, Bit, ValidOp, LevelAfter, Drives;
    RunLevel(s, ops, pin);
    if SomeGives(s.cfg, ops, pin) {
      GivenDecides(s.cfg, LevelFrom(s, ops, pin), Bit(s.out, Pos(s.cfg, pin)), ops, pin);
      assert SomeDrives(s.cfg, ops);
    }
  }

  /** Nor does it for a pin that was turned: its direction follows the calls. */
  lemma DirectionKnown(s: Chip, ops: seq<Op>, pin: nat)
    requires pin < s.cfg.bits && HasDirection(s.cfg) && forall op :: op in ops ==> ValidOp(s.cfg, op)
    requires DirCoherent(s) || SomeTurnsPin(ops, pin)
    ensures IsInput(Run(s, ops), pin) == InputAfter(IsInput(s, pin), ops, pin)
    ensures DirCoherent(Run(s, ops))
  {
    hide Run, Bit, ValidOp, InputAfter, BIT, And;
    RunDirection(s, ops, pin);
    MaskTest(s.cfg, s.dirReg, pin);
    if SomeTurnsPin(ops, pin) {
      TurnDecides(InputFrom(s, ops, pin), IsInput(s, pin), ops, pin);
      assert SomeTurns(ops);
    }
  }

  /** So get follows the calls for every pin that was turned and given a level, whatever shadows the run
      started with. */
  lemma GetKnown(s: Chip, ops: seq<Op>, levels: nat, pin: nat)
    requires pin < s.cfg.bits && HasDirection(s.cfg) && forall op :: op in ops ==> ValidOp(s.cfg, op)
    requires DataCoherent(s) || SomeGives(s.cfg, ops, pin)
    requires DirCoherent(s) || SomeTurnsPin(ops, pin)
    ensures var i := Pos(s.cfg, pin);
            Get(Run(s, ops), levels, pin) ==
              if s.cfg.getMode == GetSet && InputAfter(IsInput(s, pin), ops, pin) == (s.cfg.dirMode == DirIn)
              then LevelAfter(s.cfg, Bit(s.out, i), ops, pin) else Bit(levels, i)
  {
    hide Run, Bit, ValidOp, InputAfter, LevelAfter, SomeGives, SomeTurnsPin, BIT, And;
    LevelKnown(s, ops, pin);
    DirectionKnown(s, ops, pin);
    GetFacts(Run(s, ops), levels, pin);
    MaskTest(s.cfg, Run(s, ops).dirReg, pin);
  }

  // ---- From bgpio_init on ----

  /** The registers that are shadowed can be read back. */
  predicate Readable(r: Resources, f: Flags) {
    && (if r.setReg then r.clrReg || !f.unreadableSet else f.noOutput)
    && (!(r.dirout || r.dirin) || !f.unreadableDir)
  }

  /** Whatever the registers hold at first and whatever is called, the shadows are what is driven. */
  ghost predicate AlwaysCoherent(sz: nat, r: Resources, f: Flags) {
    forall levels: nat, out: nat, dirReg: nat, ops: seq<Op> ::
      (forall op :: op in ops ==> ValidOp(ConfigFor(sz, r, f), op)) ==>
        var s := Run(InitChip(sz, r, f, levels, out, dirReg), ops);
        DataCoherent(s) && DirCoherent(s)
  }

  /** The driver can keep its shadows right from bgpio_init on exactly on the chips whose shadowed
      registers can be read back. */
  lemma AlwaysCoherentIff(sz: nat, r: Resources, f: Flags)
    requires Supported(sz, r, f)
    ensures AlwaysCoherent(sz, r, f) <==> Readable(r, f)
  {
    hide Run, ValidOp;
    if Readable(r, f) {
      forall levels: nat, out: nat, dirReg: nat, ops: seq<Op>
        | forall op :: op in ops ==> ValidOp(ConfigFor(sz, r, f), op)
        ensures var s := Run(InitChip(sz, r, f, levels, out, dirReg), ops); DataCoherent(s) && DirCoherent(s)
      {
        InitCoherentIff(sz, r, f, levels, out, dirReg);
        RunCoherent(InitChip(sz, r, f, levels, out, dirReg), ops);
      }
    } else {
      var none: seq<Op> := [];
      var s := Run(InitChip(sz, r, f, 0, 1, 1), none);
      RunNothing(InitChip(sz, r, f, 0, 1, 1));
      InitCoherentIff(sz, r, f, 0, 1, 1);
      assert !DataCoherent(s) || !DirCoherent(s);
    }
  }

  /** A single set changes another pin exactly where the shadow was stale for it: the whole shadow is
      written out. */
  lemma SetSparesIff(s: Chip, pin: nat, val: bool, p: nat)
    requires pin < s.cfg.bits && p < s.cfg.bits && p != pin && Shadowed(s.cfg)
    ensures var i := Pos(s.cfg, p);
            Bit(Set(s, pin, val).out, i) == Bit(s.out, i) <==> Bit(s.data, i) == Bit(s.out, i)
  {
    hide Bit, Set;
    PosInvolution(s.cfg, pin);
    PosInvolution(s.cfg, p);
    SetBits(s, pin, val, Pos(s.cfg, p));
  }

  /** A chip with an output register that cannot be read: the first set after bgpio_init, of pin 1, turns
      pin 0 from high to low. */
  lemma SetTurnsAnotherLow()
    ensures var r, f := Resources(true, true, false, false, false), Flags(false, true, false, false, false, false);
            var s := InitChip(1, r, f, 0, 1, 0);
            Supported(1, r, f) && Bit(s.out, 0) && !Bit(Set(s, 1, true).out, 0)
  {
    var r, f := Resources(true, true, false, false, false), Flags(false, true, false, false, false, false);
    var s := InitChip(1, r, f, 0, 1, 0);
    assert !s.cfg.be && s.cfg.bits == 8 && Bit(s.out, 0) && !Bit(s.data, 0);
    hide Bit, Set;
    SetSparesIff(s, 1, true, 0);
  }

  /** A chip with an output register that cannot be read: after bgpio_init, a bulk update that selects
      no pin turns the output of pin 0 from high to low. No single set is made, so none should change. */
  lemma EmptyUpdateTurnsLow()
    ensures var r, f := Resources(true, true, false, false, false), Flags(false, true, false, false, false, false);
            var s := InitChip(1, r, f, 0, 1, 0);
            && Supported(1, r, f)
            && Bit(s.out, 0) && !Bit(SetMultiple(s, 0, 0).out, 0) && Bit(SetEach(s, [], 0).out, 0)
  {
    var r, f := Resources(true, true, false, false, false), Flags(false, true, false, false, false, false);
    var s := InitChip(1, r, f, 0, 1, 0);
    assert !s.cfg.be && s.cfg.bits == 8 && s.data == 0 && s.out == 1;
    assert Bit(1, 0);
    NothingSet(s, 0);
    SetMultipleBits(s, 0, 0, [], 0) by { ZeroBits(); }
    ZeroBits();
  }

  /** A chip whose output register is read and whose direction register marks inputs: after bgpio_init,
      pin 0 is an input at a high level, and get answers low. */
  lemma HighInputReadsLow()
    ensures var r, f := Resources(true, true, false, false, true), Flags(false, false, false, false, true, false);
            var s := InitChip(1, r, f, 1, 0, 1);
            && Supported(1, r, f)
            && IsInput(s, 0) && Bit(1, 0) && !Get(s, 1, 0)
  {
    var r, f := Resources(true, true, false, false, true), Flags(false, false, false, false, true, false);
    var s := InitChip(1, r, f, 1, 0, 1);
    assert Bit(1, 0);
    ZeroBits();
    GetFacts(s, 1, 0);
    MaskTest(s.cfg, s.dirReg, 0);
  }
}
