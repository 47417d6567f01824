/** What a chip does in terms of the registers and flags that bgpio_init was given, after any run of calls:
    which bit is a pin's, what a set direction bit means, which registers are written and which are read. */
module BgpioChips {
  import opened Words
  import opened BgpioSpec
  import opened BgpioProofs
  import opened BgpioRuns

  /** The bit of a pin in every register. */
  function At(sz: nat, f: Flags, pin: nat): nat
    requires pin < 8 * sz
  {
    if f.bigEndian then 8 * sz - 1 - pin else pin
  }

  /** The state after `ops` on a chip that bgpio_init has just set up. */
  function After(sz: nat, r: Resources, f: Flags, levels: nat, out: nat, dirReg: nat, ops: seq<Op>): (t: Chip)
    requires forall op :: op in ops ==> ValidOp(ConfigFor(sz, r, f), op)
    ensures t.cfg == ConfigFor(sz, r, f)
  {
    Run(InitChip(sz, r, f, levels, out, dirReg), ops)
  }

  lemma PosIsAt(sz: nat, r: Resources, f: Flags, pin: nat)
    requires pin < 8 * sz
    ensures var cfg := ConfigFor(sz, r, f); cfg.bits == 8 * sz && pin < cfg.bits && Pos(cfg, pin) == At(sz, f, pin)
  {}

  /** Registers of 8, 16, 32 and 64 bits are supported, the last not in big-endian byte order; a chip needs
      a data register and has at most one direction register. */
  lemma SupportedIff(sz: nat, r: Resources, f: Flags)
    ensures Supported(sz, r, f) <==>
              && 8 * sz in {8, 16, 32, 64} && (f.bigEndianByteOrder ==> 8 * sz != 64)
              && r.dat && (r.dirout ==> !r.dirin)
  {}

  // ---- Directions ----

  /** A set bit is an output in a "dirout" register and an input in a "dirin" register, and after any run
      the bit of a pin is what the last direction call on that pin asked for. Before such a call it is what
      the register held, or what the driver takes an unreadable register to hold once it writes it. */
  lemma DirectionBit(sz: nat, r: Resources, f: Flags, levels: nat, out: nat, dirReg: nat, ops: seq<Op>, pin: nat)
    requires Supported(sz, r, f) && pin < 8 * sz && (r.dirout || r.dirin)
    requires forall op :: op in ops ==> ValidOp(ConfigFor(sz, r, f), op)
    ensures var t, i := After(sz, r, f, levels, out, dirReg, ops), At(sz, f, pin);
            var first := Bit(if SomeTurns(ops) && f.unreadableDir then 0 else dirReg, i) == r.dirin;
            && pin < t.cfg.bits && HasDirection(t.cfg)
            && IsInput(t, pin) == InputAfter(first, ops, pin)
            && Bit(t.dirReg, i) == (InputAfter(first, ops, pin) == r.dirin)
  {
    hide Run, Bit, ValidOp, InputAfter, SomeTurns, And, BIT;
    var s := InitChip(sz, r, f, levels, out, dirReg);
    PosIsAt(sz, r, f, pin);
    RunDirection(s, ops, pin);
    MaskTest(s.cfg, Run(s, ops).dirReg, pin);
  }

  /** The first call on a pin, from the registers alone. */
  lemma FirstDirection(sz: nat, r: Resources, f: Flags, levels: nat, out: nat, dirReg: nat, pin: nat, val: bool)
    requires Supported(sz, r, f) && pin < 8 * sz && (r.dirout || r.dirin)
    ensures var s, i := InitChip(sz, r, f, levels, out, dirReg), At(sz, f, pin);
            && pin < s.cfg.bits && HasDirection(s.cfg)
            && IsInput(s, pin) == (Bit(dirReg, i) == r.dirin)
            && Bit(DirectionInput(s, pin).dirReg, i) == r.dirin
            && DirectionOutput(s, pin, val).1 == Done && Bit(DirectionOutput(s, pin, val).0.dirReg, i) == r.dirout
  {
    hide Bit, And, Or, AndNot, BIT, Set;
    var s := InitChip(sz, r, f, levels, out, dirReg);
    PosIsAt(sz, r, f, pin);
    MaskTest(s.cfg, s.dirReg, pin);
    SetFrame(s, pin, val);
  }

  /** A chip without a direction register has none to write, and refuses outputs exactly when it was
      declared to have none. */
  lemma WithoutDirection(sz: nat, r: Resources, f: Flags, s: Chip, pin: nat, val: bool)
    requires s.cfg == ConfigFor(sz, r, f) && pin < s.cfg.bits && !r.dirout && !r.dirin
    ensures DirectionInput(s, pin) == s
    ensures DirectionOutput(s, pin, val) == if f.noOutput then (s, EInval) else (Set(s, pin, val), Done)
  {
    hide Set;
  }

  // ---- Outputs ----

  /** Which calls give a pin a level: those that name it, on a chip that has an output to give it. */
  lemma GivesIff(sz: nat, r: Resources, f: Flags, op: Op, pin: nat)
    requires ValidOp(ConfigFor(sz, r, f), op)
    ensures Gives(ConfigFor(sz, r, f), op, pin) <==>
              && (r.setReg || !f.noOutput)
              && (if op.OpSetMultiple? then Bit(op.mask, pin) else op.pin == pin && !op.OpDirIn?)
              && (op.OpDirOut? ==> r.dirout || r.dirin || !f.noOutput)
  {
    hide Bit;
  }

  /** A single set makes one write: to the set or to the clear register, of the bit of the pin alone, when
      the chip has both; otherwise of a whole word to the output register that it has. */
  lemma SetWrites(sz: nat, r: Resources, f: Flags, s: Chip, pin: nat, val: bool, i: nat)
    requires s.cfg == ConfigFor(sz, r, f) && pin < 8 * sz
    ensures var t := Set(s, pin, val);
            if r.setReg && r.clrReg then
              && t.writes == s.writes + [Write(if val then RegSet else RegClr, BIT(At(sz, f, pin)))]
              && Bit(t.out, i) == if i == At(sz, f, pin) then val else Bit(s.out, i)
            else if !r.setReg && f.noOutput then t == s
            else
              && t.writes == s.writes + [Write(if r.setReg then RegSet else RegDat, t.data)] && t.out == t.data
              && Bit(t.data, i) == if i == At(sz, f, pin) then val else Bit(s.data, i)
  {
    PosIsAt(sz, r, f, pin);
    if r.setReg || !f.noOutput { SetBits(s, pin, val, i) by { hide *; } }
    hide Bit, Or, AndNot, BIT;
  }

  /** A bulk set makes one write of the whole word. When the chip has a set and a clear register it writes
      the bits to be set to the one and then the bits to be cleared to the other, and neither if there are
      none. Bit `i` of a register belongs to the pin `At(sz, f, i)`. */
  lemma SetMultipleWrites(sz: nat, r: Resources, f: Flags, s: Chip, mask: nat, values: nat)
    returns (sets: nat, clears: nat)
    requires s.cfg == ConfigFor(sz, r, f) && (r.setReg || !f.noOutput)
    ensures forall i: nat :: Bit(sets, i) == (i < 8 * sz && Bit(mask, At(sz, f, i)) && Bit(values, At(sz, f, i)))
    ensures forall i: nat :: Bit(clears, i) == (i < 8 * sz && Bit(mask, At(sz, f, i)) && !Bit(values, At(sz, f, i)))
    ensures var t := SetMultiple(s, mask, values);
            if r.setReg && r.clrReg then
              && t.data == s.data
              && t.writes == s.writes + (if sets != 0 then [Write(RegSet, sets)] else [])
                                      + (if clears != 0 then [Write(RegClr, clears)] else [])
            else
              && t.writes == s.writes + [Write(if r.setReg then RegSet else RegDat, t.data)] && t.out == t.data
              && forall i: nat :: Bit(t.data, i) == (Bit(sets, i) || (Bit(s.data, i) && !Bit(clears, i)))
  {
    hide Bit, Or, AndNot, Select;
    sets := Select(s.cfg, mask, values, true, s.cfg.bits);
    clears := Select(s.cfg, mask, values, false, s.cfg.bits);
    forall i: nat
      ensures Bit(sets, i) == (i < 8 * sz && Bit(mask, At(sz, f, i)) && Bit(values, At(sz, f, i)))
      ensures Bit(clears, i) == (i < 8 * sz && Bit(mask, At(sz, f, i)) && !Bit(values, At(sz, f, i)))
    {
      SelectBit(s.cfg, mask, values, true, s.cfg.bits, i);
      SelectBit(s.cfg, mask, values, false, s.cfg.bits, i);
      if i < 8 * sz { PosIsAt(sz, r, f, i); }
    }
  }

  // ---- Reading a pin ----

  /** get reads the level of the pin, except on a chip that was told to read its output register and can:
      there it reads the output where the direction bit of the shadow is set. */
  lemma GetReads(sz: nat, r: Resources, f: Flags, s: Chip, levels: nat, pin: nat)
    requires s.cfg == ConfigFor(sz, r, f) && pin < 8 * sz
    ensures var i := At(sz, f, pin);
            pin < s.cfg.bits &&
            Get(s, levels, pin) ==
              Bit(if f.readOutputSet && !f.unreadableSet && Bit(s.dir, i) then s.out else levels, i)
  {
    hide Bit, And, BIT;
    PosIsAt(sz, r, f, pin);
    GetFacts(s, levels, pin);
  }
}
