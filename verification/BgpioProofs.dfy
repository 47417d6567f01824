/** Bulk updates, shadow coherence and the order of writes of a memory-mapped GPIO chip. */
module BgpioProofs {
  import opened Words
  import opened BgpioSpec

  // ---- Masks, bit by bit ----

  lemma PosInvolution(cfg: Config, i: nat)
    requires i < cfg.bits
    ensures Pos(cfg, i) < cfg.bits && Pos(cfg, Pos(cfg, i)) == i
  {}

  lemma AssignBit(cfg: Config, word: nat, pin: nat, val: bool, i: nat)
    requires pin < cfg.bits
    ensures Bit(Assign(word, Pin2Mask(cfg, pin), val), i) == if i == Pos(cfg, pin) then val else Bit(word, i)
  {
    hide Bit, Or, AndNot, BIT;
  }

  lemma MaskTest(cfg: Config, word: nat, pin: nat)
    requires pin < cfg.bits
    ensures And(word, Pin2Mask(cfg, pin)) != 0 <==> Bit(word, Pos(cfg, pin))
  {
    hide Bit, And, BIT;
    var a := And(word, Pin2Mask(cfg, pin));
    ZeroBits();
    assert Bit(a, Pos(cfg, pin)) == Bit(word, Pos(cfg, pin));
    if !Bit(word, Pos(cfg, pin)) { Extensional(a, 0); }
  }

  lemma {:induction false} SelectBit(cfg: Config, mask: nat, values: nat, val: bool, k: nat, i: nat)
    requires k <= cfg.bits
    ensures Bit(Select(cfg, mask, values, val, k), i) <==>
              i < cfg.bits && Pos(cfg, i) < k && Bit(mask, Pos(cfg, i)) && Bit(values, Pos(cfg, i)) == val
  {
    hide Bit, Or, BIT;
    ZeroBits();
    if k > 0 { SelectBit(cfg, mask, values, val, k - 1, i); }
  }

  /** The set mask and the clear mask are disjoint and together cover exactly the masked pins. */
  lemma MasksPartition(cfg: Config, mask: nat, values: nat, pin: nat)
    requires pin < cfg.bits
    ensures var s := Bit(Select(cfg, mask, values, true, cfg.bits), Pos(cfg, pin));
            var c := Bit(Select(cfg, mask, values, false, cfg.bits), Pos(cfg, pin));
            && !(s && c)
            && (s || c <==> Bit(mask, pin))
            && (s ==> Bit(values, pin)) && (c ==> !Bit(values, pin))
  {
    hide Bit, Select;
    SelectBit(cfg, mask, values, true, cfg.bits, Pos(cfg, pin));
    SelectBit(cfg, mask, values, false, cfg.bits, Pos(cfg, pin));
  }

  // ---- One bulk update is many single ones ----

  /** Single sets of `pins`, one after the other. */
  function SetEach(s: Chip, pins: seq<nat>, values: nat): (r: Chip)
    requires forall p :: p in pins ==> p < s.cfg.bits
    ensures r.cfg == s.cfg
    decreases |pins|
  {
    if pins == [] then s
    else
      assert pins[0] in pins && forall p :: p in pins[1..] ==> p in pins;
      SetEach(Set(s, pins[0], Bit(values, pins[0])), pins[1..], values)
  }

  /** What a word becomes when the pins in `pins` take their values. */
  predicate NewBit(cfg: Config, word: nat, pins: seq<nat>, values: nat, i: nat) {
    if i < cfg.bits && Pos(cfg, i) in pins then Bit(values, Pos(cfg, i)) else Bit(word, i)
  }

  lemma SetBits(s: Chip, pin: nat, val: bool, i: nat)
    requires pin < s.cfg.bits && s.cfg.setMode != SetNone
    ensures var r := Set(s, pin, val);
            if s.cfg.setMode == SetWithClear
            then r.data == s.data && Bit(r.out, i) == if i == Pos(s.cfg, pin) then val else Bit(s.out, i)
            else r.out == r.data && Bit(r.data, i) == if i == Pos(s.cfg, pin) then val else Bit(s.data, i)
  {
    hide Bit, Or, AndNot, BIT;
    AssignBit(s.cfg, s.data, pin, val, i);
  }

  lemma {:induction false} SetEachBits(s: Chip, pins: seq<nat>, values: nat, i: nat)
    requires (forall p :: p in pins ==> p < s.cfg.bits) && s.cfg.setMode != SetNone
    ensures var r := SetEach(s, pins, values);
            if s.cfg.setMode == SetWithClear
            then r.data == s.data && Bit(r.out, i) == NewBit(s.cfg, s.out, pins, values, i)
            else (if pins == [] then r.out == s.out else r.out == r.data)
                 && Bit(r.data, i) == NewBit(s.cfg, s.data, pins, values, i)
    decreases |pins|
  {
    hide Bit, Set;
    if pins != [] {
      assert pins[0] in pins;
      var v := Bit(values, pins[0]);
      var s1 := Set(s, pins[0], v);
      assert s1.cfg == s.cfg by { SetFrame(s, pins[0], v); }
      assert forall p :: p in pins[1..] ==> p in pins;
      SetBits(s, pins[0], v, i);
      SetEachBits(s1, pins[1..], values, i);
      if i < s.cfg.bits { PosInvolution(s.cfg, i); }
      assert forall p :: p in pins <==> p == pins[0] || p in pins[1..];
    }
  }

  lemma SetFrame(s: Chip, pin: nat, val: bool)
    requires pin < s.cfg.bits
    ensures var r := Set(s, pin, val); r.cfg == s.cfg && r.dir == s.dir && r.dirReg == s.dirReg
  {
    hide Or, AndNot, BIT;
  }

  lemma SetMultipleBits(s: Chip, mask: nat, values: nat, pins: seq<nat>, i: nat)
    requires s.cfg.setMode != SetNone
    requires forall p: nat :: p in pins <==> p < s.cfg.bits && Bit(mask, p)
    ensures var r := SetMultiple(s, mask, values);
            if s.cfg.setMode == SetWithClear
            then r.data == s.data && Bit(r.out, i) == NewBit(s.cfg, s.out, pins, values, i)
            else r.out == r.data && Bit(r.data, i) == NewBit(s.cfg, s.data, pins, values, i)
  {
    hide Bit, Or, AndNot, Select;
    SelectBit(s.cfg, mask, values, true, s.cfg.bits, i);
    SelectBit(s.cfg, mask, values, false, s.cfg.bits, i);
    ZeroBits();
    if i < s.cfg.bits { PosInvolution(s.cfg, i); }
  }

  /** set_multiple against single sets of the masked pins, in any order: the shadow always agrees,
      and the output does unless an empty selection makes the bulk form write out a stale shadow. */
  lemma BulkIsIterated(s: Chip, mask: nat, values: nat, pins: seq<nat>)
    requires s.cfg.setMode != SetNone
    requires forall p: nat :: p in pins <==> p < s.cfg.bits && Bit(mask, p)
    ensures var bulk, each := SetMultiple(s, mask, values), SetEach(s, pins, values);
            && bulk.data == each.data
            && (bulk.out == each.out <==> pins != [] || DataCoherent(s))
            && bulk.dir == each.dir == s.dir && bulk.dirReg == each.dirReg == s.dirReg
  {
    hide Bit, SetMultiple, SetEach, NewBit, Or, AndNot;
    var bulk, each := SetMultiple(s, mask, values), SetEach(s, pins, values);
    BulkFrame(s, mask, values);
    EachFrame(s, pins, values);
    forall i: nat ensures Bit(bulk.data, i) == Bit(each.data, i) {
      SetMultipleBits(s, mask, values, pins, i);
      SetEachBits(s, pins, values, i);
    }
    Extensional(bulk.data, each.data);
    SetMultipleBits(s, mask, values, pins, 0);
    SetEachBits(s, pins, values, 0);
    if s.cfg.setMode == SetWithClear {
      forall i: nat ensures Bit(bulk.out, i) == Bit(each.out, i) {
        SetMultipleBits(s, mask, values, pins, i);
        SetEachBits(s, pins, values, i);
      }
      Extensional(bulk.out, each.out);
    } else if pins == [] {
      assert each.data == s.data by { NothingSet(s, values); }
    }
  }

  lemma NothingSet(s: Chip, values: nat)
    ensures SetEach(s, [], values) == s
  {}

  lemma BulkFrame(s: Chip, mask: nat, values: nat)
    requires s.cfg.setMode != SetNone
    ensures var r := SetMultiple(s, mask, values); r.dir == s.dir && r.dirReg == s.dirReg && r.cfg == s.cfg
  {
    hide Or, AndNot, Select;
  }

  lemma {:induction false} EachFrame(s: Chip, pins: seq<nat>, values: nat)
    requires forall p :: p in pins ==> p < s.cfg.bits
    ensures var r := SetEach(s, pins, values); r.dir == s.dir && r.dirReg == s.dirReg
    decreases |pins|
  {
    hide Set, Bit;
    if pins != [] {
      assert pins[0] in pins;
      SetFrame(s, pins[0], Bit(values, pins[0]));
      assert forall p :: p in pins[1..] ==> p in pins;
      EachFrame(Set(s, pins[0], Bit(values, pins[0])), pins[1..], values);
    }
  }

  // ---- Shadow coherence ----

  /** Every operation keeps both shadows coherent, and one that writes a register makes its shadow so. */
  lemma StepCoherent(s: Chip, op: Op)
    requires ValidOp(s.cfg, op)
    ensures var r := Step(s, op);
            && (DataCoherent(s) || (r.out, r.data) != (s.out, s.data) || op.OpSetMultiple? ==> DataCoherent(r))
            && (DirCoherent(s) || (r.dirReg, r.dir) != (s.dirReg, s.dir) ==> DirCoherent(r))
            && ((exists i :: |s.writes| <= i < |r.writes| && r.writes[i].reg == RegDir) ==> DirCoherent(r))
  {
    hide Or, AndNot, BIT, Bit, Select;
  }

  lemma {:induction false} RunCoherent(s: Chip, ops: seq<Op>)
    requires forall op :: op in ops ==> ValidOp(s.cfg, op)
    requires DataCoherent(s) && DirCoherent(s)
    ensures DataCoherent(Run(s, ops)) && DirCoherent(Run(s, ops))
    decreases |ops|
  {
    hide Step, DataCoherent, DirCoherent, ValidOp;
    if ops != [] {
      assert ops[0] in ops;
      StepCoherent(s, ops[0]);
      assert forall op :: op in ops[1..] ==> op in ops;
      RunCoherent(Step(s, ops[0]), ops[1..]);
    }
  }

  /** bgpio_init leaves coherent shadows exactly when what it reads back is what is driven: a readable
      output register, or input levels equal to the latch, and a readable direction register. */
  lemma InitCoherentIff(sz: nat, r: Resources, f: Flags, levels: nat, out: nat, dirReg: nat)
    requires Supported(sz, r, f)
    ensures var s := InitChip(sz, r, f, levels, out, dirReg);
            && (DataCoherent(s) <==>
                  || (r.setReg && r.clrReg) || (r.setReg && !f.unreadableSet)
                  || (!r.setReg && f.noOutput) || levels == out)
            && (DirCoherent(s) <==> !(r.dirout || r.dirin) || !f.unreadableDir || dirReg == 0)
  {}

  /** The level is driven before the pin becomes an output: direction_output is a plain set followed
      by one write of the direction register, and that write leaves the latch alone. */
  lemma LevelBeforeDirection(s: Chip, pin: nat, val: bool)
    requires pin < s.cfg.bits && (s.cfg.dirMode == DirOut || s.cfg.dirMode == DirIn)
    ensures var m, r := Set(s, pin, val), DirectionOutput(s, pin, val).0;
            && m.dirReg == s.dirReg
            && (s.cfg.setMode != SetNone ==> Bit(m.out, Pos(s.cfg, pin)) == val)
            && r.writes == m.writes + [Write(RegDir, r.dir)]
            && r.out == m.out && r.data == m.data
            && !IsInput(r, pin)
  {
    hide Bit, Or, AndNot, And, BIT, Set;
    var m, r := Set(s, pin, val), DirectionOutput(s, pin, val).0;
    SetFrame(s, pin, val);
    if s.cfg.setMode != SetNone { SetBits(s, pin, val, Pos(s.cfg, pin)); }
    MaskTest(s.cfg, r.dirReg, pin);
  }

  /** direction_input and direction_output are read back by get_direction, and no other pin's
      direction changes. */
  lemma DirectionReadsBack(s: Chip, pin: nat, val: bool, p: nat)
    requires pin < s.cfg.bits && p < s.cfg.bits && (s.cfg.dirMode == DirOut || s.cfg.dirMode == DirIn)
    requires DirCoherent(s)
    ensures IsInput(DirectionInput(s, pin), p) == (p == pin || IsInput(s, p))
    ensures DirectionOutput(s, pin, val).1 == Done
    ensures IsInput(DirectionOutput(s, pin, val).0, p) == (p != pin && IsInput(s, p))
  {
    hide Bit, Or, AndNot, And, BIT, Set;
    SetFrame(s, pin, val);
    MaskTest(s.cfg, s.dirReg, p);
    MaskTest(s.cfg, DirectionInput(s, pin).dirReg, p);
    MaskTest(s.cfg, DirectionOutput(s, pin, val).0.dirReg, p);
  }

  /** On a chip that can read its output register back, an output reads as the level it was given,
      whatever the pin levels are, and an input reads as the level of its pin. */
  lemma GetReadsBack(s: Chip, pin: nat, val: bool, levels: nat)
    requires pin < s.cfg.bits && s.cfg.dirMode == DirOut && s.cfg.getMode == GetSet && s.cfg.setMode != SetNone
    ensures Get(DirectionOutput(s, pin, val).0, levels, pin) == val
    ensures Get(DirectionInput(s, pin), levels, pin) == Bit(levels, Pos(s.cfg, pin))
  {
    hide Bit, Or, AndNot, And, BIT, Set;
    var r, i := DirectionOutput(s, pin, val).0, DirectionInput(s, pin);
    SetFrame(s, pin, val);
    SetBits(s, pin, val, Pos(s.cfg, pin));
    MaskTest(s.cfg, r.dir, pin);
    MaskTest(s.cfg, r.out, pin);
    MaskTest(s.cfg, i.dir, pin);
    MaskTest(s.cfg, levels, pin);
  }

  // ---- Width ----

  lemma WithinOps(a: nat, b: nat, n: nat)
    requires Within(a, n) && Within(b, n)
    ensures Within(Or(a, b), n) && Within(AndNot(a, b), n)
  {
    hide Bit, Or, AndNot;
  }

  lemma MaskWithin(cfg: Config, pin: nat)
    requires pin < cfg.bits
    ensures Within(Pin2Mask(cfg, pin), cfg.bits)
  {
    hide Bit, BIT;
  }

  lemma SelectWithin(cfg: Config, mask: nat, values: nat, val: bool)
    ensures Within(Select(cfg, mask, values, val, cfg.bits), cfg.bits)
  {
    hide Bit, Select;
    forall i: nat | i >= cfg.bits ensures !Bit(Select(cfg, mask, values, val, cfg.bits), i) {
      SelectBit(cfg, mask, values, val, cfg.bits, i);
    }
  }

  lemma StoreSized(s: Chip, reg: Reg, val: nat)
    requires Sized(s) && Within(val, s.cfg.bits)
    ensures Sized(Store(s, reg, val)) && Store(s, reg, val).cfg == s.cfg
    ensures Store(s, reg, val).writes == s.writes + [Write(reg, val)]
  {
    hide Within, Or, AndNot;
    WithinOps(s.out, val, s.cfg.bits);
  }

  /** The writes that an operation adds fit the registers, and so does every word it leaves. */
  ghost predicate SizedFrom(s: Chip, r: Chip) {
    && Sized(r) && r.cfg == s.cfg && s.writes <= r.writes
    && forall i :: |s.writes| <= i < |r.writes| ==> Within(r.writes[i].val, s.cfg.bits)
  }

  lemma SetSized(s: Chip, pin: nat, val: bool)
    requires pin < s.cfg.bits && Sized(s)
    ensures SizedFrom(s, Set(s, pin, val))
  {
    hide Bit, Or, AndNot, BIT, Within, Store, Pin2Mask;
    var m := Pin2Mask(s.cfg, pin);
    MaskWithin(s.cfg, pin);
    WithinOps(s.data, m, s.cfg.bits);
    var data := Assign(s.data, m, val);
    StoreSized(s.(data := data), RegDat, data);
    StoreSized(s.(data := data), RegSet, data);
    StoreSized(s, if val then RegSet else RegClr, m);
  }

  lemma SetMultipleSized(s: Chip, mask: nat, values: nat)
    requires s.cfg.setMode != SetNone && Sized(s)
    ensures SizedFrom(s, SetMultiple(s, mask, values))
  {
    hide Bit, Or, AndNot, Within, Store, Select;
    var n := s.cfg.bits;
    var sm, cm := Select(s.cfg, mask, values, true, n), Select(s.cfg, mask, values, false, n);
    SelectWithin(s.cfg, mask, values, true);
    SelectWithin(s.cfg, mask, values, false);
    WithinOps(s.data, sm, n);
    WithinOps(Or(s.data, sm), cm, n);
    var data := AndNot(Or(s.data, sm), cm);
    StoreSized(s.(data := data), RegDat, data);
    StoreSized(s.(data := data), RegSet, data);
    StoreSized(s, RegSet, sm);
    StoreSized(if sm != 0 then Store(s, RegSet, sm) else s, RegClr, cm);
  }

  lemma DirectionSized(s: Chip, dir: nat)
    requires Sized(s) && Within(dir, s.cfg.bits)
    ensures SizedFrom(s, PutDir(s, dir))
  {
    hide Within, Store;
    StoreSized(s.(dir := dir), RegDir, dir);
  }

  /** No operation ever writes a word that is wider than the register. */
  lemma StepSized(s: Chip, op: Op)
    requires ValidOp(s.cfg, op) && Sized(s)
    ensures Sized(Step(s, op))
    ensures forall i :: |s.writes| <= i < |Step(s, op).writes| ==> Within(Step(s, op).writes[i].val, s.cfg.bits)
  {
    hide Or, AndNot, Within, Pin2Mask, Set, SetMultiple, PutDir;
    match op {
      case OpSet(pin, val) => SetSized(s, pin, val);
      case OpSetMultiple(mask, values) => SetMultipleSized(s, mask, values);
      case OpDirIn(pin) => NewDirection(s, s, pin);
      case OpDirOut(pin, val) =>
        SetSized(s, pin, val);
        SetFrame(s, pin, val);
        NewDirection(s, Set(s, pin, val), pin);
    }
  }

  lemma NewDirection(s: Chip, m: Chip, pin: nat)
    requires pin < s.cfg.bits && Sized(s) && SizedFrom(s, m)
    ensures var d := Pin2Mask(s.cfg, pin);
            SizedFrom(s, PutDir(m, AndNot(s.dir, d))) && SizedFrom(s, PutDir(m, Or(s.dir, d)))
  {
    hide Or, AndNot, Within, Pin2Mask, PutDir;
    MaskWithin(s.cfg, pin);
    WithinOps(s.dir, Pin2Mask(s.cfg, pin), s.cfg.bits);
    DirectionSized(m, AndNot(s.dir, Pin2Mask(s.cfg, pin)));
    DirectionSized(m, Or(s.dir, Pin2Mask(s.cfg, pin)));
  }
}
