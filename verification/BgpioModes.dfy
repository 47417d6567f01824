/** The configurations of a memory-mapped GPIO chip simulate one another: reversed bit order by
    reversing every word, an input-direction register by complementing the direction words. */
module BgpioModes {
  import opened Words
  import opened BgpioSpec
  import opened BgpioProofs

  // ---- Words of width n, mirrored and complemented ----

  function Rev(n: nat, w: nat): nat {
    FromBits(n, (i: nat) => i < n && Bit(w, n - 1 - i))
  }

  function Inv(n: nat, w: nat): nat {
    FromBits(n, (i: nat) => !Bit(w, i))
  }

  lemma RevBit(n: nat, w: nat, i: nat)
    ensures Bit(Rev(n, w), i) == (i < n && Bit(w, n - 1 - i))
  {
    hide Bit, FromBits;
  }

  lemma InvBit(n: nat, w: nat, i: nat)
    ensures Bit(Inv(n, w), i) == (i < n && !Bit(w, i))
  {
    hide Bit, FromBits;
  }

  lemma RevRev(n: nat, w: nat)
    requires Within(w, n)
    ensures Rev(n, Rev(n, w)) == w
  {
    hide Bit, Rev;
    forall i: nat ensures Bit(Rev(n, Rev(n, w)), i) == Bit(w, i) {
      RevBit(n, Rev(n, w), i);
      if i < n { RevBit(n, w, n - 1 - i); }
    }
    Extensional(Rev(n, Rev(n, w)), w);
  }

  lemma RevOps(n: nat, a: nat, b: nat)
    ensures Rev(n, Or(a, b)) == Or(Rev(n, a), Rev(n, b))
    ensures Rev(n, AndNot(a, b)) == AndNot(Rev(n, a), Rev(n, b))
  {
    hide Bit, Rev, Or, AndNot;
    forall i: nat
      ensures Bit(Rev(n, Or(a, b)), i) == Bit(Or(Rev(n, a), Rev(n, b)), i)
      ensures Bit(Rev(n, AndNot(a, b)), i) == Bit(AndNot(Rev(n, a), Rev(n, b)), i)
    {
      RevBit(n, a, i);
      RevBit(n, b, i);
      RevBit(n, Or(a, b), i);
      RevBit(n, AndNot(a, b), i);
    }
    Extensional(Rev(n, Or(a, b)), Or(Rev(n, a), Rev(n, b)));
    Extensional(Rev(n, AndNot(a, b)), AndNot(Rev(n, a), Rev(n, b)));
  }

  // ---- Reversed bit order ----

  function MirrorConfig(cfg: Config): Config { cfg.(be := !cfg.be) }

  function MirrorWrites(n: nat, ws: seq<Write>): seq<Write> {
    seq(|ws|, i requires 0 <= i < |ws| => Write(ws[i].reg, Rev(n, ws[i].val)))
  }

  /** The chip with the other bit order and every word reversed. */
  function Mirror(s: Chip): Chip {
    var n := s.cfg.bits;
    Chip(MirrorConfig(s.cfg), Rev(n, s.data), Rev(n, s.dir), Rev(n, s.out), Rev(n, s.dirReg), MirrorWrites(n, s.writes))
  }

  lemma MirrorMask(cfg: Config, pin: nat)
    requires pin < cfg.bits
    ensures Pin2Mask(MirrorConfig(cfg), pin) == Rev(cfg.bits, Pin2Mask(cfg, pin))
  {
    hide Bit, Rev, BIT;
    var a, b := Pin2Mask(MirrorConfig(cfg), pin), Rev(cfg.bits, Pin2Mask(cfg, pin));
    forall i: nat ensures Bit(a, i) == Bit(b, i) { RevBit(cfg.bits, Pin2Mask(cfg, pin), i); }
    Extensional(a, b);
  }

  lemma MirrorSelect(cfg: Config, mask: nat, values: nat, val: bool)
    ensures var a := Select(MirrorConfig(cfg), mask, values, val, cfg.bits);
            var b := Select(cfg, mask, values, val, cfg.bits);
            a == Rev(cfg.bits, b) && (a == 0 <==> b == 0)
  {
    hide Bit, Rev, Select;
    var n := cfg.bits;
    var a, b := Select(MirrorConfig(cfg), mask, values, val, n), Select(cfg, mask, values, val, n);
    forall i: nat ensures Bit(a, i) == Bit(Rev(n, b), i) {
      RevBit(n, b, i);
      SelectBit(MirrorConfig(cfg), mask, values, val, n, i);
      if i < n { SelectBit(cfg, mask, values, val, n, n - 1 - i); }
    }
    Extensional(a, Rev(n, b));
    SelectWithin(cfg, mask, values, val);
    RevRev(n, b);
    RevZero(n);
  }

  lemma RevZero(n: nat)
    ensures Rev(n, 0) == 0
  {
    hide Bit, Rev;
    ZeroBits();
    forall i: nat ensures Bit(Rev(n, 0), i) == Bit(0, i) { RevBit(n, 0, i); }
    Extensional(Rev(n, 0), 0);
  }

  lemma MirrorStore(s: Chip, reg: Reg, val: nat)
    ensures Store(Mirror(s), reg, Rev(s.cfg.bits, val)) == Mirror(Store(s, reg, val))
  {
    hide Bit, Rev, Or, AndNot;
    RevOps(s.cfg.bits, s.out, val);
    var n := s.cfg.bits;
    assert MirrorWrites(n, s.writes + [Write(reg, val)]) == MirrorWrites(n, s.writes) + [Write(reg, Rev(n, val))];
  }

  lemma MirrorPutData(s: Chip, reg: Reg, data: nat)
    ensures PutData(Mirror(s), reg, Rev(s.cfg.bits, data)) == Mirror(PutData(s, reg, data))
  {
    hide Rev, Store, MirrorWrites;
    MirrorStore(s.(data := data), reg, data);
  }

  lemma MirrorPutDir(s: Chip, dir: nat)
    ensures PutDir(Mirror(s), Rev(s.cfg.bits, dir)) == Mirror(PutDir(s, dir))
  {
    hide Rev, Store, MirrorWrites;
    MirrorStore(s.(dir := dir), RegDir, dir);
  }

  lemma MirrorSet(s: Chip, pin: nat, val: bool)
    requires pin < s.cfg.bits
    ensures Set(Mirror(s), pin, val) == Mirror(Set(s, pin, val))
  {
    hide Rev, Store, MirrorWrites, Pin2Mask, Or, AndNot, PutData;
    var m := Pin2Mask(s.cfg, pin);
    MirrorMask(s.cfg, pin);
    RevOps(s.cfg.bits, s.data, m);
    MirrorStore(s, if val then RegSet else RegClr, m);
    MirrorPutData(s, RegDat, Assign(s.data, m, val));
    MirrorPutData(s, RegSet, Assign(s.data, m, val));
  }

  lemma MirrorSetMultiple(s: Chip, mask: nat, values: nat)
    requires s.cfg.setMode != SetNone
    ensures SetMultiple(Mirror(s), mask, values) == Mirror(SetMultiple(s, mask, values))
  {
    hide Rev, MirrorWrites, Select, Or, AndNot, PutData;
    var n := s.cfg.bits;
    var sm, cm := Select(s.cfg, mask, values, true, n), Select(s.cfg, mask, values, false, n);
    MirrorSelect(s.cfg, mask, values, true);
    MirrorSelect(s.cfg, mask, values, false);
    RevOps(n, s.data, sm);
    RevOps(n, Or(s.data, sm), cm);
    var reg := if s.cfg.setMode == SetDat then RegDat else RegSet;
    MirrorPutData(s, reg, AndNot(Or(s.data, sm), cm));
    var s1 := if sm != 0 then Store(s, RegSet, sm) else s;
    MirrorStore(s, RegSet, sm);
    MirrorStore(s1, RegClr, cm);
  }

  lemma MirrorDirection(s: Chip, pin: nat, val: bool)
    requires pin < s.cfg.bits
    ensures DirectionInput(Mirror(s), pin) == Mirror(DirectionInput(s, pin))
    ensures DirectionOutput(Mirror(s), pin, val).0 == Mirror(DirectionOutput(s, pin, val).0)
    ensures DirectionOutput(Mirror(s), pin, val).1 == DirectionOutput(s, pin, val).1
  {
    hide Rev, MirrorWrites, Pin2Mask, Or, AndNot, PutDir, Set;
    var m := Pin2Mask(s.cfg, pin);
    MirrorMask(s.cfg, pin);
    RevOps(s.cfg.bits, s.dir, m);
    MirrorSet(s, pin, val);
    SetFrame(s, pin, val);
    MirrorPutDir(s, AndNot(s.dir, m));
    MirrorPutDir(s, Or(s.dir, m));
    MirrorPutDir(Set(s, pin, val), AndNot(s.dir, m));
    MirrorPutDir(Set(s, pin, val), Or(s.dir, m));
  }

  /** A chip with reversed bit order runs in step with the plain one: every shadow, register and
      written word is the reversal. */
  lemma {:induction false} MirrorRun(s: Chip, ops: seq<Op>)
    requires forall op :: op in ops ==> ValidOp(s.cfg, op)
    ensures forall op :: op in ops ==> ValidOp(Mirror(s).cfg, op)
    ensures Run(Mirror(s), ops) == Mirror(Run(s, ops))
    decreases |ops|
  {
    hide Set, SetMultiple, DirectionInput, DirectionOutput, Rev, MirrorWrites;
    if ops != [] {
      assert ops[0] in ops && forall op :: op in ops[1..] ==> op in ops;
      match ops[0] {
        case OpSet(pin, val) => MirrorSet(s, pin, val);
        case OpSetMultiple(mask, values) => MirrorSetMultiple(s, mask, values);
        case OpDirIn(pin) => MirrorDirection(s, pin, false);
        case OpDirOut(pin, val) => MirrorDirection(s, pin, val);
      }
      assert Step(Mirror(s), ops[0]) == Mirror(Step(s, ops[0]));
      MirrorRun(Step(s, ops[0]), ops[1..]);
    }
  }

  /** Both chips answer alike, the mirrored one reading mirrored pin levels. */
  lemma MirrorAnswers(s: Chip, levels: nat, pin: nat)
    requires pin < s.cfg.bits
    ensures Get(Mirror(s), Rev(s.cfg.bits, levels), pin) == Get(s, levels, pin)
    ensures s.cfg.dirMode == DirOut || s.cfg.dirMode == DirIn ==> IsInput(Mirror(s), pin) == IsInput(s, pin)
  {
    hide Rev, MirrorWrites, Pin2Mask, And, Bit;
    MirrorTest(s.cfg, s.dir, pin);
    MirrorTest(s.cfg, s.out, pin);
    MirrorTest(s.cfg, levels, pin);
    MirrorTest(s.cfg, s.dirReg, pin);
  }

  lemma MirrorTest(cfg: Config, w: nat, pin: nat)
    requires pin < cfg.bits
    ensures And(Rev(cfg.bits, w), Pin2Mask(MirrorConfig(cfg), pin)) != 0 <==> And(w, Pin2Mask(cfg, pin)) != 0
  {
    hide Rev, Pin2Mask, And, Bit;
    MaskTest(cfg, w, pin);
    MaskTest(MirrorConfig(cfg), Rev(cfg.bits, w), pin);
    RevBit(cfg.bits, w, Pos(MirrorConfig(cfg), pin));
  }

  // ---- Direction polarity ----

  function FlipConfig(cfg: Config): Config { cfg.(dirMode := DirIn) }

  function FlipWrites(n: nat, ws: seq<Write>): seq<Write> {
    seq(|ws|, i requires 0 <= i < |ws| => if ws[i].reg == RegDir then Write(RegDir, Inv(n, ws[i].val)) else ws[i])
  }

  /** The chip with an input-direction register in place of an output-direction one. */
  function Flip(s: Chip): Chip {
    var n := s.cfg.bits;
    s.(cfg := FlipConfig(s.cfg), dir := Inv(n, s.dir), dirReg := Inv(n, s.dirReg), writes := FlipWrites(n, s.writes))
  }

  lemma InvOps(cfg: Config, d: nat, pin: nat)
    requires pin < cfg.bits
    ensures var m := Pin2Mask(cfg, pin);
            && Or(Inv(cfg.bits, d), m) == Inv(cfg.bits, AndNot(d, m))
            && AndNot(Inv(cfg.bits, d), m) == Inv(cfg.bits, Or(d, m))
  {
    hide Bit, Inv, Or, AndNot, BIT;
    var n, m := cfg.bits, Pin2Mask(cfg, pin);
    forall i: nat
      ensures Bit(Or(Inv(n, d), m), i) == Bit(Inv(n, AndNot(d, m)), i)
      ensures Bit(AndNot(Inv(n, d), m), i) == Bit(Inv(n, Or(d, m)), i)
    {
      InvBit(n, d, i);
      InvBit(n, AndNot(d, m), i);
      InvBit(n, Or(d, m), i);
    }
    Extensional(Or(Inv(n, d), m), Inv(n, AndNot(d, m)));
    Extensional(AndNot(Inv(n, d), m), Inv(n, Or(d, m)));
  }

  lemma FlipStore(s: Chip, reg: Reg, val: nat)
    ensures Store(Flip(s), reg, if reg == RegDir then Inv(s.cfg.bits, val) else val) == Flip(Store(s, reg, val))
  {
    hide Bit, Inv, Or, AndNot;
    var n := s.cfg.bits;
    assert FlipWrites(n, s.writes + [Write(reg, val)])
        == FlipWrites(n, s.writes) + [if reg == RegDir then Write(RegDir, Inv(n, val)) else Write(reg, val)];
  }

  lemma FlipSet(s: Chip, pin: nat, val: bool)
    requires pin < s.cfg.bits
    ensures Set(Flip(s), pin, val) == Flip(Set(s, pin, val))
  {
    hide Inv, Store, FlipWrites, Or, AndNot, BIT;
    var m := Pin2Mask(s.cfg, pin);
    var data := Assign(s.data, m, val);
    assert Pin2Mask(Flip(s).cfg, pin) == m;
    FlipStore(s, RegSet, m);
    FlipStore(s, RegClr, m);
    FlipStore(s.(data := data), RegDat, data);
    FlipStore(s.(data := data), RegSet, data);
  }

  lemma {:induction false} FlipSelect(cfg: Config, mask: nat, values: nat, val: bool, k: nat)
    requires k <= cfg.bits
    ensures Select(FlipConfig(cfg), mask, values, val, k) == Select(cfg, mask, values, val, k)
  {
    hide Bit, Or, BIT;
    if k > 0 { FlipSelect(cfg, mask, values, val, k - 1); }
  }

  lemma FlipSetMultiple(s: Chip, mask: nat, values: nat)
    requires s.cfg.setMode != SetNone
    ensures SetMultiple(Flip(s), mask, values) == Flip(SetMultiple(s, mask, values))
  {
    hide Inv, Store, FlipWrites, Or, AndNot, Select;
    var n := s.cfg.bits;
    FlipSelect(s.cfg, mask, values, true, n);
    FlipSelect(s.cfg, mask, values, false, n);
    var sm, cm := Select(s.cfg, mask, values, true, n), Select(s.cfg, mask, values, false, n);
    var data := AndNot(Or(s.data, sm), cm);
    var s1 := if sm != 0 then Store(s, RegSet, sm) else s;
    FlipStore(s, RegSet, sm);
    FlipStore(s1, RegClr, cm);
    FlipStore(s.(data := data), RegDat, data);
    FlipStore(s.(data := data), RegSet, data);
    StoreConfig(s, RegSet, sm);
  }

  lemma StoreConfig(s: Chip, reg: Reg, val: nat)
    ensures Store(s, reg, val).cfg == s.cfg
  {
    hide Or, AndNot;
  }

  lemma FlipPutDir(s: Chip, dir: nat)
    ensures PutDir(Flip(s), Inv(s.cfg.bits, dir)) == Flip(PutDir(s, dir))
  {
    hide Inv, Store, FlipWrites;
    FlipStore(s.(dir := dir), RegDir, dir);
  }

  lemma FlipDirection(s: Chip, pin: nat, val: bool)
    requires pin < s.cfg.bits && s.cfg.dirMode == DirOut
    ensures DirectionInput(Flip(s), pin) == Flip(DirectionInput(s, pin))
    ensures DirectionOutput(Flip(s), pin, val).0 == Flip(DirectionOutput(s, pin, val).0)
    ensures DirectionOutput(Flip(s), pin, val).1 == DirectionOutput(s, pin, val).1
  {
    hide Inv, FlipWrites, BIT, Or, AndNot, PutDir, Set;
    var m := Pin2Mask(s.cfg, pin);
    InvOps(s.cfg, s.dir, pin);
    FlipSet(s, pin, val);
    SetFrame(s, pin, val);
    FlipPutDir(s, AndNot(s.dir, m));
    FlipPutDir(Set(s, pin, val), Or(s.dir, m));
  }

  /** A chip with an input-direction register runs in step with the plain one: its direction words
      are the complement within the width, everything else is the same. */
  lemma {:induction false} FlipRun(s: Chip, ops: seq<Op>)
    requires s.cfg.dirMode == DirOut && forall op :: op in ops ==> ValidOp(s.cfg, op)
    ensures forall op :: op in ops ==> ValidOp(Flip(s).cfg, op)
    ensures Run(Flip(s), ops) == Flip(Run(s, ops))
    decreases |ops|
  {
    hide Set, SetMultiple, DirectionInput, DirectionOutput, Inv, FlipWrites;
    if ops != [] {
      assert ops[0] in ops && forall op :: op in ops[1..] ==> op in ops;
      match ops[0] {
        case OpSet(pin, val) => FlipSet(s, pin, val);
        case OpSetMultiple(mask, values) => FlipSetMultiple(s, mask, values);
        case OpDirIn(pin) => FlipDirection(s, pin, false);
        case OpDirOut(pin, val) => FlipDirection(s, pin, val);
      }
      assert Step(Flip(s), ops[0]) == Flip(Step(s, ops[0]));
      FlipRun(Step(s, ops[0]), ops[1..]);
    }
  }

  /** get_direction answers alike. get does so exactly when it never consults the direction shadow, or
      the latch and the pin level agree: with that shadow inverted it takes inputs for outputs. */
  lemma FlipAnswers(s: Chip, levels: nat, pin: nat)
    requires pin < s.cfg.bits && s.cfg.dirMode == DirOut
    ensures IsInput(Flip(s), pin) == IsInput(s, pin)
    ensures Get(Flip(s), levels, pin) == Get(s, levels, pin) <==>
              s.cfg.getMode == GetDat || Bit(s.out, Pos(s.cfg, pin)) == Bit(levels, Pos(s.cfg, pin))
  {
    hide Inv, FlipWrites, And, Bit, BIT;
    var n, p := s.cfg.bits, Pos(s.cfg, pin);
    MaskTest(s.cfg, s.dir, pin);
    MaskTest(s.cfg, s.dirReg, pin);
    MaskTest(s.cfg, s.out, pin);
    MaskTest(s.cfg, levels, pin);
    MaskTest(s.cfg, Inv(n, s.dir), pin);
    MaskTest(s.cfg, Inv(n, s.dirReg), pin);
    InvBit(n, s.dir, p);
    InvBit(n, s.dirReg, p);
  }

  // ---- Ways to drive the outputs ----

  /** Two chips that differ in how they drive their outputs, and in what their shadow is for. */
  ghost predicate Alike(s: Chip, u: Chip) {
    && s.cfg.setMode != SetNone && u.cfg == s.cfg.(setMode := u.cfg.setMode) && u.cfg.setMode != SetNone
    && DataCoherent(s) && DataCoherent(u)
    && s.out == u.out && s.dir == u.dir && s.dirReg == u.dirReg
  }

  /** Bit `i` of the latch after an operation, whatever way the chip drives its outputs. */
  predicate DrivenNext(cfg: Config, out: nat, op: Op, i: nat)
    requires ValidOp(cfg, op)
  {
    match op
    case OpSet(pin, val) => if i == Pos(cfg, pin) then val else Bit(out, i)
    case OpSetMultiple(mask, values) =>
      if i < cfg.bits && Bit(mask, Pos(cfg, i)) then Bit(values, Pos(cfg, i)) else Bit(out, i)
    case OpDirIn(_) => Bit(out, i)
    case OpDirOut(pin, val) => if i == Pos(cfg, pin) && cfg.dirMode != DirNoOutput then val else Bit(out, i)
  }

  lemma DrivenSet(s: Chip, pin: nat, val: bool, i: nat)
    requires s.cfg.setMode != SetNone && DataCoherent(s) && pin < s.cfg.bits
    ensures Bit(Set(s, pin, val).out, i) == if i == Pos(s.cfg, pin) then val else Bit(s.out, i)
  {
    hide Bit, Set;
    SetBits(s, pin, val, i);
  }

  lemma DrivenSetMultiple(s: Chip, mask: nat, values: nat, i: nat)
    requires s.cfg.setMode != SetNone && DataCoherent(s)
    ensures Bit(SetMultiple(s, mask, values).out, i) == DrivenNext(s.cfg, s.out, OpSetMultiple(mask, values), i)
  {
    hide Bit, Or, AndNot, Select;
    SelectBit(s.cfg, mask, values, true, s.cfg.bits, i);
    SelectBit(s.cfg, mask, values, false, s.cfg.bits, i);
    ZeroBits();
    if i < s.cfg.bits { PosInvolution(s.cfg, i); }
  }

  lemma DrivenStep(s: Chip, op: Op, i: nat)
    requires s.cfg.setMode != SetNone && DataCoherent(s) && ValidOp(s.cfg, op)
    ensures Bit(Step(s, op).out, i) == DrivenNext(s.cfg, s.out, op, i)
  {
    hide Bit, Set, SetMultiple, Or, AndNot, BIT;
    match op {
      case OpSet(pin, val) => DrivenSet(s, pin, val, i);
      case OpSetMultiple(mask, values) => DrivenSetMultiple(s, mask, values, i);
      case OpDirIn(_) =>
      case OpDirOut(pin, val) => DrivenSet(s, pin, val, i);
    }
  }

  /** The direction words do not depend on how outputs are driven. */
  lemma DirectionStep(s: Chip, u: Chip, op: Op)
    requires Alike(s, u) && ValidOp(s.cfg, op)
    ensures ValidOp(u.cfg, op)
    ensures Step(s, op).dir == Step(u, op).dir && Step(s, op).dirReg == Step(u, op).dirReg
  {
    hide Bit, Set, SetMultiple, Or, AndNot, BIT;
    match op {
      case OpSet(pin, val) => SetFrame(s, pin, val); SetFrame(u, pin, val);
      case OpSetMultiple(mask, values) => BulkFrame(s, mask, values); BulkFrame(u, mask, values);
      case OpDirIn(_) =>
      case OpDirOut(pin, val) => SetFrame(s, pin, val); SetFrame(u, pin, val);
    }
  }

  lemma DrivenAlike(s: Chip, u: Chip, op: Op)
    requires Alike(s, u) && ValidOp(s.cfg, op) && ValidOp(u.cfg, op)
    ensures Step(s, op).out == Step(u, op).out
  {
    hide Bit, Step, DataCoherent, DirCoherent;
    var a, b := Step(s, op), Step(u, op);
    forall i: nat ensures Bit(a.out, i) == Bit(b.out, i) {
      DrivenStep(s, op, i);
      DrivenStep(u, op, i);
    }
    Extensional(a.out, b.out);
  }

  lemma AlikeStep(s: Chip, u: Chip, op: Op)
    requires Alike(s, u) && ValidOp(s.cfg, op)
    ensures ValidOp(u.cfg, op) && Alike(Step(s, op), Step(u, op))
  {
    hide Bit, Step, DataCoherent, DirCoherent;
    DirectionStep(s, u, op);
    StepCoherent(s, op);
    StepCoherent(u, op);
    DrivenAlike(s, u, op);
  }

  /** A single register, a register of its own for outputs and a set/clear pair drive the same levels
      and directions in every run. */
  lemma {:induction false} DriveAlikeRun(s: Chip, u: Chip, ops: seq<Op>)
    requires Alike(s, u) && forall op :: op in ops ==> ValidOp(s.cfg, op)
    ensures forall op :: op in ops ==> ValidOp(u.cfg, op)
    ensures Alike(Run(s, ops), Run(u, ops))
    decreases |ops|
  {
    hide Step, Alike, ValidOp;
    if ops != [] {
      assert ops[0] in ops && forall op :: op in ops[1..] ==> op in ops;
      AlikeStep(s, u, ops[0]);
      DriveAlikeRun(Step(s, ops[0]), Step(u, ops[0]), ops[1..]);
      assert forall op :: op in ops ==> op == ops[0] || op in ops[1..];
    }
  }
}
