/** Generic memory-mapped GPIO controllers: gpio-mmio.c.

    A chip is its configuration, the two shadow words and the controller's output latch and
    direction register. Reading the data register returns the pin levels, which the caller supplies. */
module BgpioSpec {
  import opened Words

  const BITS_PER_LONG: nat := 64

  datatype SetMode = SetNone | SetDat | SetSet | SetWithClear
  datatype DirMode = DirSimple | DirNoOutput | DirOut | DirIn
  datatype GetMode = GetDat | GetSet
  datatype Config = Config(bits: nat, be: bool, setMode: SetMode, dirMode: DirMode, getMode: GetMode)

  datatype Reg = RegDat | RegSet | RegClr | RegDir
  datatype Write = Write(reg: Reg, val: nat)
  datatype Ret = Done | EInval

  datatype Chip = Chip(cfg: Config, data: nat, dir: nat, out: nat, dirReg: nat, writes: seq<Write>)

  /** The place of a pin in a word; a big-endian chip counts from the top. */
  function Pos(cfg: Config, pin: nat): nat
    requires pin < cfg.bits
  {
    if cfg.be then cfg.bits - 1 - pin else pin
  }

  /** bgpio_pin2mask, bgpio_pin2mask_be */
  function Pin2Mask(cfg: Config, pin: nat): nat
    requires pin < cfg.bits
  {
    BIT(Pos(cfg, pin))
  }

  /** The effect of a register write on the controller. */
  function Store(s: Chip, reg: Reg, val: nat): Chip {
    var t := s.(writes := s.writes + [Write(reg, val)]);
    match reg
    case RegDat => t.(out := val)
    case RegSet => t.(out := if s.cfg.setMode == SetWithClear then Or(s.out, val) else val)
    case RegClr => t.(out := AndNot(s.out, val))
    case RegDir => t.(dirReg := val)
  }

  function Assign(word: nat, mask: nat, val: bool): nat {
    if val then Or(word, mask) else AndNot(word, mask)
  }

  /** The shadow is updated and written out whole. */
  function PutData(s: Chip, reg: Reg, data: nat): Chip {
    Store(s.(data := data), reg, data)
  }

  /** bgpio_set_none, bgpio_set, bgpio_set_set, bgpio_set_with_clear */
  function Set(s: Chip, pin: nat, val: bool): Chip
    requires pin < s.cfg.bits
  {
    var mask := Pin2Mask(s.cfg, pin);
    match s.cfg.setMode
    case SetNone => s
    case SetDat => PutData(s, RegDat, Assign(s.data, mask, val))
    case SetSet => PutData(s, RegSet, Assign(s.data, mask, val))
    case SetWithClear => Store(s, if val then RegSet else RegClr, mask)
  }

  /** The masks of the selected pins below `k` that are to be set (or, with `!val`, cleared). */
  function Select(cfg: Config, mask: nat, values: nat, val: bool, k: nat): nat
    requires k <= cfg.bits
  {
    if k == 0 then 0
    else
      var rest := Select(cfg, mask, values, val, k - 1);
      if Bit(mask, k - 1) && Bit(values, k - 1) == val then Or(rest, Pin2Mask(cfg, k - 1)) else rest
  }

  /** bgpio_set_multiple, bgpio_set_multiple_set, bgpio_set_multiple_with_clear */
  function SetMultiple(s: Chip, mask: nat, values: nat): Chip
    requires s.cfg.setMode != SetNone
  {
    var setMask := Select(s.cfg, mask, values, true, s.cfg.bits);
    var clearMask := Select(s.cfg, mask, values, false, s.cfg.bits);
    if s.cfg.setMode == SetWithClear then
      var s1 := if setMask != 0 then Store(s, RegSet, setMask) else s;
      if clearMask != 0 then Store(s1, RegClr, clearMask) else s1
    else
      PutData(s, if s.cfg.setMode == SetDat then RegDat else RegSet, AndNot(Or(s.data, setMask), clearMask))
  }

  function PutDir(s: Chip, dir: nat): Chip {
    Store(s.(dir := dir), RegDir, dir)
  }

  /** bgpio_simple_dir_in, bgpio_dir_in, bgpio_dir_in_inv */
  function DirectionInput(s: Chip, pin: nat): Chip
    requires pin < s.cfg.bits
  {
    match s.cfg.dirMode
    case DirOut => PutDir(s, AndNot(s.dir, Pin2Mask(s.cfg, pin)))
    case DirIn => PutDir(s, Or(s.dir, Pin2Mask(s.cfg, pin)))
    case _ => s
  }

  /** bgpio_simple_dir_out, bgpio_dir_out_err, bgpio_dir_out, bgpio_dir_out_inv */
  function DirectionOutput(s: Chip, pin: nat, val: bool): (Chip, Ret)
    requires pin < s.cfg.bits
  {
    match s.cfg.dirMode
    case DirSimple => (Set(s, pin, val), Done)
    case DirNoOutput => (s, EInval)
    case DirOut => (PutDir(Set(s, pin, val), Or(s.dir, Pin2Mask(s.cfg, pin))), Done)
    case DirIn => (PutDir(Set(s, pin, val), AndNot(s.dir, Pin2Mask(s.cfg, pin))), Done)
  }

  /** bgpio_get_dir, bgpio_get_dir_inv: true for an input */
  predicate IsInput(s: Chip, pin: nat)
    requires pin < s.cfg.bits && (s.cfg.dirMode == DirOut || s.cfg.dirMode == DirIn)
  {
    (And(s.dirReg, Pin2Mask(s.cfg, pin)) != 0) == (s.cfg.dirMode == DirIn)
  }

  /** bgpio_get, bgpio_get_set, when the data register reads `levels` */
  predicate Get(s: Chip, levels: nat, pin: nat)
    requires pin < s.cfg.bits
  {
    var mask := Pin2Mask(s.cfg, pin);
    if s.cfg.getMode == GetSet && And(s.dir, mask) != 0 then And(s.out, mask) != 0 else And(levels, mask) != 0
  }

  datatype Op =
    | OpSet(pin: nat, val: bool) | OpSetMultiple(mask: nat, values: nat)
    | OpDirIn(pin: nat) | OpDirOut(pin: nat, val: bool)

  predicate ValidOp(cfg: Config, op: Op) {
    if op.OpSetMultiple? then cfg.setMode != SetNone else op.pin < cfg.bits
  }

  function Step(s: Chip, op: Op): (r: Chip)
    requires ValidOp(s.cfg, op)
    ensures r.cfg == s.cfg
  {
    match op
    case OpSet(pin, val) => Set(s, pin, val)
    case OpSetMultiple(mask, values) => SetMultiple(s, mask, values)
    case OpDirIn(pin) => DirectionInput(s, pin)
    case OpDirOut(pin, val) => DirectionOutput(s, pin, val).0
  }

  function Run(s: Chip, ops: seq<Op>): (r: Chip)
    requires forall op :: op in ops ==> ValidOp(s.cfg, op)
    ensures r.cfg == s.cfg
    decreases |ops|
  {
    if ops == [] then s else Run(Step(s, ops[0]), ops[1..])
  }

  // ---- Setting a chip up ----

  datatype Resources = Resources(dat: bool, setReg: bool, clrReg: bool, dirout: bool, dirin: bool)
  datatype Flags = Flags(
    bigEndian: bool, unreadableSet: bool, unreadableDir: bool, bigEndianByteOrder: bool,
    readOutputSet: bool, noOutput: bool)

  /** bgpio_setup_io, bgpio_setup_accessors and bgpio_setup_direction find a supported combination. */
  predicate Supported(sz: nat, r: Resources, f: Flags) {
    && (sz == 1 || sz == 2 || sz == 4 || (sz == 8 && !f.bigEndianByteOrder))
    && r.dat && !(r.dirout && r.dirin)
  }

  function SetModeFor(r: Resources, f: Flags): SetMode {
    if r.setReg && r.clrReg then SetWithClear
    else if r.setReg then SetSet
    else if f.noOutput then SetNone
    else SetDat
  }

  function GetModeFor(f: Flags): GetMode {
    if !f.unreadableSet && f.readOutputSet then GetSet else GetDat
  }

  function DirModeFor(r: Resources, f: Flags): DirMode {
    if r.dirout then DirOut else if r.dirin then DirIn else if f.noOutput then DirNoOutput else DirSimple
  }

  function ConfigFor(sz: nat, r: Resources, f: Flags): Config {
    Config(sz * 8, f.bigEndian, SetModeFor(r, f), DirModeFor(r, f), GetModeFor(f))
  }

  /** The shadows bgpio_init starts with, when the registers read `levels`, `out` and `dirReg`. */
  function InitChip(sz: nat, r: Resources, f: Flags, levels: nat, out: nat, dirReg: nat): Chip {
    var cfg := ConfigFor(sz, r, f);
    Chip(cfg,
         if cfg.setMode == SetSet && !f.unreadableSet then out else levels,
         if (r.dirout || r.dirin) && !f.unreadableDir then dirReg else 0,
         out, dirReg, [])
  }

  // ---- Invariants ----

  /** Every word fits the width of the registers. */
  ghost predicate Sized(s: Chip) {
    Within(s.data, s.cfg.bits) && Within(s.dir, s.cfg.bits) && Within(s.out, s.cfg.bits) && Within(s.dirReg, s.cfg.bits)
  }

  /** The output shadow is what the controller drives. */
  predicate DataCoherent(s: Chip) {
    s.cfg.setMode == SetDat || s.cfg.setMode == SetSet ==> s.out == s.data
  }

  predicate DirCoherent(s: Chip) {
    s.cfg.dirMode == DirOut || s.cfg.dirMode == DirIn ==> s.dirReg == s.dir
  }
}
