/** Group multiplexing of Northstar2: pinctrl-ns2-mux.c. The first configuration of a multiplexer
    wins; a log remembers it. */
module Ns2Spec {
  import opened Words
  import opened Mmio

  const NUM_IOMUX: nat := 19
  const NUM_PWM_MUX: nat := 4
  const NUM_GROUPS: nat := 41
  const NUM_FUNCTIONS: nat := 8

  const MUX_BASE0: nat := 0
  const MUX_BASE1: nat := 1
  const MUX_PAD_FUNC1_OFFSET: nat := 0x04

  datatype Mux = Mux(base: nat, offset: nat, shift: nat, mask: nat, alt: nat)
  datatype LogEntry = LogEntry(base: nat, offset: nat, shift: nat, alt: nat, configured: bool)

  /** A group drives `count` consecutive pins from `first` on. */
  datatype Group = Group(first: nat, count: nat, mux: Mux)

  datatype MuxWrite = MuxWrite(base: nat, offset: nat, val: nat)
  datatype Ret = Done | EInval | ENotSupp | ENoMem

  /** The group table. */
  function GroupAt(g: nat): Group
    requires g < NUM_GROUPS
  {
    match g
    case 0 => Group(0, 24, Mux(0, 0, 31, 1, 0))   // nand
    case 1 => Group(0, 26, Mux(0, 0, 31, 1, 1))   // nor_data
    case 2 => Group(24, 2, Mux(0, 0, 31, 1, 0))   // gpio_0_1
    case 3 => Group(26, 1, Mux(0, 4, 30, 3, 1))   // uart1_ext_clk
    case 4 => Group(26, 1, Mux(0, 4, 30, 3, 2))   // nor_adv
    case 5 => Group(27, 4, Mux(0, 4, 28, 3, 0))   // gpio_2_5
    case 6 => Group(27, 4, Mux(0, 4, 28, 3, 1))   // pcie_ab1_clk_wak
    case 7 => Group(27, 4, Mux(0, 4, 28, 3, 2))   // nor_addr_0_3
    case 8 => Group(31, 2, Mux(0, 4, 26, 3, 0))   // gpio_6_7
    case 9 => Group(31, 2, Mux(0, 4, 26, 3, 1))   // pcie_a3_clk_wak
    case 10 => Group(31, 2, Mux(0, 4, 26, 3, 2))  // nor_addr_4_5
    case 11 => Group(33, 2, Mux(0, 4, 24, 3, 0))  // gpio_8_9
    case 12 => Group(33, 2, Mux(0, 4, 24, 3, 1))  // pcie_b3_clk_wak
    case 13 => Group(33, 2, Mux(0, 4, 24, 3, 2))  // nor_addr_6_7
    case 14 => Group(35, 2, Mux(0, 4, 22, 3, 0))  // gpio_10_11
    case 15 => Group(35, 2, Mux(0, 4, 22, 3, 1))  // pcie_b2_clk_wak
    case 16 => Group(35, 2, Mux(0, 4, 22, 3, 2))  // nor_addr_8_9
    case 17 => Group(37, 2, Mux(0, 4, 20, 3, 0))  // gpio_12_13
    case 18 => Group(37, 2, Mux(0, 4, 20, 3, 1))  // pcie_a2_clk_wak
    case 19 => Group(37, 2, Mux(0, 4, 20, 3, 2))  // nor_addr_10_11
    case 20 => Group(39, 4, Mux(0, 4, 18, 3, 0))  // gpio_14_17
    case 21 => Group(39, 4, Mux(0, 4, 18, 3, 1))  // uart0_modem
    case 22 => Group(39, 4, Mux(0, 4, 18, 3, 2))  // nor_addr_12_15
    case 23 => Group(43, 2, Mux(0, 4, 16, 3, 0))  // gpio_18_19
    case 24 => Group(43, 2, Mux(0, 4, 16, 3, 1))  // uart0_rts_cts
    case 25 => Group(45, 2, Mux(0, 4, 14, 3, 0))  // gpio_20_21
    case 26 => Group(45, 2, Mux(0, 4, 14, 3, 1))  // uart0_in_out
    case 27 => Group(47, 2, Mux(0, 4, 12, 3, 0))  // gpio_22_23
    case 28 => Group(47, 2, Mux(0, 4, 12, 3, 1))  // uart1_dcd_dsr
    case 29 => Group(49, 2, Mux(0, 4, 10, 3, 0))  // gpio_24_25
    case 30 => Group(49, 2, Mux(0, 4, 10, 3, 1))  // uart1_ri_dtr
    case 31 => Group(51, 2, Mux(0, 4, 8, 3, 0))   // gpio_26_27
    case 32 => Group(51, 2, Mux(0, 4, 8, 3, 1))   // uart1_rts_cts
    case 33 => Group(53, 2, Mux(0, 4, 6, 3, 0))   // gpio_28_29
    case 34 => Group(53, 2, Mux(0, 4, 6, 3, 1))   // uart1_in_out
    case 35 => Group(55, 2, Mux(0, 4, 4, 3, 0))   // gpio_30_31
    case 36 => Group(55, 2, Mux(0, 4, 4, 3, 1))   // uart2_rts_cts
    case 37 => Group(24, 1, Mux(1, 0, 0, 1, 1))   // pwm_0
    case 38 => Group(25, 1, Mux(1, 0, 1, 1, 1))   // pwm_1
    case 39 => Group(27, 1, Mux(1, 0, 2, 1, 1))   // pwm_2
    case _ => Group(28, 1, Mux(1, 0, 3, 1, 1))    // pwm_3
  }

  predicate IsPwm(g: nat) { g >= 37 }

  predicate HasPin(g: nat, pin: nat)
    requires g < NUM_GROUPS
  {
    GroupAt(g).first <= pin < GroupAt(g).first + GroupAt(g).count
  }

  datatype Pinmux = Pinmux(log: seq<LogEntry>, base0: Regs, base1: Regs, writes: seq<MuxWrite>)

  /** ns2_mux_log_init: entry `i` of the empty log. */
  function InitialEntry(i: nat): LogEntry
    requires i < NUM_IOMUX
  {
    if i == 0 then LogEntry(MUX_BASE0, 0, 31, 0, false)
    else if i < NUM_IOMUX - NUM_PWM_MUX then LogEntry(MUX_BASE0, MUX_PAD_FUNC1_OFFSET, 32 - i * 2, 0, false)
    else LogEntry(MUX_BASE1, 0, i - (NUM_IOMUX - NUM_PWM_MUX), 0, false)
  }

  predicate SameKey(e: LogEntry, m: Mux) {
    e.shift == m.shift && e.base == m.base && e.offset == m.offset
  }

  /** The first entry from `i` on with the key of `m`. */
  function Find(log: seq<LogEntry>, m: Mux, i: nat): (r: nat)
    requires i <= |log|
    ensures i <= r <= |log|
    ensures r < |log| ==> SameKey(log[r], m)
    ensures forall j :: i <= j < r ==> !SameKey(log[j], m)
    decreases |log| - i
  {
    if i == |log| then i
    else if SameKey(log[i], m) then i
    else Find(log, m, i + 1)
  }

  function Base(s: Pinmux, base: nat): Regs {
    if base == MUX_BASE0 then s.base0 else s.base1
  }

  function PutReg(s: Pinmux, base: nat, offset: nat, val: nat): Pinmux {
    var t := s.(writes := s.writes + [MuxWrite(base, offset, val)]);
    if base == MUX_BASE0 then t.(base0 := Wr(s.base0, offset, val)) else t.(base1 := Wr(s.base1, offset, val))
  }

  /** ns2_pinmux_set */
  function MuxSet(s: Pinmux, m: Mux): (r: (Pinmux, Ret))
    requires |s.log| == NUM_IOMUX
    ensures |r.0.log| == NUM_IOMUX
  {
    var i := Find(s.log, m, 0);
    if i == NUM_IOMUX then (s, EInval)
    else if s.log[i].configured then (s, if s.log[i].alt != m.alt then EInval else Done)
    else
      var t := s.(log := s.log[i := s.log[i].(alt := m.alt, configured := true)]);
      if m.base != MUX_BASE0 && m.base != MUX_BASE1 then (t, EInval)
      else
        var val := Rd(Base(s, m.base), m.offset);
        (PutReg(t, m.base, m.offset, Insert(val, m.mask, m.shift, m.alt)), Done)
  }

  /** A run of requests for groups. */
  function Run(s: Pinmux, groups: seq<nat>): (r: Pinmux)
    requires |s.log| == NUM_IOMUX && forall g :: g in groups ==> g < NUM_GROUPS
    ensures |r.log| == NUM_IOMUX
    decreases |groups|
  {
    if groups == [] then s
    else
      assert groups[0] in groups && forall g :: g in groups[1..] ==> g in groups;
      Run(MuxSet(s, GroupAt(groups[0]).mux).0, groups[1..])
  }

  /** The groups that were accepted during a run. */
  function Accepted(s: Pinmux, groups: seq<nat>): set<nat>
    requires |s.log| == NUM_IOMUX && forall g :: g in groups ==> g < NUM_GROUPS
    decreases |groups|
  {
    if groups == [] then {}
    else
      assert groups[0] in groups && forall g :: g in groups[1..] ==> g in groups;
      var (t, ret) := MuxSet(s, GroupAt(groups[0]).mux);
      (if ret == Done then {groups[0]} else {}) + Accepted(t, groups[1..])
  }

  // ---- Slots ----

  /** The log entry that a group's multiplexer belongs to. */
  function SlotOf(g: nat): nat
    requires g < NUM_GROUPS
  {
    var m := GroupAt(g).mux;
    if m.base == MUX_BASE1 then NUM_IOMUX - NUM_PWM_MUX + m.shift
    else if m.offset == 0 then 0
    else if m.shift <= 32 then (32 - m.shift) / 2 else 0
  }

  /** The width of the hardware field of entry `i`. */
  function Width(i: nat): nat {
    if 1 <= i < NUM_IOMUX - NUM_PWM_MUX then 2 else 1
  }

  /** The field of entry `i` occupies bit `j` of the register at `offset` of `base`. */
  predicate Covers(i: nat, base: nat, offset: nat, j: nat)
    requires i < NUM_IOMUX
  {
    var e := InitialEntry(i);
    e.base == base && e.offset == offset && e.shift <= j < e.shift + Width(i)
  }

  /** The keys of the log never change. */
  ghost predicate KeysKept(s: Pinmux) {
    && |s.log| == NUM_IOMUX
    && forall i :: 0 <= i < NUM_IOMUX ==>
         s.log[i] == InitialEntry(i).(alt := s.log[i].alt, configured := s.log[i].configured)
  }

  /** Log and hardware agree, `s0` being the state at probe: the field of a configured entry holds the
      logged alternative, and a bit that no configured entry covers is as it was. */
  ghost predicate Agrees(s0: Pinmux, s: Pinmux) {
    && KeysKept(s)
    && (forall i :: 0 <= i < NUM_IOMUX && s.log[i].configured ==>
          Field(Rd(Base(s, s.log[i].base), s.log[i].offset), Mask(Width(i)), s.log[i].shift) == s.log[i].alt)
    && (forall base: nat, offset: nat, j: nat {:trigger Bit(Rd(Base(s, base), offset), j)} ::
          && base <= MUX_BASE1
          && (forall i :: 0 <= i < NUM_IOMUX && s.log[i].configured ==> !Covers(i, base, offset, j)) ==>
            Bit(Rd(Base(s, base), offset), j) == Bit(Rd(Base(s0, base), offset), j))
  }

  /** How many entries of the log are configured. */
  function Configured(log: seq<LogEntry>): nat {
    if log == [] then 0 else Configured(log[..|log| - 1]) + (if log[|log| - 1].configured then 1 else 0)
  }
}
