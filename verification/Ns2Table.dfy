/** The pin table of Northstar2, row by row, and where each setting of a pin is in the registers. */
module Ns2Table {
  import opened Words
  import opened Mmio
  import opened Ns2Spec
  import opened Ns2Conf
  import Proofs = Ns2Proofs

  /** The register of a pin, and the lowest bits of its slew, input, pull and drive fields. */
  datatype Row = Row(offset: nat, src: nat, input: nat, pull: nat, drive: nat)

  function RowAt(pin: nat): Row
    requires Configurable(pin)
  {
    match pin
    case 63 => Row(0x0, 31, 30, 27, 24)  // qspi_wp
    case 64 => Row(0x0, 23, 22, 19, 16)  // qspi_hold
    case 65 => Row(0x0, 15, 14, 11, 8)  // qspi_cs
    case 66 => Row(0x0, 7, 6, 3, 0)  // qspi_sck
    case 67 => Row(0x04, 31, 30, 27, 24)  // uart3_sin
    case 68 => Row(0x04, 23, 22, 19, 16)  // uart3_sout
    case 69 => Row(0x04, 15, 14, 11, 8)  // qspi_mosi
    case 70 => Row(0x04, 7, 6, 3, 0)  // qspi_miso
    case 71 => Row(0x08, 31, 30, 27, 24)  // spi0_fss
    case 72 => Row(0x08, 23, 22, 19, 16)  // spi0_rxd
    case 73 => Row(0x08, 15, 14, 11, 8)  // spi0_txd
    case 74 => Row(0x08, 7, 6, 3, 0)  // spi0_sck
    case 75 => Row(0x0c, 31, 30, 27, 24)  // spi1_fss
    case 76 => Row(0x0c, 23, 22, 19, 16)  // spi1_rxd
    case 77 => Row(0x0c, 15, 14, 11, 8)  // spi1_txd
    case 78 => Row(0x0c, 7, 6, 3, 0)  // spi1_sck
    case 79 => Row(0x10, 31, 30, 27, 24)  // sdio0_data7
    case 80 => Row(0x10, 23, 22, 19, 16)  // sdio0_emmc_rst
    case 81 => Row(0x10, 15, 14, 11, 8)  // sdio0_led_on
    case 82 => Row(0x10, 7, 6, 3, 0)  // sdio0_wp
    case 83 => Row(0x14, 31, 30, 27, 24)  // sdio0_data3
    case 84 => Row(0x14, 23, 22, 19, 16)  // sdio0_data4
    case 85 => Row(0x14, 15, 14, 11, 8)  // sdio0_data5
    case 86 => Row(0x14, 7, 6, 3, 0)  // sdio0_data6
    case 87 => Row(0x18, 31, 30, 27, 24)  // sdio0_cmd
    case 88 => Row(0x18, 23, 22, 19, 16)  // sdio0_data0
    case 89 => Row(0x18, 15, 14, 11, 8)  // sdio0_data1
    case 90 => Row(0x18, 7, 6, 3, 0)  // sdio0_data2
    case 91 => Row(0x1c, 31, 30, 27, 24)  // sdio1_led_on
    case 92 => Row(0x1c, 23, 22, 19, 16)  // sdio1_wp
    case 93 => Row(0x1c, 15, 14, 11, 8)  // sdio0_cd_l
    case 94 => Row(0x1c, 7, 6, 3, 0)  // sdio0_clk
    case 95 => Row(0x20, 31, 30, 27, 24)  // sdio1_data5
    case 96 => Row(0x20, 23, 22, 19, 16)  // sdio1_data6
    case 97 => Row(0x20, 15, 14, 11, 8)  // sdio1_data7
    case 98 => Row(0x20, 7, 6, 3, 0)  // sdio1_emmc_rst
    case 99 => Row(0x24, 31, 30, 27, 24)  // sdio1_data1
    case 100 => Row(0x24, 23, 22, 19, 16)  // sdio1_data2
    case 101 => Row(0x24, 15, 14, 11, 8)  // sdio1_data3
    case 102 => Row(0x24, 7, 6, 3, 0)  // sdio1_data4
    case 103 => Row(0x28, 31, 30, 27, 24)  // sdio1_cd_l
    case 104 => Row(0x28, 23, 22, 19, 16)  // sdio1_clk
    case 105 => Row(0x28, 15, 14, 11, 8)  // sdio1_cmd
    case 106 => Row(0x28, 7, 6, 3, 0)  // sdio1_data0
    case 107 => Row(0x2c, 15, 14, 11, 8)  // ext_mdio_0
    case 108 => Row(0x2c, 7, 6, 3, 0)  // ext_mdc_0
    case 109 => Row(0x34, 31, 30, 27, 24)  // usb3_p1_vbus_ppc
    case 110 => Row(0x34, 23, 22, 19, 16)  // usb3_p1_overcurrent
    case 111 => Row(0x34, 15, 14, 11, 8)  // usb3_p0_vbus_ppc
    case 112 => Row(0x34, 7, 6, 3, 0)  // usb3_p0_overcurrent
    case 113 => Row(0x38, 31, 30, 27, 24)  // usb2_presence_indication
    case 114 => Row(0x38, 23, 22, 19, 16)  // usb2_vbus_present
    case 115 => Row(0x38, 15, 14, 11, 8)  // usb2_vbus_ppc
    case 116 => Row(0x38, 7, 6, 3, 0)  // usb2_overcurrent
    case 117 => Row(0x3c, 15, 14, 11, 8)  // sata_led1
    case _ => Row(0x3c, 7, 6, 3, 0)  // sata_led0
  }

  function Lowest(row: Row, a: Param): nat {
    match a
    case Slew => row.src
    case InputEn => row.input
    case Pull => row.pull
    case Drive => row.drive
  }

  /** How many bits a field has. */
  function Bits(a: Param): nat {
    match a
    case Slew => 1
    case InputEn => 1
    case Pull => 2
    case Drive => 3
  }

  /** The driver's shifts for one byte lane. */
  function LaneRow(offset: nat, lane: nat): Row {
    Row(offset, 8 * lane + 7, 8 * lane + 6, 8 * lane + 3, 8 * lane)
  }

  lemma RowsTo78(pin: nat)
    requires 63 <= pin <= 78
    ensures RowAt(pin) == LaneRow(ConfOffset(pin), Lane(pin))
  {}

  lemma RowsTo92(pin: nat)
    requires 79 <= pin <= 92
    ensures RowAt(pin) == LaneRow(ConfOffset(pin), Lane(pin))
  {}

  lemma RowsTo106(pin: nat)
    requires 93 <= pin <= 106
    ensures RowAt(pin) == LaneRow(ConfOffset(pin), Lane(pin))
  {}

  lemma RowsTo118(pin: nat)
    requires 107 <= pin <= 118
    ensures RowAt(pin) == LaneRow(ConfOffset(pin), Lane(pin))
  {}

  /** The register and the shift that the driver uses for a parameter of a pin are those of its row. */
  lemma TableMatches(pin: nat, a: Param)
    requires Configurable(pin)
    ensures ConfOffset(pin) == RowAt(pin).offset && ShiftOf(pin, a) == Lowest(RowAt(pin), a)
    ensures ParamWidth(a) == Bits(a)
  {
    hide RowAt, ConfOffset, Lane;
    if pin <= 78 { RowsTo78(pin); }
    else if pin <= 92 { RowsTo92(pin); }
    else if pin <= 106 { RowsTo106(pin); }
    else { RowsTo118(pin); }
  }

  // ---- Settings as bits ----

  /** Writing a parameter rewrites the bits of its field, in the register of the pin, and no other bit of
      any register. */
  lemma PutBits(regs: Regs, pin: nat, a: Param, v: nat, reg: nat, i: nat)
    requires Configurable(pin) && v <= ParamMask(a)
    ensures var low := Lowest(RowAt(pin), a);
            Bit(Rd(PutParam(regs, pin, a, v), reg), i) ==
              if reg == RowAt(pin).offset && low <= i < low + Bits(a) then Bit(v, i - low) else Bit(Rd(regs, reg), i)
  {
    hide Insert, Mask, Bit, ShiftOf, ConfOffset, ParamMask, ParamWidth, RowAt, Lowest, Bits;
    TableMatches(pin, a);
    ParamMasks(a);
    InsertBit(Rd(regs, ConfOffset(pin)), ParamWidth(a), ShiftOf(pin, a), v, i);
  }

  /** `n` bits of one register, from `low` on, hold `v`; no other bit of any register has changed. */
  ghost predicate OnlyField(was: Regs, now: Regs, offset: nat, low: nat, n: nat, v: nat) {
    forall reg: nat, i: nat {:trigger Bit(Rd(now, reg), i)} ::
      Bit(Rd(now, reg), i) == if reg == offset && low <= i < low + n then Bit(v, i - low) else Bit(Rd(was, reg), i)
  }

  lemma PutOnly(regs: Regs, pin: nat, a: Param, v: nat)
    requires Configurable(pin) && v <= ParamMask(a)
    ensures OnlyField(regs, PutParam(regs, pin, a, v), RowAt(pin).offset, Lowest(RowAt(pin), a), Bits(a), v)
  {
    hide Bit, RowAt, PutParam, Lowest, Bits;
    forall reg: nat, i: nat
      ensures var low := Lowest(RowAt(pin), a);
              Bit(Rd(PutParam(regs, pin, a, v), reg), i) ==
                if reg == RowAt(pin).offset && low <= i < low + Bits(a) then Bit(v, i - low) else Bit(Rd(regs, reg), i)
    {
      PutBits(regs, pin, a, v, reg, i);
    }
  }

  datatype Change = Keep | Become(bit: bool)

  /** What an accepted configuration makes of bit `i` of the register of its pin: slew is a bit, input is
      a bit that is active low, a pull is one of two bits, a strength of 2 to 16 mA is a number from 0 to 7. */
  function ChangeOf(row: Row, c: Conf, i: nat): Change
    requires Acceptable(c)
  {
    match c
    case SlewRate(arg) => if i == row.src then Become(arg != 0) else Keep
    case InputEnable(arg) => if i == row.input then Become(arg % 0x1_0000 == 0) else Keep
    case BiasDisable => if i == row.pull || i == row.pull + 1 then Become(false) else Keep
    case BiasPullUp => if i == row.pull || i == row.pull + 1 then Become(i == row.pull) else Keep
    case BiasPullDown => if i == row.pull || i == row.pull + 1 then Become(i == row.pull + 1) else Keep
    case DriveStrength(mA) => if row.drive <= i < row.drive + 3 then Become(Bit(mA / 2 - 1, i - row.drive)) else Keep
  }

  lemma SmallBits()
    ensures !Bit(0, 0) && !Bit(0, 1) && Bit(1, 0) && !Bit(1, 1) && !Bit(2, 0) && Bit(2, 1)
    ensures Bit(3, 0) && Bit(3, 1)
  {}

  /** Each accepted configuration sets the bits that the table gives its pin, and no other bit. */
  lemma ConfBits(regs: Regs, pin: nat, c: Conf, reg: nat, i: nat)
    requires Configurable(pin) && Acceptable(c)
    ensures var now := Bit(Rd(ConfigSet(regs, pin, [c], ENotSupp).0, reg), i);
            var change := ChangeOf(RowAt(pin), c, i);
            now == if reg == RowAt(pin).offset && change.Become? then change.bit else Bit(Rd(regs, reg), i)
  {
    hide RowAt, PutParam, Bit;
    ValueFits(c);
    PutBits(regs, pin, ParamOf(c), ValueOf(c), reg, i);
    SmallBits();
    assert [c][1..] == [];
    assert ConfigSet(regs, pin, [c], ENotSupp) == ConfigSet(PutParam(regs, pin, ParamOf(c), ValueOf(c)), pin, [], Done);
  }

  function B(b: bool): nat { if b then 1 else 0 }

  /** What the queries answer, in terms of the same bits. */
  lemma QueryBits(regs: Regs, pin: nat, arg: nat)
    requires Configurable(pin)
    ensures var row := RowAt(pin);
            var w := Rd(regs, row.offset);
            var up, down := Bit(w, row.pull), Bit(w, row.pull + 1);
            && ConfigGet(regs, pin, SlewRate(arg)) == (Done, B(Bit(w, row.src)))
            && ConfigGet(regs, pin, InputEnable(arg)) == (if Bit(w, row.input) then EInval else Done, 0)
            && ConfigGet(regs, pin, BiasPullUp) == (if up && !down then Done else EInval, 0)
            && ConfigGet(regs, pin, BiasPullDown) == (if down && !up then Done else EInval, 0)
            && ConfigGet(regs, pin, BiasDisable) == (if up == down then Done else EInval, 0)
            && ConfigGet(regs, pin, DriveStrength(arg)) ==
                 (Done, 2 * (1 + B(Bit(w, row.drive)) + 2 * B(Bit(w, row.drive + 1)) + 4 * B(Bit(w, row.drive + 2))))
  {
    hide RowAt, Field, ParamMask, ShiftOf, ConfOffset, Bit, Lowest;
    forall a: Param
      ensures ReadParam(regs, pin, a) == Number(Rd(regs, RowAt(pin).offset), Lowest(RowAt(pin), a), Bits(a))
    {
      TableMatches(pin, a);
      ParamMasks(a);
      FieldNumber(Rd(regs, ConfOffset(pin)), ParamWidth(a), ShiftOf(pin, a));
    }
    LowestOf(RowAt(pin));
    hide ReadParam;
  }

  lemma LowestOf(row: Row)
    ensures Lowest(row, Slew) == row.src && Lowest(row, InputEn) == row.input
    ensures Lowest(row, Pull) == row.pull && Lowest(row, Drive) == row.drive
  {}

  /** The number that up to three bits of a word make. */
  function Number(w: nat, low: nat, n: nat): nat {
    if n == 0 then 0
    else if n == 1 then B(Bit(w, low))
    else if n == 2 then B(Bit(w, low)) + 2 * B(Bit(w, low + 1))
    else B(Bit(w, low)) + 2 * B(Bit(w, low + 1)) + 4 * B(Bit(w, low + 2))
  }

  lemma FieldNumber(w: nat, n: nat, low: nat)
    requires 1 <= n <= 3
    ensures Field(w, Mask(n), low) == Number(w, low, n)
  {
    hide Bit, And, Shr, Mask;
    var v := Field(w, Mask(n), low);
    assert forall i: nat :: Bit(v, i) == (i < n && Bit(w, i + low));
    FieldInRange(w, n, low);
    Masks();
    assert forall i: nat :: i < n ==> Bit(v, i) == Bit(w, low + i);
    LowNumber(v);
    assert !Bit(v, n);
    assert n <= 2 ==> !Bit(v, 2);
  }

  lemma LowNumber(v: nat)
    requires v < 8
    ensures v == B(Bit(v, 0)) + 2 * B(Bit(v, 1)) + 4 * B(Bit(v, 2))
  {
    assert Bit(v, 1) == Bit(v / 2, 0) && Bit(v, 2) == Bit(v / 2, 1) == Bit(v / 2 / 2, 0);
  }

  // ---- Which strengths are accepted ----

  /** The eight even strengths from 2 to 16 mA are accepted, and no other. */
  lemma StrengthAcceptedIff(mA: nat)
    ensures Acceptable(DriveStrength(mA)) <==> exists k: nat {:trigger Twice(k)} :: k < 8 && mA == Twice(k) + 2
  {
    if Acceptable(DriveStrength(mA)) { assert Twice(mA / 2 - 1) + 2 == mA; }
  }

  function Twice(k: nat): nat { 2 * k }

  /** Whatever a strength query reports can be set, on any pin. */
  lemma ReportedIsAccepted(regs: Regs, pin: nat, arg: nat)
    requires Configurable(pin)
    ensures Acceptable(DriveStrength(ConfigGet(regs, pin, DriveStrength(arg)).1))
  {
    hide Field, ConfOffset, ShiftOf;
    FieldInRange(Rd(regs, ConfOffset(pin)), 3, ShiftOf(pin, Drive));
    Masks();
  }

  // ---- The pins of the groups ----

  /** Apart from PWM a group has exactly the pins that its multiplexer gives it: 57 pins have one. */
  lemma GroupPins(g: nat, pin: nat)
    requires g < 37
    ensures HasPin(g, pin) <==>
              pin < 57 && Proofs.PinSlot(pin) == SlotOf(g) && Proofs.Owner(pin, GroupAt(g).mux.alt) == g
  {
    if HasPin(g, pin) {
      Proofs.TableRow(g, pin) by { hide *; }
      LastPin(g, pin);
    } else if pin < 57 && Proofs.Owner(pin, GroupAt(g).mux.alt) == g {
      if g < 20 { LowGroupPins(g, pin); } else { HighGroupPins(g, pin); }
    }
  }

  lemma LastPin(g: nat, pin: nat)
    requires g < NUM_GROUPS && HasPin(g, pin)
    ensures pin < 57
  {}

  lemma LowGroupPins(g: nat, pin: nat)
    requires g < 20 && pin < 57 && Proofs.Owner(pin, GroupAt(g).mux.alt) == g
    ensures Proofs.PinSlot(pin) == SlotOf(g) ==> HasPin(g, pin)
  {}

  lemma HighGroupPins(g: nat, pin: nat)
    requires 20 <= g < 37 && pin < 57 && Proofs.Owner(pin, GroupAt(g).mux.alt) == g
    ensures Proofs.PinSlot(pin) == SlotOf(g) ==> HasPin(g, pin)
  {}

  // ---- The PWM groups ----

  /** Each of the four PWM groups is one pin and one bit of the second register block, and shares its pin
      with the groups of one other multiplexer: pins 24 and 25 with nor_data and gpio_0_1, pins 27 and 28
      with gpio_2_5, pcie_ab1_clk_wak and nor_addr_0_3. */
  lemma PwmGroups(k: nat, pin: nat, g: nat)
    requires k < NUM_PWM_MUX && g < NUM_GROUPS
    ensures IsPwm(37 + k) && GroupAt(37 + k).mux == Mux(MUX_BASE1, 0, k, 1, 1)
    ensures HasPin(37 + k, pin) <==> pin == (if k < 2 then 24 + k else 25 + k)
    ensures HasPin(37 + k, pin) ==> (HasPin(g, pin) <==> g == 37 + k || g in (if k < 2 then {1, 2} else {5, 6, 7}))
  {
    PwmRow(k);
    hide GroupAt;
    if HasPin(37 + k, pin) { GroupsOf(pin, g); }
  }

  lemma PwmRow(k: nat)
    requires k < NUM_PWM_MUX
    ensures GroupAt(37 + k) == Group(if k < 2 then 24 + k else 25 + k, 1, Mux(MUX_BASE1, 0, k, 1, 1))
  {
    assert k == 0 || k == 1 || k == 2 || k == 3;
  }

  lemma GroupsOf(pin: nat, g: nat)
    requires pin in {24, 25, 27, 28} && g < NUM_GROUPS
    ensures HasPin(g, pin) <==>
              g == (if pin <= 25 then pin + 13 else pin + 12) || g in (if pin <= 25 then {1, 2} else {5, 6, 7})
  {}
}
