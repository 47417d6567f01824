/** The generic memory-mapped GPIO driver in its own form: a chip object whose shadows are updated
    in place and written out. Every method is tied to BgpioSpec. */
module BgpioDriver {
  import opened Words
  import opened BgpioSpec
  import Proofs = BgpioProofs

  function IsPowerOf2(n: nat): bool {
    n != 0 && And(n, n - 1) == 0
  }

  class GpioChip {
    var bits: nat
    var bigEndian: bool
    var setMode: SetMode
    var dirMode: DirMode
    var getMode: GetMode
    var data: nat
    var dir: nat
    // the controller
    var out: nat
    var dirReg: nat
    ghost var writes: seq<Write>

    function Cfg(): Config
      reads this
    {
      Config(bits, bigEndian, setMode, dirMode, getMode)
    }

    ghost function Abs(): Chip
      reads this
    {
      Chip(Cfg(), data, dir, out, dirReg, writes)
    }

    constructor (out: nat, dirReg: nat)
      ensures this.out == out && this.dirReg == dirReg && writes == []
    {
      this.out, this.dirReg, writes := out, dirReg, [];
      bits, bigEndian, setMode, dirMode, getMode, data, dir := 0, false, SetNone, DirSimple, GetDat, 0, 0;
    }

    method SetupIo(r: Resources, f: Flags) returns (ret: Ret)
      modifies this`setMode, this`getMode
      ensures ret == Done <==> r.dat
      ensures ret == Done ==> setMode == SetModeFor(r, f) && getMode == GetModeFor(f)
    {
      if !r.dat {
        return EInval;
      }
      if r.setReg && r.clrReg {
        setMode := SetWithClear;
      } else if r.setReg && !r.clrReg {
        setMode := SetSet;
      } else if f.noOutput {
        setMode := SetNone;
      } else {
        setMode := SetDat;
      }
      if !f.unreadableSet && f.readOutputSet {
        getMode := GetSet;
      } else {
        getMode := GetDat;
      }
      ret := Done;
    }

    method SetupAccessors(bitBe: bool, byteBe: bool) returns (ret: Ret)
      modifies this`bigEndian
      ensures ret == Done <==> bits == 8 || bits == 16 || bits == 32 || (bits == 64 && !byteBe)
      ensures ret == Done ==> bigEndian == bitBe
    {
      if bits != 8 && bits != 16 && bits != 32 && bits != 64 {
        return EInval;
      }
      if bits == 64 && byteBe {
        return EInval;
      }
      bigEndian := bitBe;
      ret := Done;
    }

    method SetupDirection(r: Resources, f: Flags) returns (ret: Ret)
      modifies this`dirMode
      ensures ret == Done <==> !(r.dirout && r.dirin)
      ensures ret == Done ==> dirMode == DirModeFor(r, f)
    {
      if r.dirout && r.dirin {
        return EInval;
      } else if r.dirout {
        dirMode := DirOut;
      } else if r.dirin {
        dirMode := DirIn;
      } else if f.noOutput {
        dirMode := DirNoOutput;
      } else {
        dirMode := DirSimple;
      }
      ret := Done;
    }

    /** The width of the registers is one that the accessors exist for. */
    method SetupWidth(sz: nat) returns (ret: Ret)
      modifies this`bits
      ensures ret == Done ==> bits == sz * 8
      ensures sz == 1 || sz == 2 || sz == 4 || sz == 8 ==> ret == Done
    {
      SmallPowers();
      hide And, IsPowerOf2;
      if !IsPowerOf2(sz) {
        return EInval;
      }
      bits := sz * 8;
      if bits > BITS_PER_LONG {
        return EInval;
      }
      ret := Done;
    }

    method Setup(sz: nat, r: Resources, f: Flags) returns (ret: Ret)
      modifies this`bits, this`bigEndian, this`setMode, this`dirMode, this`getMode
      ensures ret == Done <==> Supported(sz, r, f)
      ensures ret == Done ==> Cfg() == ConfigFor(sz, r, f)
    {
      hide SetModeFor, GetModeFor, DirModeFor;
      ret := SetupWidth(sz);
      if ret == Done {
        ret := SetupIo(r, f);
      }
      if ret == Done {
        ret := SetupAccessors(f.bigEndian, f.bigEndianByteOrder);
      }
      if ret == Done {
        ret := SetupDirection(r, f);
      }
    }

    /** bgpio_init on a zeroed chip, when the data register reads `levels`. */
    method Init(sz: nat, r: Resources, f: Flags, levels: nat) returns (ret: Ret)
      requires dir == 0 && writes == []
      modifies this
      ensures out == old(out) && dirReg == old(dirReg)
      ensures ret == Done <==> Supported(sz, r, f)
      ensures ret == Done ==> Abs() == InitChip(sz, r, f, levels, out, dirReg)
    {
      hide Supported, SetModeFor, GetModeFor;
      ret := Setup(sz, r, f);
      if ret != Done {
        return;
      }
      data := levels;
      if setMode == SetSet && !f.unreadableSet {
        data := out;
      }
      if (dirMode == DirOut || dirMode == DirIn) && !f.unreadableDir {
        dir := dirReg;
      }
    }

    lemma SmallPowers()
      ensures IsPowerOf2(1) && IsPowerOf2(2) && IsPowerOf2(4) && IsPowerOf2(8)
    {
      hide Bit;
      AndBelow(1);
      AndBelow(2);
      AndBelow(4);
    }

    lemma AndBelow(n: nat)
      requires n > 0
      ensures And(2 * n, 2 * n - 1) == 2 * And(n, n - 1)
      ensures And(1, 0) == 0
    {
      hide Bit;
      assert And(0, 0) == 0;
    }

    method WriteReg(reg: Reg, val: nat)
      modifies this`out, this`dirReg, this`writes
      ensures Abs() == Store(old(Abs()), reg, val)
    {
      hide Or, AndNot;
      writes := writes + [Write(reg, val)];
      match reg {
        case RegDat => out := val;
        case RegSet => out := if setMode == SetWithClear then Or(out, val) else val;
        case RegClr => out := AndNot(out, val);
        case RegDir => dirReg := val;
      }
    }

    method SetPin(gpio: nat, val: bool)
      requires gpio < bits
      modifies this`data, this`out, this`dirReg, this`writes
      ensures Abs() == Set(old(Abs()), gpio, val)
    {
      hide Or, AndNot, BIT, Store;
      if setMode == SetNone {
        return;
      }
      ghost var s := Abs();
      var mask := Pin2Mask(Cfg(), gpio);
      if setMode == SetWithClear {
        if val {
          WriteReg(RegSet, mask);
        } else {
          WriteReg(RegClr, mask);
        }
      } else {
        if val {
          data := Or(data, mask);
        } else {
          data := AndNot(data, mask);
        }
        assert Abs() == s.(data := Assign(s.data, mask, val));
        WriteReg(if setMode == SetDat then RegDat else RegSet, data);
      }
    }

    /** bgpio_multiple_get_masks: the pins it has dealt with are cleared from `mask` in place. */
    method MultipleGetMasks(mask: array<nat>, values: nat) returns (setMask: nat, clearMask: nat)
      requires mask.Length == 1
      modifies mask
      ensures setMask == Select(Cfg(), old(mask[0]), values, true, bits)
      ensures clearMask == Select(Cfg(), old(mask[0]), values, false, bits)
      ensures mask[0] == AndNot(old(mask[0]), Mask(bits))
    {
      hide Bit, Or, AndNot, BIT, Mask;
      setMask, clearMask := 0, 0;
      ghost var m := mask[0];
      AndNotNothing(m);
      var i := 0;
      while i < bits
        invariant 0 <= i <= bits
        invariant mask[0] == AndNot(m, Mask(i))
        invariant setMask == Select(Cfg(), m, values, true, i)
        invariant clearMask == Select(Cfg(), m, values, false, i)
      {
        if mask[0] == 0 {
          NothingLeft(m, values, i);
          break;
        }
        OneLess(m, i);
        if Bit(mask[0], i) {
          mask[0] := AndNot(mask[0], BIT(i));
          if Bit(values, i) {
            setMask := Or(setMask, Pin2Mask(Cfg(), i));
          } else {
            clearMask := Or(clearMask, Pin2Mask(Cfg(), i));
          }
        }
        i := i + 1;
      }
    }

    lemma AndNotNothing(m: nat)
      ensures AndNot(m, Mask(0)) == m
    {
      hide Bit, AndNot, Mask;
      Extensional(AndNot(m, Mask(0)), m);
    }

    lemma OneLess(m: nat, i: nat)
      ensures Bit(AndNot(m, Mask(i)), i) == Bit(m, i)
      ensures AndNot(m, Mask(i + 1)) ==
                if Bit(m, i) then AndNot(AndNot(m, Mask(i)), BIT(i)) else AndNot(m, Mask(i))
    {
      hide Bit, AndNot, Mask, BIT;
      var a, b := AndNot(m, Mask(i)), AndNot(m, Mask(i + 1));
      if Bit(m, i) { Extensional(b, AndNot(a, BIT(i))); } else { Extensional(b, a); }
    }

    /** No selected pin is left from `i` on. */
    lemma NothingLeft(m: nat, values: nat, i: nat)
      requires i <= bits && AndNot(m, Mask(i)) == 0
      ensures AndNot(m, Mask(bits)) == 0
      ensures Select(Cfg(), m, values, true, i) == Select(Cfg(), m, values, true, bits)
      ensures Select(Cfg(), m, values, false, i) == Select(Cfg(), m, values, false, bits)
    {
      hide Bit, AndNot, Mask, Select;
      ZeroBits();
      assert forall j: nat :: i <= j ==> !Bit(m, j) by {
        forall j: nat | i <= j ensures !Bit(m, j) { assert !Bit(AndNot(m, Mask(i)), j); }
      }
      Extensional(AndNot(m, Mask(bits)), 0);
      SelectStops(m, values, true, i, bits);
      SelectStops(m, values, false, i, bits);
    }

    lemma {:induction false} SelectStops(m: nat, values: nat, val: bool, i: nat, k: nat)
      requires i <= k <= bits && forall j: nat :: i <= j ==> !Bit(m, j)
      ensures Select(Cfg(), m, values, val, i) == Select(Cfg(), m, values, val, k)
      decreases k
    {
      hide Bit, Or, BIT;
      if i < k { SelectStops(m, values, val, i, k - 1); }
    }

    method SetMultiplePins(mask: array<nat>, values: nat)
      requires mask.Length == 1 && setMode != SetNone
      modifies this`data, this`out, this`dirReg, this`writes, mask
      ensures Abs() == SetMultiple(old(Abs()), old(mask[0]), values)
      ensures mask[0] == AndNot(old(mask[0]), Mask(bits))
    {
      hide Bit, Or, AndNot, Select, Store, Mask;
      ghost var s, m := Abs(), mask[0];
      var setMask, clearMask := MultipleGetMasks(mask, values);
      if setMode == SetWithClear {
        if setMask != 0 {
          WriteReg(RegSet, setMask);
        }
        if clearMask != 0 {
          WriteReg(RegClr, clearMask);
        }
      } else {
        data := Or(data, setMask);
        data := AndNot(data, clearMask);
        assert Abs() == s.(data := AndNot(Or(s.data, setMask), clearMask));
        WriteReg(if setMode == SetDat then RegDat else RegSet, data);
      }
    }

    method WriteDir(newDir: nat)
      modifies this`dir, this`out, this`dirReg, this`writes
      ensures Abs() == PutDir(old(Abs()), newDir)
    {
      hide Store;
      ghost var s := Abs();
      dir := newDir;
      assert Abs() == s.(dir := newDir);
      WriteReg(RegDir, dir);
    }

    method DirInput(gpio: nat)
      requires gpio < bits
      modifies this`dir, this`out, this`dirReg, this`writes
      ensures Abs() == DirectionInput(old(Abs()), gpio)
    {
      hide Or, AndNot, BIT, PutDir;
      if dirMode == DirOut {
        WriteDir(AndNot(dir, Pin2Mask(Cfg(), gpio)));
      } else if dirMode == DirIn {
        WriteDir(Or(dir, Pin2Mask(Cfg(), gpio)));
      }
    }

    method DirOutput(gpio: nat, val: bool) returns (ret: Ret)
      requires gpio < bits
      modifies this`data, this`dir, this`out, this`dirReg, this`writes
      ensures (Abs(), ret) == DirectionOutput(old(Abs()), gpio, val)
    {
      hide Or, AndNot, BIT, PutDir, Set;
      if dirMode == DirNoOutput {
        return EInval;
      }
      Proofs.SetFrame(Abs(), gpio, val);
      SetPin(gpio, val);
      if dirMode == DirOut {
        WriteDir(Or(dir, Pin2Mask(Cfg(), gpio)));
      } else if dirMode == DirIn {
        WriteDir(AndNot(dir, Pin2Mask(Cfg(), gpio)));
      }
      ret := Done;
    }

    method GetDirection(gpio: nat) returns (input: bool)
      requires gpio < bits && (dirMode == DirOut || dirMode == DirIn)
      ensures input == IsInput(Abs(), gpio)
      ensures input == (Bit(dirReg, Pos(Cfg(), gpio)) == (dirMode == DirIn))
    {
      hide And, BIT, Bit;
      var a := And(dirReg, Pin2Mask(Cfg(), gpio));
      Proofs.MaskTest(Cfg(), dirReg, gpio);
      input := if dirMode == DirOut then a == 0 else a != 0;
    }

    method GetPin(levels: nat, gpio: nat) returns (val: bool)
      requires gpio < bits
      ensures val == Get(Abs(), levels, gpio)
      ensures var i := Pos(Cfg(), gpio);
              val == if getMode == GetSet && Bit(dir, i) then Bit(out, i) else Bit(levels, i)
    {
      hide And, BIT, Bit;
      Proofs.MaskTest(Cfg(), dir, gpio);
      Proofs.MaskTest(Cfg(), out, gpio);
      Proofs.MaskTest(Cfg(), levels, gpio);
      var pinmask := Pin2Mask(Cfg(), gpio);
      if getMode == GetSet && And(dir, pinmask) != 0 {
        val := And(out, pinmask) != 0;
      } else {
        val := And(levels, pinmask) != 0;
      }
    }
  }
}
