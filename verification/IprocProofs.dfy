/** What the iProc pins hold after each operation, seen through the functions that read them back. */
module IprocProofs {
  import opened Words
  import opened Mmio
  import opened IprocSpec

  // ---- One bit a pin ----

  lemma GetBitIsBit(s: Iproc, reg: nat, pin: nat)
    ensures GetBit(s, reg, pin) <==> Bit(Rd(s.base, RegOf(pin, reg)), Shift(pin))
  {
    hide Bit, And, BIT;
    var w := And(Rd(s.base, RegOf(pin, reg)), BIT(Shift(pin)));
    ZeroBits();
    if !Bit(w, Shift(pin)) { Extensional(w, 0); }
  }

  /** Setting a bit of a pin is seen by that register and that pin alone. */
  lemma SetBitEffect(s: Iproc, reg: nat, pin: nat, on: bool, reg': nat, pin': nat)
    requires reg < GPIO_BANK_SIZE && reg' < GPIO_BANK_SIZE
    ensures GetBit(SetBit(s, reg, pin, on), reg', pin') ==
              if reg' == reg && pin' == pin then on else GetBit(s, reg', pin')
  {
    hide Bit, And, Or, AndNot, BIT, GetBit;
    GetBitIsBit(s, reg', pin');
    GetBitIsBit(SetBit(s, reg, pin, on), reg', pin');
    assert pin == 32 * Bank(pin) + Shift(pin) && pin' == 32 * Bank(pin') + Shift(pin');
    if RegOf(pin', reg') == RegOf(pin, reg) { BanksApart(pin, reg, pin', reg'); }
  }

  lemma BanksApart(pin: nat, reg: nat, pin': nat, reg': nat)
    requires reg < GPIO_BANK_SIZE && reg' < GPIO_BANK_SIZE && RegOf(pin, reg) == RegOf(pin', reg')
    ensures Bank(pin) == Bank(pin') && reg == reg'
  {}

  // ---- Slices ----

  lemma OneBit(w: nat, k: nat)
    ensures And(Shr(w, k), 1) == if Bit(w, k) then 1 else 0
    ensures Shr(And(w, BIT(k)), k) == if Bit(w, k) then 1 else 0
  {
    hide Bit, And, Shr, BIT, Mask;
    Masks();
    ZeroBits();
    var v := if Bit(w, k) then Mask(1) else 0;
    var a := And(Shr(w, k), Mask(1));
    var b := Shr(And(w, BIT(k)), k);
    forall i: nat ensures Bit(a, i) == Bit(v, i) && Bit(b, i) == Bit(v, i) {
      assert Bit(Mask(1), i) == (i < 1);
      assert Bit(a, i) == (Bit(Shr(w, k), i) && i < 1);
    }
    Extensional(a, v);
    Extensional(b, v);
  }

  /** Which bit of the drive registers holds bit `j` of the strength of a pin. */
  predicate Holds(reg: nat, shift: nat, n: nat, r: nat, i: nat) {
    i == shift && reg <= r && (r - reg) % 4 == 0 && (r - reg) / 4 < n
  }

  /** The write of the topmost of `n` slices. */
  lemma OneSlice(s: Iproc, reg: nat, shift: nat, level: nat, n: nat, r: nat, i: nat)
    requires n > 0
    ensures var at := reg + 4 * (n - 1);
            var m := PutSlices(s, reg, shift, level, n - 1);
            var t := PutSlices(s, reg, shift, level, n);
            && Bit(Rd(Drv(t), r), i) == (if r == at && i == shift then Bit(level, n - 1) else Bit(Rd(Drv(m), r), i))
            && (s.ioCtrl.Some? ==> t.base == m.base)
            && t.disabled == m.disabled
  {
    hide Bit, And, Shr, Insert, Mask;
    var at := reg + 4 * (n - 1);
    var w := Rd(Drv(PutSlices(s, reg, shift, level, n - 1)), at);
    var v := And(Shr(level, n - 1), 1);
    OneBit(level, n - 1) by { hide *; }
    Masks() by { hide *; }
    InsertedBit(w, shift, v, i) by { hide *; }
  }

  lemma InsertedBit(w: nat, shift: nat, v: nat, i: nat)
    requires v <= 1
    ensures Bit(Insert(w, 1, shift, v), i) == if i == shift then v == 1 else Bit(w, i)
  {
    hide Insert, Mask;
    Masks();
    InsertBit(w, 1, shift, v, i) by { hide *; }
  }

  lemma {:induction false} PutSlicesBit(s: Iproc, reg: nat, shift: nat, level: nat, n: nat, r: nat, i: nat)
    ensures var t := PutSlices(s, reg, shift, level, n);
            && Bit(Rd(Drv(t), r), i) ==
                 (if Holds(reg, shift, n, r, i) then Bit(level, (r - reg) / 4) else Bit(Rd(Drv(s), r), i))
            && (s.ioCtrl.Some? ==> t.base == s.base)
            && t.disabled == s.disabled
  {
    if n > 0 {
      PutSlicesBit(s, reg, shift, level, n - 1, r, i) by { hide *; }
      OneSlice(s, reg, shift, level, n, r, i) by { hide *; }
      HoldsStep(reg, shift, n, r, i);
      hide Bit, PutSlices, Drv, Holds;
    }
  }

  /** The last slice holds one bit more than the slices before it. */
  lemma HoldsStep(reg: nat, shift: nat, n: nat, r: nat, i: nat)
    requires n > 0
    ensures Holds(reg, shift, n, r, i) <==>
              Holds(reg, shift, n - 1, r, i) || (r == reg + 4 * (n - 1) && i == shift)
    ensures r == reg + 4 * (n - 1) ==> (r - reg) / 4 == n - 1 && !Holds(reg, shift, n - 1, r, i)
  {}

  /** Bit `i` of the number read back is what register `i` holds. */
  lemma {:induction false} SlicesBit(regs: Regs, reg: nat, shift: nat, n: nat)
    ensures Slices(regs, reg, shift, n) < Pow2(n)
    ensures forall i: nat :: Bit(Slices(regs, reg, shift, n), i) == (i < n && Bit(Rd(regs, reg + 4 * i), shift))
  {
    hide Bit, And, Shr, Shl, BIT;
    ZeroBits();
    if n > 0 {
      SlicesBit(regs, reg, shift, n - 1);
      OneBit(Rd(regs, reg + 4 * (n - 1)), shift);
      ShlValue(0, n - 1);
      ShlValue(1, n - 1);
      var a := Slices(regs, reg, shift, n - 1);
      AddBit(a, n - 1);
      var top := Bit(Rd(regs, reg + 4 * (n - 1)), shift);
      assert Slices(regs, reg, shift, n) == a + if top then Pow2(n - 1) else 0;
      forall i: nat
        ensures Bit(Slices(regs, reg, shift, n), i) == (i < n && Bit(Rd(regs, reg + 4 * i), shift))
      {
        assert Bit(a, i) == (i < n - 1 && Bit(Rd(regs, reg + 4 * i), shift));
      }
    }
  }
}
