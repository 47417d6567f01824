/** Machine words as natural numbers, with the C bit operators defined on them.

    A word of any width is a `nat`; bit `i` of `w` is `Bit(w, i)`. The operators are defined
    by recursion on the binary expansion, and every one of them is characterised bit by bit,
    so clients reason about `Bit` only. `Extensional` turns bit-wise agreement into equality. */
module Words {

  predicate Bit(w: nat, i: nat) {
    if i == 0 then w % 2 == 1 else Bit(w / 2, i - 1)
  }

  function Pow2(n: nat): (r: nat)
    ensures r > 0
  {
    if n == 0 then 1 else 2 * Pow2(n - 1)
  }

  function Or(a: nat, b: nat): (r: nat)
    ensures forall i: nat :: Bit(r, i) == (Bit(a, i) || Bit(b, i))
    decreases a + b
  {
    if a == 0 && b == 0 then
      ZeroBits();
      0
    else
      var low := if a % 2 == 1 || b % 2 == 1 then 1 else 0;
      var r := 2 * Or(a / 2, b / 2) + low;
      assert r / 2 == Or(a / 2, b / 2);
      r
  }

  function And(a: nat, b: nat): (r: nat)
    ensures forall i: nat :: Bit(r, i) == (Bit(a, i) && Bit(b, i))
    decreases a + b
  {
    if a == 0 && b == 0 then
      ZeroBits();
      0
    else
      var low := if a % 2 == 1 && b % 2 == 1 then 1 else 0;
      var r := 2 * And(a / 2, b / 2) + low;
      assert r / 2 == And(a / 2, b / 2);
      r
  }

  /** `a & ~b` */
  function AndNot(a: nat, b: nat): (r: nat)
    ensures forall i: nat :: Bit(r, i) == (Bit(a, i) && !Bit(b, i))
    decreases a + b
  {
    if a == 0 && b == 0 then
      ZeroBits();
      0
    else
      var low := if a % 2 == 1 && b % 2 == 0 then 1 else 0;
      var r := 2 * AndNot(a / 2, b / 2) + low;
      assert r / 2 == AndNot(a / 2, b / 2);
      r
  }

  /** `a << k`, without truncation */
  function Shl(a: nat, k: nat): (r: nat)
    ensures forall i: nat :: Bit(r, i) == (i >= k && Bit(a, i - k))
  {
    if k == 0 then a
    else
      var r := 2 * Shl(a, k - 1);
      assert r / 2 == Shl(a, k - 1);
      r
  }

  /** `a >> k` */
  function Shr(a: nat, k: nat): (r: nat)
    ensures forall i: nat :: Bit(r, i) == Bit(a, i + k)
    decreases k
  {
    if k == 0 then a
    else
      var s := Shr(a, k - 1);
      assert forall i: nat :: Bit(s / 2, i) == Bit(s, i + 1);
      s / 2
  }

  /** `BIT(n)` */
  function BIT(n: nat): (r: nat)
    ensures forall i: nat :: Bit(r, i) == (i == n)
  {
    ZeroBits();
    assert forall i: nat :: Bit(1, i) == (i == 0);
    Shl(1, n)
  }

  /** The word of width `n` whose bit `i` is `f(i)`. */
  function FromBits(n: nat, f: nat -> bool): (r: nat)
    ensures forall i: nat :: Bit(r, i) == (i < n && f(i))
  {
    ZeroBits();
    if n == 0 then 0
    else
      Or(FromBits(n - 1, f), if f(n - 1) then BIT(n - 1) else 0)
  }

  /** The `n` lowest bits set: `(1 << n) - 1`, as `MaskValue` says. */
  function Mask(n: nat): (r: nat)
    ensures forall i: nat :: Bit(r, i) == (i < n)
  {
    if n == 0 then
      ZeroBits();
      0
    else
      Or(Mask(n - 1), BIT(n - 1))
  }

  lemma ZeroBits()
    ensures forall i: nat :: !Bit(0, i)
  {
    forall i: nat ensures !Bit(0, i) { ZeroBit(i); }
  }

  lemma {:induction false} ZeroBit(i: nat)
    ensures !Bit(0, i)
  {
    if i > 0 { ZeroBit(i - 1); }
  }

  lemma {:induction false} Extensional(a: nat, b: nat)
    requires forall i: nat :: Bit(a, i) == Bit(b, i)
    ensures a == b
    decreases a + b
  {
    if a != 0 || b != 0 {
      assert Bit(a, 0) == Bit(b, 0);
      forall i: nat ensures Bit(a / 2, i) == Bit(b / 2, i) {
        assert Bit(a, i + 1) == Bit(b, i + 1);
      }
      Extensional(a / 2, b / 2);
    }
  }

  lemma {:induction false} LowBits(n: nat, i: nat)
    ensures Bit(Pow2(n) - 1, i) == (i < n)
    decreases i
  {
    if n == 0 {
      ZeroBits();
    } else if i > 0 {
      assert (Pow2(n) - 1) / 2 == Pow2(n - 1) - 1;
      LowBits(n - 1, i - 1);
    }
  }

  lemma MaskValue(n: nat)
    ensures Mask(n) == Pow2(n) - 1
  {
    hide Bit, Mask, Pow2;
    var w := Pow2(n) - 1;
    forall i: nat ensures Bit(w, i) == (i < n) { LowBits(n, i); }
    Extensional(Mask(n), w);
  }

  lemma PowStep(n: nat)
    ensures Pow2(n + 4) == 16 * Pow2(n)
  {
    assert Pow2(n + 2) == 4 * Pow2(n);
  }

  lemma Powers()
    ensures Pow2(1) == 2 && Pow2(2) == 4 && Pow2(3) == 8
    ensures Pow2(8) == 0x100 && Pow2(16) == 0x1_0000 && Pow2(32) == 0x1_0000_0000
  {
    assert Pow2(2) == 4;
    PowStep(0);
    PowStep(4);
    PowStep(8);
    PowStep(12);
    PowStep(16);
    PowStep(20);
    PowStep(24);
    PowStep(28);
  }

  lemma {:induction false} ShlValue(a: nat, k: nat)
    ensures Shl(a, k) == a * Pow2(k)
  {
    hide Bit;
    if k > 0 { ShlValue(a, k - 1); }
  }

  /** `val & ~(mask << shift) | (v << shift)`: rewriting one field of a register. */
  function Insert(w: nat, mask: nat, shift: nat, v: nat): nat {
    Or(AndNot(w, Shl(mask, shift)), Shl(v, shift))
  }

  /** `(val >> shift) & mask`: reading one field of a register. */
  function Field(w: nat, mask: nat, shift: nat): nat {
    And(Shr(w, shift), mask)
  }

  lemma InsertBit(w: nat, k: nat, shift: nat, v: nat, i: nat)
    requires v <= Mask(k)
    ensures Bit(Insert(w, Mask(k), shift, v), i) == if shift <= i < shift + k then Bit(v, i - shift) else Bit(w, i)
  {
    hide Bit, Or, AndNot, Shl, Mask;
    MaskValue(k);
    Fits(v, k);
  }

  /** A field reads back what was inserted into it. */
  lemma FieldInserted(w: nat, k: nat, shift: nat, v: nat)
    requires v <= Mask(k)
    ensures Field(Insert(w, Mask(k), shift, v), Mask(k), shift) == v
  {
    hide Bit, Or, And, AndNot, Shl, Shr, Mask, Insert;
    var r := Insert(w, Mask(k), shift, v);
    MaskValue(k);
    Fits(v, k);
    forall i: nat ensures Bit(Field(r, Mask(k), shift), i) == Bit(v, i) {
      InsertBit(w, k, shift, v, i + shift);
    }
    Extensional(Field(r, Mask(k), shift), v);
  }

  /** Inserting into a field leaves every field of the same word that does not overlap it. */
  lemma FieldKept(w: nat, k: nat, shift: nat, v: nat, l: nat, at: nat)
    requires v <= Mask(k)
    requires at + l <= shift || shift + k <= at
    ensures Field(Insert(w, Mask(k), shift, v), Mask(l), at) == Field(w, Mask(l), at)
  {
    hide Bit, Or, And, AndNot, Shl, Shr, Mask, Insert;
    var r := Insert(w, Mask(k), shift, v);
    forall i: nat ensures Bit(Field(r, Mask(l), at), i) == Bit(Field(w, Mask(l), at), i) {
      InsertBit(w, k, shift, v, i + at);
    }
    Extensional(Field(r, Mask(l), at), Field(w, Mask(l), at));
  }

  /** Clearing a field is inserting zero. */
  lemma InsertZero(w: nat, mask: nat, shift: nat)
    ensures Insert(w, mask, shift, 0) == AndNot(w, Shl(mask, shift))
  {
    hide Bit, Or, AndNot, Shl;
    ZeroBits();
    Extensional(Insert(w, mask, shift, 0), AndNot(w, Shl(mask, shift)));
  }

  lemma FieldInRange(w: nat, k: nat, shift: nat)
    ensures Field(w, Mask(k), shift) <= Mask(k)
  {
    hide Bit, And, Shr;
    MaskValue(k);
    Fits(Field(w, Mask(k), shift), k);
  }

  lemma Masks()
    ensures Mask(1) == 1 && Mask(2) == 3 && Mask(3) == 7
  {
    hide Bit, Mask;
    Powers();
    MaskValue(1);
    MaskValue(2);
    MaskValue(3);
  }

  /** No bit at or above `n` is set. */
  ghost predicate Within(w: nat, n: nat) {
    forall i: nat :: i >= n ==> !Bit(w, i)
  }

  /** A word is below 2^n exactly when it has no bit at or above `n`. */
  lemma {:induction false} Fits(w: nat, n: nat)
    ensures w < Pow2(n) <==> Within(w, n)
  {
    if n == 0 {
      ZeroBits();
      if Within(w, n) { Extensional(w, 0); }
    } else {
      Fits(w / 2, n - 1);
      if Within(w, n) {
        forall i: nat | i >= n - 1 ensures !Bit(w / 2, i) { assert !Bit(w, i + 1); }
      }
      if Within(w / 2, n - 1) {
        forall i: nat | i >= n ensures !Bit(w, i) { assert !Bit(w / 2, i - 1); }
      }
    }
  }

  lemma {:induction false} AddBit(a: nat, k: nat)
    requires a < Pow2(k)
    ensures a + Pow2(k) < Pow2(k + 1)
    ensures forall i: nat :: Bit(a + Pow2(k), i) == (Bit(a, i) || i == k)
  {
    hide Bit, Or, Shl;
    ShlValue(1, k);
    assert BIT(k) == Pow2(k);
    Fits(a, k);
    OrDisjoint(a, k);
  }

  lemma {:induction false} OrDisjoint(a: nat, k: nat)
    requires a < Pow2(k)
    ensures Or(a, Pow2(k)) == a + Pow2(k)
  {
    if k > 0 {
      OrDisjoint(a / 2, k - 1);
      assert Pow2(k) / 2 == Pow2(k - 1) && Pow2(k) % 2 == 0;
      assert Or(a, Pow2(k)) == 2 * Or(a / 2, Pow2(k) / 2) + a % 2;
    }
  }

  /** The word whose bits are those in `bits`. */
  function WordOf(bits: seq<nat>): nat {
    if bits == [] then 0 else WordOf(bits[..|bits| - 1]) + Pow2(bits[|bits| - 1])
  }

  lemma {:induction false} WordOfBits(bits: seq<nat>, n: nat)
    requires forall i, j :: 0 <= i < j < |bits| ==> bits[i] < bits[j]
    requires forall i :: 0 <= i < |bits| ==> bits[i] < n
    ensures WordOf(bits) < Pow2(n) && forall i: nat :: Bit(WordOf(bits), i) <==> i in bits
    decreases |bits|
  {
    hide Bit;
    if bits == [] {
      ZeroBits();
    } else {
      var front, top := bits[..|bits| - 1], bits[|bits| - 1];
      WordOfBits(front, top);
      AddBit(WordOf(front), top);
      PowMonotone(top + 1, n);
      assert forall i: nat :: i in bits <==> i in front || i == top;
    }
  }

  lemma {:induction false} PowMonotone(a: nat, b: nat)
    requires a <= b
    ensures Pow2(a) <= Pow2(b)
    decreases b
  {
    if a < b { PowMonotone(a, b - 1); }
  }
}
