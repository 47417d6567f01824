/** The clock divider of the BCM2835 I2C master: i2c-bcm2835.c, bcm2835_i2c_set_divider.

    `unsigned long` is 32 bits wide here (BCM2835 is a 32-bit part), and so is `u32`. */
module I2cDivider {
  import opened Words
  import opened Wrappers

  const CDIV_MIN: nat := 0x0002
  const CDIV_MAX: nat := 0xFFFE
  const FEDL_SHIFT: nat := 16
  const WORD: nat := 0x1_0000_0000

  /** DIV_ROUND_UP on unsigned longs: the sum wraps. */
  function DivRoundUp(n: nat, d: nat): nat
    requires d > 0
  {
    (n + d - 1) % WORD / d
  }

  /** The divider the driver programs for core clock `clk` and bus rate `rate`, or None for -EINVAL. */
  function Divider(clk: nat, rate: nat): Option<nat>
    requires rate > 0
  {
    var q := DivRoundUp(clk, rate) % WORD;
    var d := if q % 2 == 1 then (q + 1) % WORD else q;
    if d < CDIV_MIN || d > CDIV_MAX then None else Some(d)
  }

  function Max(a: nat, b: nat): nat { if a > b then a else b }

  function Fedl(d: nat): nat { Max(d / 16, 1) }
  function Redl(d: nat): nat { Max(d / 4, 1) }
  function Del(d: nat): nat { Or(Shl(Fedl(d), FEDL_SHIFT), Redl(d)) }

  /** `d` is an even divider at which the bus is no faster than `rate`. */
  predicate Adequate(d: nat, clk: nat, rate: nat) {
    d % 2 == 0 && d * rate >= clk
  }

  /** `d` is the least such divider: the fastest bus that is not too fast. */
  ghost predicate Best(d: nat, clk: nat, rate: nat) {
    Adequate(d, clk, rate) && forall e: nat :: Adequate(e, clk, rate) ==> d <= e
  }

  /** What the driver is for: it accepts exactly the best divider, when that one fits the register. */
  ghost predicate Optimal(clk: nat, rate: nat)
    requires rate > 0
  {
    match Divider(clk, rate)
    case Some(d) => Best(d, clk, rate) && d <= 0xFFFE
    case None => forall d: nat :: Best(d, clk, rate) ==> d > 0xFFFE
  }

  lemma CeilBounds(n: nat, d: nat)
    requires n > 0 && d > 0
    ensures var q := (n + d - 1) / d; q > 0 && (q - 1) * d < n <= q * d
  {
    var q := (n + d - 1) / d;
    assert n + d - 1 == d * q + (n + d - 1) % d;
    assert d * q == q * d && (q - 1) * d == q * d - d;
  }

  lemma MulMono(a: nat, b: nat, c: nat)
    requires a <= b
    ensures a * c <= b * c
  {}

  lemma RoundEvenIsBest(clk: nat, rate: nat, d: nat)
    requires clk > 0 && rate > 0
    requires var q := (clk + rate - 1) / rate; d == if q % 2 == 1 then q + 1 else q
    ensures Best(d, clk, rate)
  {
    var q := (clk + rate - 1) / rate;
    CeilBounds(clk, rate);
    MulMono(q, d, rate);
    forall e: nat | Adequate(e, clk, rate) ensures d <= e {
      if e < q { MulMono(e, q - 1, rate); }
    }
  }

  lemma BestIsUnique(d: nat, e: nat, clk: nat, rate: nat)
    requires Best(d, clk, rate) && Best(e, clk, rate)
    ensures d == e
  {}

  lemma SmallQuotient(a: nat, b: nat)
    requires a < b
    ensures a / b == 0
  {}

  lemma UnwrappedQuotient(clk: nat, rate: nat)
    requires 0 < clk && 0 < rate && clk + rate - 1 < WORD
    ensures DivRoundUp(clk, rate) == (clk + rate - 1) / rate < WORD
  {
    var n := clk + rate - 1;
    assert n % WORD == n;
  }

  lemma WrappedIsRejected(clk: nat, rate: nat)
    requires 0 < clk < WORD && 0 < rate < WORD && clk + rate - 1 >= WORD
    ensures Divider(clk, rate) == None
  {
    var n := clk + rate - 1;
    assert n % WORD == n - WORD;
    SmallQuotient(n - WORD, rate);
  }

  /** The odd correction and the range check, for a quotient that is one word. */
  lemma DividerOfQuotient(clk: nat, rate: nat, q: nat)
    requires rate > 0 && DivRoundUp(clk, rate) == q < WORD
    ensures var d := if q % 2 == 1 then q + 1 else q;
            Divider(clk, rate) == if CDIV_MIN <= d <= CDIV_MAX then Some(d) else None
  {
    hide DivRoundUp;
  }

  lemma DividerIsLeastEven(clk: nat, rate: nat, d: nat)
    requires 0 < clk < WORD && 0 < rate < WORD
    requires var q := (clk + rate - 1) / rate; d == if q % 2 == 1 then q + 1 else q
    ensures Divider(clk, rate) == if clk + rate - 1 < 0x1_0000_0000 && d <= 0xFFFE then Some(d) else None
  {
    hide Divider, DivRoundUp;
    if clk + rate - 1 < WORD {
      UnwrappedQuotient(clk, rate);
      CeilBounds(clk, rate);
      DividerOfQuotient(clk, rate, (clk + rate - 1) / rate);
    } else {
      WrappedIsRejected(clk, rate);
    }
  }

  lemma LeastEvenFits(clk: nat, rate: nat, d: nat)
    requires clk > 0 && rate > 0 && Best(d, clk, rate)
    ensures d <= CDIV_MAX <==> clk <= CDIV_MAX * rate
  {
    if d <= CDIV_MAX {
      MulMono(d, CDIV_MAX, rate);
    } else {
      assert !Adequate(CDIV_MAX, clk, rate);
    }
  }

  /** For every positive clock and rate the driver is optimal, except where the sum inside
      DIV_ROUND_UP wraps although an encodable divider exists: it then reports -EINVAL. */
  lemma OptimalIff(clk: nat, rate: nat)
    requires 0 < clk < WORD && 0 < rate < WORD
    ensures Optimal(clk, rate) <==> clk + rate - 1 < 0x1_0000_0000 || clk > 0xFFFE * rate
  {
    var q := (clk + rate - 1) / rate;
    var d := if q % 2 == 1 then q + 1 else q;
    RoundEvenIsBest(clk, rate, d);
    forall e: nat | Best(e, clk, rate) ensures e == d { BestIsUnique(d, e, clk, rate); }
    LeastEvenFits(clk, rate, d);
    DividerIsLeastEven(clk, rate, d);
    hide Best, Divider, DivRoundUp;
  }

  /** With a core clock of 250 MHz, a rate for which the wrapping sum turns a representable setting
      into -EINVAL. */
  lemma WrapExample()
    ensures Divider(250_000_000, 0xFFFF_FFFF) == None
    ensures Best(2, 250_000_000, 0xFFFF_FFFF)
    ensures !Optimal(250_000_000, 0xFFFF_FFFF)
  {
    RoundEvenIsBest(250_000_000, 0xFFFF_FFFF, 2);
    OptimalIff(250_000_000, 0xFFFF_FFFF);
  }

  /** Both delays are within 1 .. d/2 and the DEL word determines them. */
  lemma DelaysFit(clk: nat, rate: nat)
    requires rate > 0 && Divider(clk, rate).Some?
    ensures var d := Divider(clk, rate).value;
            && 1 <= Fedl(d) <= d / 2
            && 1 <= Redl(d) <= d / 2
            && Shr(Del(d), FEDL_SHIFT) == Fedl(d)
            && And(Del(d), Mask(FEDL_SHIFT)) == Redl(d)
            && Del(d) < WORD
  {
    var d := Divider(clk, rate).value;
    Powers();
    Fits(Redl(d), 16);
    Fits(Fedl(d), 16);
    forall i: nat ensures Bit(Shr(Del(d), 16), i) == Bit(Fedl(d), i) {}
    Extensional(Shr(Del(d), 16), Fedl(d));
    forall i: nat ensures Bit(And(Del(d), Mask(16)), i) == Bit(Redl(d), i) {}
    Extensional(And(Del(d), Mask(16)), Redl(d));
    Fits(Del(d), 32);
  }
}
