/** What a transfer answers and what it writes, in the words of the I2C interface and the numbers of the
    controller's data sheet. */
module I2cAnswers {
  import opened Words
  import opened Mmio
  import opened I2cDivider
  import opened I2cSpec
  import opened I2cProofs
  import opened I2cFailures

  // ---- Answers ----

  /** A read that another message follows. */
  ghost predicate ReadsEarly(msgs: seq<Msg>) {
    exists i :: 0 <= i < |msgs| && msgs[i].rd && i != |msgs| - 1
  }

  lemma OnlyLastReadsIff(msgs: seq<Msg>)
    ensures OnlyLastReads(msgs) <==> !ReadsEarly(msgs)
  {}

  /** Which answer a transfer gives. A request is refused exactly for an early read or a divider that does
      not fit. Otherwise the answer is a timeout exactly when the handler has not ended the transfer; and
      when it has, the status that it read first at the last interrupt decides: ERR, bit 8, gives EREMOTEIO,
      CLKT, bit 9, alone EIO, and without both the answer is the number of messages or EIO. */
  lemma XferAnswer(hw: Hw, s: Dev, msgs: seq<Msg>, clk: nat, rate: nat, irqs: nat) returns (e: Dev)
    requires rate > 0
    ensures var (t, ret) := Xfer(hw, s, msgs, clk, rate, irqs);
            if ReadsEarly(msgs) then ret == EOpNotSupp && t == s
            else if Divider(clk, rate).None? then ret == EInval && t == s
            else if !t.completed then ret == ETimedOut
            else
              && Ok(e) && t == Isr(hw, e)
              && var st := hw.status(e.statusReads);
                 if Bit(st, 8) then ret == ERemoteIo
                 else if Bit(st, 9) then ret == EIo
                 else ret == Transferred(|msgs|) || ret == EIo
  {
    assert S_ERR == 8 && S_CLKT == 9;
    hide *;
    e := s;
    OnlyLastReadsIff(msgs);
    Refusals(hw, s, msgs, clk, rate, irqs);
    if !ReadsEarly(msgs) && Divider(clk, rate).Some? && Xfer(hw, s, msgs, clk, rate, irqs).0.completed {
      var b := Begin(s, msgs, clk, rate);
      BeginMoves(hw, msgs, s, clk, rate);
      XferReports(hw, s, msgs, clk, rate, irqs);
      var m;
      e, m := LastInterrupt(hw, msgs, s.writes + DividerWrites(clk, rate), s.fifoReads, b, irqs);
      FinishFrame(hw, e, IsrBody(hw, e).0);
      ErrorReported(hw, e);
      ReportedAs(Transfer(hw, b, irqs), |msgs|);
    }
  }

  lemma Refusals(hw: Hw, s: Dev, msgs: seq<Msg>, clk: nat, rate: nat, irqs: nat)
    requires rate > 0
    ensures var (t, ret) := Xfer(hw, s, msgs, clk, rate, irqs);
            && (!OnlyLastReads(msgs) ==> t == s && ret == EOpNotSupp)
            && (OnlyLastReads(msgs) && Divider(clk, rate).None? ==> t == s && ret == EInval)
            && (OnlyLastReads(msgs) && Divider(clk, rate).Some? ==>
                  && (!t.completed ==> ret == ETimedOut)
                  && (|msgs| == 0 ==> !t.completed)
                  && (|msgs| > 0 && t.completed ==>
                        (t, ret) == Report(Transfer(hw, Begin(s, msgs, clk, rate), irqs), |msgs|)))
  {
    hide Transfer, Divider, OnlyLastReads, Bit, BIT, DividerWrites;
  }

  lemma ReportedAs(u: Dev, num: nat)
    ensures u.completed ==>
              Report(u, num) == (u, if u.msgErr == 0 then Transferred(num)
                                    else if Bit(u.msgErr, S_ERR) then ERemoteIo else EIo)
  {
    hide Bit, BIT;
  }

  /** The handler declines an interrupt exactly when the status shows neither ERR, CLKT nor DONE, and
      neither TXW during a write nor RXR during a read. */
  lemma DeclinedIff(hw: Hw, s: Dev)
    requires Ok(s)
    ensures var st := hw.status(s.statusReads);
            IsrBody(hw, s).1 == NotMine <==>
              && !Bit(st, 8) && !Bit(st, 9) && !Bit(st, 1)
              && !(Bit(st, 2) && !Bit(s.ctl, 0)) && !(Bit(st, 3) && Bit(s.ctl, 0))
  {
    StatusBits(hw, s);
    hide AndNot, And, Or, BIT, Bit, Fill, Drain, Advance;
  }

  // ---- Words on the bus ----

  /** The halves of the delay word: a sixteenth of the divider in the upper one, which delays the output
      after a falling edge, and a quarter of it in the lower one, which delays the sampling; at least 1. */
  lemma DelayFields(clk: nat, rate: nat)
    requires rate > 0 && Divider(clk, rate).Some?
    ensures var d := Divider(clk, rate).value;
            var fall, rise := Shr(Del(d), 16), And(Del(d), Mask(16));
            && DividerWrites(clk, rate) == [Write(0x14, d), Write(0x18, Del(d))]
            && (if d < 16 then fall == 1 else 16 * fall <= d < 16 * fall + 16)
            && (if d < 4 then rise == 1 else 4 * rise <= d < 4 * rise + 4)
  {
    hide Shr, And, Mask, Divider, Del;
    DelaysFit(clk, rate);
  }

  /** The control words and the closing writes as numbers: a write message is started with 0x8280, a read
      with 0x8481, the last one with 0x100 more; the controller is stopped by clearing its FIFO, and
      exactly the status bits DONE, ERR and CLKT are cleared. */
  lemma WordValues()
    ensures StartWord(false, false) == 0x8280 && StartWord(true, false) == 0x8481
    ensures StartWord(false, true) == 0x8380 && StartWord(true, true) == 0x8581
    ensures CLOSING == [Write(0x0, 0x10), Write(0x4, 0x302)]
  {
    hide *;
    SmallPowers();
    StartWordIs(false, false, [7, 9, 15]);
    StartWordIs(true, false, [0, 7, 10, 15]);
    StartWordIs(false, true, [7, 8, 9, 15]);
    StartWordIs(true, true, [0, 7, 8, 10, 15]);
    ClosingBits();
  }

  lemma SmallPowers()
    ensures WordOf([7, 9, 15]) == 0x8280 && WordOf([0, 7, 10, 15]) == 0x8481
    ensures WordOf([7, 8, 9, 15]) == 0x8380 && WordOf([0, 7, 8, 10, 15]) == 0x8581
    ensures WordOf([4]) == 0x10 && WordOf([1, 8, 9]) == 0x302
  {
    hide Bit;
    PowValues();
    FewBits(7, 9, 15);
    FewBits(1, 8, 9);
    MoreBits(0, 7, 10, 15);
    MoreBits(7, 8, 9, 15);
    MoreBits(0, 7, 8, 10);
    assert [0, 7, 8, 10] + [15] == [0, 7, 8, 10, 15];
    WordOfSnoc([0, 7, 8, 10], 15);
    WordOfSnoc([], 4);
  }

  lemma PowValues()
    ensures Pow2(0) == 1 && Pow2(1) == 2 && Pow2(4) == 0x10 && Pow2(7) == 0x80
    ensures Pow2(8) == 0x100 && Pow2(9) == 0x200 && Pow2(10) == 0x400 && Pow2(15) == 0x8000
  {
    Powers();
    assert Pow2(8) == 2 * Pow2(7) && Pow2(9) == 2 * Pow2(8) && Pow2(10) == 2 * Pow2(9);
    assert Pow2(16) == 2 * Pow2(15);
    PowStep(0);
  }

  lemma WordOfSnoc(bits: seq<nat>, top: nat)
    ensures WordOf(bits + [top]) == WordOf(bits) + Pow2(top)
  {
    assert (bits + [top])[..|bits|] == bits;
  }

  lemma FewBits(a: nat, b: nat, c: nat)
    ensures WordOf([a, b, c]) == Pow2(a) + Pow2(b) + Pow2(c)
  {
    hide Pow2;
    WordOfSnoc([], a);
    WordOfSnoc([a], b);
    WordOfSnoc([a, b], c);
    assert [] + [a] == [a] && [a] + [b] == [a, b] && [a, b] + [c] == [a, b, c];
  }

  lemma MoreBits(a: nat, b: nat, c: nat, d: nat)
    ensures WordOf([a, b, c, d]) == Pow2(a) + Pow2(b) + Pow2(c) + Pow2(d)
  {
    hide Pow2;
    FewBits(a, b, c);
    WordOfSnoc([a, b, c], d);
    assert [a, b, c] + [d] == [a, b, c, d];
  }

  lemma StartWordIs(rd: bool, last: bool, bits: seq<nat>)
    requires forall i, j :: 0 <= i < j < |bits| ==> bits[i] < bits[j]
    requires forall i :: 0 <= i < |bits| ==> bits[i] < 16
    requires forall b: nat :: b in bits <==>
               b == 7 || b == 15 || (rd && (b == 0 || b == 10)) || (!rd && b == 9) || (last && b == 8)
    ensures StartWord(rd, last) == WordOf(bits)
  {
    hide Bit, StartWord, WordOf;
    WordOfBits(bits, 16);
    forall b: nat ensures Bit(StartWord(rd, last), b) == Bit(WordOf(bits), b) { StartWordBits(rd, last, b); }
    Extensional(StartWord(rd, last), WordOf(bits));
  }

  lemma ClosingBits()
    ensures CLOSING == [Write(0x0, WordOf([4])), Write(0x4, WordOf([1, 8, 9]))]
  {
    hide Bit, Or, BIT, WordOf;
    WordOfBits([4], 16);
    WordOfBits([1, 8, 9], 16);
    Extensional(BIT(C_CLEAR), WordOf([4]));
    Extensional(Or(Or(BIT(S_CLKT), BIT(S_ERR)), BIT(S_DONE)), WordOf([1, 8, 9]));
  }

  /** The three writes that start a message, at the controller's addresses. */
  lemma StartAddresses(msgs: seq<Msg>, i: nat)
    requires i < |msgs|
    ensures var ws := StartWrites(msgs, i);
            && |ws| == 3 && ws[0] == Write(0xc, msgs[i].addr) && ws[1] == Write(0x8, |msgs[i].buf|)
            && ws[2].reg == 0x0
  {
    hide StartWord;
  }
}
