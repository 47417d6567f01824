/** When a transfer reported as successful has really moved everything: exactly when every
    message but the last has at least one byte. */
module I2cLimits {
  import opened Words
  import opened Mmio
  import opened I2cDivider
  import opened I2cSpec
  import opened I2cProofs

  // ---- The grammar is strictly increasing, and only its last start asks for INTD ----

  lemma {:induction false} UptoGrows(msgs: seq<Msg>, i: nat, k: nat)
    requires i <= k <= |msgs|
    ensures |Upto(msgs, k)| >= |Upto(msgs, i)| + 3 * (k - i)
    decreases k
  {
    hide StartWord;
    if i < k { UptoGrows(msgs, i, k - 1); }
  }

  lemma {:induction false} UptoHasNoIntd(msgs: seq<Msg>, k: nat)
    requires k < |msgs|
    ensures forall j :: 0 <= j < |Upto(msgs, k)| && Upto(msgs, k)[j].reg == REG_C ==>
              !Bit(Upto(msgs, k)[j].val, C_INTD)
  {
    hide StartWord, Bit;
    if k > 0 {
      UptoHasNoIntd(msgs, k - 1);
      StartWordRead(msgs[k - 1].rd, false);
    }
  }

  /** The DONE interrupt is requested by the start of the last message and by no other write. */
  lemma IntdOnlyOnLast(msgs: seq<Msg>, i: nat, k: nat, j: nat)
    requires i < |msgs| && k <= |msgs[i].buf|
    requires j < |Sentence(msgs, i, k)| && Sentence(msgs, i, k)[j].reg == REG_C
    ensures Bit(Sentence(msgs, i, k)[j].val, C_INTD) <==> i == |msgs| - 1 && j == |Upto(msgs, i)| + 2
  {
    hide StartWord, Bit, Upto;
    UptoHasNoIntd(msgs, i);
    StartWordRead(msgs[i].rd, i == |msgs| - 1);
  }

  /** How much of a message is missing from the sentence. */
  lemma SentenceLength(msgs: seq<Msg>, i: nat, k: nat)
    requires i < |msgs| && k <= |msgs[i].buf|
    ensures |Sentence(msgs, i, k)| == |Upto(msgs, i + 1)| - (if msgs[i].rd then 0 else |msgs[i].buf| - k)
  {
    hide StartWord;
  }

  lemma IntdInSentence(msgs: seq<Msg>, i: nat, k: nat, j: nat)
    requires i < |msgs| && k <= |msgs[i].buf| && j < |Sentence(msgs, i, k)|
    ensures var w := Sentence(msgs, i, k)[j];
            w.reg == REG_C && Bit(w.val, C_INTD) <==> j == |Upto(msgs, |msgs| - 1)| + 2
    ensures if i < |msgs| - 1 then |Sentence(msgs, i, k)| <= |Upto(msgs, |msgs| - 1)|
            else |Sentence(msgs, i, k)| >= |Upto(msgs, |msgs| - 1)| + 3
  {
    hide StartWord, Bit, Upto, Payload;
    SentenceLength(msgs, i, k);
    if i < |msgs| - 1 { UptoGrows(msgs, i + 1, |msgs| - 1); }
    if Sentence(msgs, i, k)[j].reg == REG_C { IntdOnlyOnLast(msgs, i, k, j); }
  }

  /** The writes around the sentence of a transfer, which never ask for INTD. */
  lemma NoIntdAround(clk: nat, rate: nat, timeout: bool)
    requires rate > 0
    ensures forall w :: w in DividerWrites(clk, rate) ==> w.reg != REG_C
    ensures var tail := if timeout then [Write(REG_C, BIT(C_CLEAR))] else CLOSING;
            |tail| <= 2 && forall w :: w in tail ==> w.reg != REG_C || !Bit(w.val, C_INTD)
  {
    hide Divider, Del, Bit, Or, BIT;
  }

  /** Of all the writes of a transfer, however it ends, only the start of the last message asks for the
      DONE interrupt: neither the divider, nor the other messages, nor the stop of the controller do. */
  lemma IntdOnce(hw: Hw, s: Dev, msgs: seq<Msg>, clk: nat, rate: nat, irqs: nat)
    requires rate > 0 && |msgs| > 0
    ensures var t := Xfer(hw, s, msgs, clk, rate, irqs).0;
            forall j :: |s.writes| <= j < |t.writes| ==>
              (t.writes[j].reg == REG_C && Bit(t.writes[j].val, C_INTD) <==>
               j == |s.writes| + |DividerWrites(clk, rate)| + |Upto(msgs, |msgs| - 1)| + 2)
  {
    var ws := XferGrammar(hw, s, msgs, clk, rate, irqs) by { hide *; }
    hide Xfer, DividerWrites, CLOSING, Upto, Sentence, Bit, BIT, Divider, OnlyLastReads;
    if OnlyLastReads(msgs) && Divider(clk, rate).Some? {
      var (t, ret) := Xfer(hw, s, msgs, clk, rate, irqs);
      var i: nat, k: nat :| i < |msgs| && k <= |msgs[i].buf| && ws == Sentence(msgs, i, k);
      NoIntdAround(clk, rate, ret == ETimedOut);
      var dividers := DividerWrites(clk, rate);
      var tail := if ret == ETimedOut then [Write(REG_C, BIT(C_CLEAR))] else CLOSING;
      IntdInTrace(msgs, i, k, s.writes, dividers, tail, t.writes);
    }
  }

  lemma IntdInTrace(msgs: seq<Msg>, i: nat, k: nat, was: seq<Write>, dividers: seq<Write>, tail: seq<Write>,
                    now: seq<Write>)
    requires i < |msgs| && k <= |msgs[i].buf| && now == was + dividers + Sentence(msgs, i, k) + tail
    requires (forall w :: w in dividers ==> w.reg != REG_C) && |tail| <= 2
    requires forall w :: w in tail ==> w.reg != REG_C || !Bit(w.val, C_INTD)
    ensures forall j :: |was| <= j < |now| ==>
              (now[j].reg == REG_C && Bit(now[j].val, C_INTD) <==>
               j == |was| + |dividers| + |Upto(msgs, |msgs| - 1)| + 2)
  {
    hide Upto, Sentence, Bit;
    var ws, base := Sentence(msgs, i, k), |was| + |dividers|;
    SentenceStarts(msgs, i, k);
    IntdInSentence(msgs, i, k, 0);
    forall j | |was| <= j < |now|
      ensures now[j].reg == REG_C && Bit(now[j].val, C_INTD) <==> j == base + |Upto(msgs, |msgs| - 1)| + 2
    {
      if j < base {
        assert now[j] == dividers[j - |was|];
      } else if j < base + |ws| {
        assert now[j] == ws[j - base];
        IntdInSentence(msgs, i, k, j - base);
      } else {
        assert now[j] == tail[j - base - |ws|];
      }
    }
  }

  lemma SentenceStarts(msgs: seq<Msg>, i: nat, k: nat)
    requires i < |msgs| && k <= |msgs[i].buf|
    ensures |Sentence(msgs, i, k)| >= 3
  {
    hide StartWord, Upto;
  }

  // ---- A run that reports success too early ----

  /** Accepts and offers bytes for `n` reads of the status register, then reports the transfer done. */
  function EagerStatus(n: nat, k: nat): nat {
    if k < n then Or(Or(BIT(S_TXW), BIT(S_TXD)), Or(BIT(S_RXR), BIT(S_RXD))) else BIT(S_DONE)
  }

  function EagerHw(n: nat): Hw {
    Hw((k: nat) => EagerStatus(n, k), (k: nat) => 0)
  }

  /** Status reads spent on the first `k` messages. */
  function Reads(msgs: seq<Msg>, k: nat): nat
    requires k <= |msgs|
  {
    if k == 0 then 0 else Reads(msgs, k - 1) + 1 + |msgs[k - 1].buf|
  }

  lemma {:induction false} ReadsMonotone(msgs: seq<Msg>, i: nat, k: nat)
    requires i <= k <= |msgs|
    ensures Reads(msgs, i) <= Reads(msgs, k)
    decreases k
  {
    if i < k { ReadsMonotone(msgs, i, k - 1); }
  }

  lemma EagerBits(s: Dev, n: nat)
    ensures var val := StatusWord(EagerHw(n), s);
            && (s.statusReads < n ==>
                  && !Bit(val, S_DONE) && Bit(val, S_TXD)
                  && Bit(val, S_TXW) == !Bit(s.ctl, C_READ)
                  && Bit(val, S_RXR) == Bit(val, S_RXD) == Bit(s.ctl, C_READ))
            && (s.statusReads >= n ==> Bit(val, S_DONE) && !Bit(val, S_RXD))
            && And(val, Or(BIT(S_CLKT), BIT(S_ERR))) == 0
  {
    hide Bit, BIT, Or, And, AndNot;
    var val := StatusWord(EagerHw(n), s);
    ZeroBits();
    Extensional(And(val, Or(BIT(S_CLKT), BIT(S_ERR))), 0);
  }

  lemma {:induction false} EagerFill(s: Dev, n: nat)
    requires Ok(s) && !Bit(s.ctl, C_READ) && s.statusReads + s.remaining <= n
    ensures var r := Fill(EagerHw(n), s);
            && r.remaining == 0
            && r.statusReads == s.statusReads + s.remaining
            && r.cur == s.cur && r.numMsgs == s.numMsgs && r.completed == s.completed
            && r.ctl == s.ctl && r.msgs == s.msgs
    decreases s.remaining
  {
    hide Bit, StatusWord, EagerHw, And, Or, BIT;
    if s.remaining > 0 {
      EagerBits(s, n);
      EagerFill(PutByte(ReadStatus(s)), n);
    }
  }

  lemma {:induction false} EagerDrain(s: Dev, n: nat)
    requires Ok(s) && Bit(s.ctl, C_READ) && s.statusReads + s.remaining <= n
    ensures var r := Drain(EagerHw(n), s);
            && r.remaining == 0
            && r.statusReads == s.statusReads + s.remaining
            && r.cur == s.cur && r.numMsgs == s.numMsgs && r.completed == s.completed
            && r.ctl == s.ctl && Reading(r) == Reading(s)
    decreases s.remaining
  {
    hide Bit, StatusWord, EagerHw, StoreByte;
    if s.remaining > 0 {
      EagerBits(s, n);
      StoreByteFrame(EagerHw(n), ReadStatus(s));
      EagerDrain(StoreByte(EagerHw(n), ReadStatus(s)), n);
    }
  }

  lemma StoreByteFrame(hw: Hw, s: Dev)
    requires Ok(s) && s.remaining > 0
    ensures var r := StoreByte(hw, s);
            && r.remaining == s.remaining - 1 && r.statusReads == s.statusReads
            && r.cur == s.cur && r.numMsgs == s.numMsgs && r.completed == s.completed
            && r.ctl == s.ctl && |r.msgs| == |s.msgs| && Reading(r) == Reading(s)
  {}

  /** Message `i` has just been started on the eager hardware. */
  ghost predicate AtStart(msgs: seq<Msg>, pre: seq<Write>, nf: nat, s: Dev, r0: nat, i: nat, n: nat) {
    && i < |msgs|
    && Moving(EagerHw(n), msgs, pre, nf, s)
    && Ok(s) && s.cur == i && s.pos == 0 && !s.completed
    && s.statusReads == r0 + Reads(msgs, i)
  }

  lemma EagerStep(msgs: seq<Msg>, pre: seq<Write>, nf: nat, s: Dev, r0: nat, i: nat, n: nat)
    requires AtStart(msgs, pre, nf, s, r0, i, n) && i < |msgs| - 1
    requires !msgs[i].rd && |msgs[i].buf| > 0
    requires r0 + Reads(msgs, i + 1) <= n
    ensures AtStart(msgs, pre, nf, Isr(EagerHw(n), s), r0, i + 1, n)
  {
    hide Bit, Moving, Or, And, AndNot, BIT, StatusWord, Fill, Start, EagerHw;
    assert !Bit(s.ctl, C_READ) && s.remaining == |msgs[i].buf| && s.numMsgs > 0 && |s.msgs| == |msgs| by {
      MovingNow(msgs, pre, nf, s, n);
    }
    EagerBits(s, n);
    var s1 := ReadStatus(s);
    assert Moving(EagerHw(n), msgs, pre, nf, s1) by { MovingReads(msgs, pre, nf, s, n); }
    EagerFill(s1, n);
    FillMoves(EagerHw(n), msgs, pre, nf, s1);
    var f := Fill(EagerHw(n), s1);
    StartMoves(EagerHw(n), msgs, pre, nf, f);
    StartPosition(f.(cur := f.cur + 1));
  }

  lemma MovingNow(msgs: seq<Msg>, pre: seq<Write>, nf: nat, s: Dev, n: nat)
    requires Moving(EagerHw(n), msgs, pre, nf, s)
    ensures |s.msgs| == |msgs| && 0 <= s.cur < |msgs| && Bit(s.ctl, C_READ) == msgs[s.cur].rd
    ensures s.remaining == |msgs[s.cur].buf| - s.pos && s.numMsgs == |msgs| - 1 - s.cur
  {}

  lemma MovingReads(msgs: seq<Msg>, pre: seq<Write>, nf: nat, s: Dev, n: nat)
    requires Moving(EagerHw(n), msgs, pre, nf, s)
    ensures Moving(EagerHw(n), msgs, pre, nf, ReadStatus(s))
  {}

  lemma StartPosition(s: Dev)
    requires s.numMsgs > 0 && 0 <= s.cur && s.cur + s.numMsgs <= |s.msgs|
    ensures var r := Start(s);
            r.pos == 0 && r.cur == s.cur && r.statusReads == s.statusReads && r.completed == s.completed
  {
    hide StartWord, Bit;
  }

  /** From message `i` the eager hardware takes the driver to message `k`, one interrupt a message. */
  lemma {:induction false} EagerRun(msgs: seq<Msg>, pre: seq<Write>, nf: nat, s: Dev, r0: nat, i: nat, k: nat,
                                    n: nat, more: nat) returns (t: Dev)
    requires OnlyLastReads(msgs) && AtStart(msgs, pre, nf, s, r0, i, n) && i <= k < |msgs|
    requires forall j :: i <= j < k ==> |msgs[j].buf| > 0
    requires r0 + Reads(msgs, k) <= n
    ensures AtStart(msgs, pre, nf, t, r0, k, n)
    ensures Transfer(EagerHw(n), s, k - i + more) == Transfer(EagerHw(n), t, more)
    decreases k - i
  {
    hide AtStart, Isr, EagerHw;
    StartIsOk(msgs, pre, nf, s, r0, i, n);
    if i == k {
      t := s;
    } else {
      ReadsMonotone(msgs, i + 1, k);
      EagerStep(msgs, pre, nf, s, r0, i, n);
      var s1 := Isr(EagerHw(n), s);
      t := EagerRun(msgs, pre, nf, s1, r0, i + 1, k, n, more);
    }
  }

  lemma StartIsOk(msgs: seq<Msg>, pre: seq<Write>, nf: nat, s: Dev, r0: nat, i: nat, n: nat)
    requires AtStart(msgs, pre, nf, s, r0, i, n)
    ensures Ok(s) && !s.completed
  {}

  /** DONE with nothing left in the current write message is taken for success. */
  lemma DoneEnds(t: Dev, n: nat)
    requires Ok(t) && !t.completed && !Bit(t.ctl, C_READ)
    requires t.remaining == 0 && !Reading(t) && t.statusReads == n
    ensures Transfer(EagerHw(n), t, 1) == Finish(ReadStatus(t).(msgErr := 0))
  {
    hide Bit, Or, And, AndNot, BIT, StatusWord, Fill, Drain, Start, EagerHw, Finish;
    EagerBits(t, n);
    var hw := EagerHw(n);
    assert IsrBody(hw, t) == (ReadStatus(t).(msgErr := 0), Complete);
    var r := Isr(hw, t);
    assert Transfer(hw, t, 1) == Transfer(hw, r, 0);
  }

  lemma AtStartFacts(msgs: seq<Msg>, pre: seq<Write>, nf: nat, t: Dev, r0: nat, k: nat, n: nat)
    requires AtStart(msgs, pre, nf, t, r0, k, n)
    ensures Ok(t) && !t.completed && t.cur == k && t.remaining == |msgs[k].buf|
    ensures Reading(t) == msgs[k].rd == Bit(t.ctl, C_READ)
    ensures t.statusReads == r0 + Reads(msgs, k) && t.numMsgs == |msgs| - 1 - k
    ensures t.writes == pre + Sentence(msgs, k, 0)
  {
    hide Bit, Sentence, EagerHw;
  }

  /** At an empty message that is not the last, DONE is taken for success. */
  lemma EmptyMessageEnds(msgs: seq<Msg>, pre: seq<Write>, nf: nat, t: Dev, r0: nat, k: nat)
    requires OnlyLastReads(msgs) && k < |msgs| - 1 && |msgs[k].buf| == 0
    requires AtStart(msgs, pre, nf, t, r0, k, r0 + Reads(msgs, k))
    ensures var r := Transfer(EagerHw(r0 + Reads(msgs, k)), t, 1);
            && r.completed && r.msgErr == 0
            && r.writes == pre + Sentence(msgs, k, 0) + CLOSING
  {
    hide AtStart, Bit, Or, BIT, Sentence, EagerHw, Transfer;
    AtStartFacts(msgs, pre, nf, t, r0, k, r0 + Reads(msgs, k));
    DoneEnds(t, r0 + Reads(msgs, k));
    assert Finish(ReadStatus(t).(msgErr := 0)).writes == t.writes + CLOSING;
  }

  /** Success, whatever the hardware does, means that everything was moved. */
  ghost predicate Faithful(msgs: seq<Msg>, clk: nat, rate: nat)
    requires rate > 0
  {
    forall hw: Hw, s: Dev, irqs: nat ::
      Xfer(hw, s, msgs, clk, rate, irqs).1.Transferred? ==>
        AllMoved(hw, msgs, clk, rate, s, Xfer(hw, s, msgs, clk, rate, irqs).0)
  }

  lemma FirstEmpty(msgs: seq<Msg>, k: nat) returns (j: nat)
    requires k < |msgs| && |msgs[k].buf| == 0
    ensures j <= k && |msgs[j].buf| == 0
    ensures forall i :: 0 <= i < j ==> |msgs[i].buf| > 0
  {
    j := 0;
    while |msgs[j].buf| > 0
      invariant j <= k
      invariant forall i :: 0 <= i < j ==> |msgs[i].buf| > 0
      decreases k - j
    {
      j := j + 1;
    }
  }

  lemma BeginAtStart(s: Dev, msgs: seq<Msg>, clk: nat, rate: nat, n: nat)
    requires rate > 0 && |msgs| > 0
    ensures var b := Begin(s, msgs, clk, rate);
            AtStart(msgs, s.writes + DividerWrites(clk, rate), s.fifoReads, b, s.statusReads, 0, n)
  {
    hide Moving, Bit, Begin, EagerHw, DividerWrites;
    BeginMoves(EagerHw(n), msgs, s, clk, rate);
    BeginIsReady(s, msgs, clk, rate);
    BeginReads(s, msgs, clk, rate);
  }

  lemma XferSucceeds(hw: Hw, s: Dev, msgs: seq<Msg>, clk: nat, rate: nat, irqs: nat)
    requires rate > 0 && Divider(clk, rate).Some? && OnlyLastReads(msgs) && |msgs| > 0
    requires var t := Transfer(hw, Begin(s, msgs, clk, rate), irqs); t.completed && t.msgErr == 0
    ensures Xfer(hw, s, msgs, clk, rate, irqs) ==
              (Transfer(hw, Begin(s, msgs, clk, rate), irqs), Transferred(|msgs|))
  {
    hide Begin, Divider, Transfer;
  }

  /** The run that shows an empty message before the last to be lost. */
  lemma EmptyMessageIsLost(msgs: seq<Msg>, clk: nat, rate: nat, s: Dev, k: nat) returns (hw: Hw, irqs: nat)
    requires rate > 0 && Divider(clk, rate).Some? && OnlyLastReads(msgs)
    requires k < |msgs| - 1 && |msgs[k].buf| == 0
    ensures Xfer(hw, s, msgs, clk, rate, irqs).1 == Transferred(|msgs|)
    ensures !AllMoved(hw, msgs, clk, rate, s, Xfer(hw, s, msgs, clk, rate, irqs).0)
  {
    hide *;
    var j := FirstEmpty(msgs, k);
    var n := s.statusReads + Reads(msgs, j);
    hw := EagerHw(n);
    irqs := j + 1;
    var pre := s.writes + DividerWrites(clk, rate);
    var b := Begin(s, msgs, clk, rate);
    BeginAtStart(s, msgs, clk, rate, n);
    var t := EagerRun(msgs, pre, s.fifoReads, b, s.statusReads, 0, j, n, 1);
    StartIsOk(msgs, pre, s.fifoReads, t, s.statusReads, j, n);
    EmptyMessageEnds(msgs, pre, s.fifoReads, t, s.statusReads, j);
    XferSucceeds(hw, s, msgs, clk, rate, irqs);
    LostIsNotMoved(hw, msgs, clk, rate, s, Transfer(hw, b, irqs), j);
  }

  lemma BeginReads(s: Dev, msgs: seq<Msg>, clk: nat, rate: nat)
    requires rate > 0 && |msgs| > 0
    ensures Begin(s, msgs, clk, rate).statusReads == s.statusReads
  {
    hide StartWord, Bit, DividerWrites;
  }

  lemma LostIsNotMoved(hw: Hw, msgs: seq<Msg>, clk: nat, rate: nat, s: Dev, t: Dev, k: nat)
    requires rate > 0 && k < |msgs| - 1
    requires t.writes == s.writes + DividerWrites(clk, rate) + Sentence(msgs, k, 0) + CLOSING
    ensures !AllMoved(hw, msgs, clk, rate, s, t)
  {
    UptoGrows(msgs, k, |msgs|);
    hide StartWord, Bit, DividerWrites, Upto, CLOSING, Received, FifoBytes, WriteBuffers;
    assert Payload(msgs[k], 0) == [];
    assert |Sentence(msgs, k, 0)| == |Upto(msgs, k)| + 3;
  }

  /** The exact condition for the promise that success means every byte was moved. */
  lemma FaithfulIff(msgs: seq<Msg>, clk: nat, rate: nat)
    requires rate > 0
    ensures Faithful(msgs, clk, rate) <==>
              !OnlyLastReads(msgs) || Divider(clk, rate).None? || NonFinalNonempty(msgs)
  {
    hide Divider, AllMoved, Begin, Transfer;
    if NonFinalNonempty(msgs) {
      forall hw: Hw, s: Dev, irqs: nat | Xfer(hw, s, msgs, clk, rate, irqs).1.Transferred?
        ensures AllMoved(hw, msgs, clk, rate, s, Xfer(hw, s, msgs, clk, rate, irqs).0)
      {
        NoFalseSuccess(hw, s, msgs, clk, rate, irqs);
      }
    } else if OnlyLastReads(msgs) && Divider(clk, rate).Some? {
      var k: nat :| k < |msgs| - 1 && |msgs[k].buf| == 0;
      var s := Dev([], 0, 0, 0, 0, 0, false, 0, [], 0, 0, [], []);
      var hw, irqs := EmptyMessageIsLost(msgs, clk, rate, s, k);
    }
  }

  // ---- Success is within reach ----

  /** DONE with nothing left of the last message, be it a read or a write, is success. */
  lemma LastEnds(t: Dev, n: nat)
    requires Ok(t) && !t.completed && t.remaining == 0 && t.statusReads >= n
    ensures var r := Transfer(EagerHw(n), t, 1); r.completed && r.msgErr == 0
  {
    hide Bit, Or, And, AndNot, BIT, StatusWord, Fill, Start, EagerHw;
    var hw := EagerHw(n);
    EagerBits(t, n);
    EagerBits(ReadStatus(t), n);
    assert Drain(hw, ReadStatus(t)) == ReadStatus(t);
    var r := Isr(hw, t);
    assert Transfer(hw, t, 1) == Transfer(hw, r, 0);
  }

  /** One interrupt moves the whole of the last message. */
  lemma LastMoves(t: Dev, n: nat)
    requires Ok(t) && !t.completed && t.numMsgs == 0 && t.remaining > 0
    requires Reading(t) == Bit(t.ctl, C_READ) && t.statusReads + 1 + t.remaining <= n
    ensures var u := Isr(EagerHw(n), t);
            && Ok(u) && !u.completed && u.numMsgs == 0 && u.remaining == 0
            && u.statusReads == t.statusReads + 1 + t.remaining
  {
    hide Bit, Or, And, AndNot, BIT, StatusWord, Fill, Drain, Start, EagerHw;
    EagerBits(t, n);
    if Bit(t.ctl, C_READ) { EagerDrain(ReadStatus(t), n); } else { EagerFill(ReadStatus(t), n); }
  }

  /** From the start of the last message the eager hardware leads to success. */
  lemma LastSucceeds(t: Dev, n: nat)
    requires Ok(t) && !t.completed && t.numMsgs == 0 && Reading(t) == Bit(t.ctl, C_READ)
    requires n == t.statusReads + (if t.remaining > 0 then 1 + t.remaining else 0)
    ensures var r := Transfer(EagerHw(n), t, 2); r.completed && r.msgErr == 0
  {
    hide Isr, EagerHw, Bit;
    var hw := EagerHw(n);
    var u := Isr(hw, t);
    assert Transfer(hw, t, 2) == Transfer(hw, u, 1);
    if t.remaining > 0 {
      LastMoves(t, n);
      LastEnds(u, n);
    } else {
      LastEnds(t, n);
      assert Transfer(hw, t, 1) == Transfer(hw, u, 0) == u;
    }
  }

  lemma NoneEmptyBefore(msgs: seq<Msg>, k: nat)
    requires NonFinalNonempty(msgs) && k < |msgs|
    ensures forall j :: 0 <= j < k ==> |msgs[j].buf| > 0
  {}

  /** Every transfer that the driver accepts, and that has no empty message before the last, succeeds
      with some hardware: the promise that success is real is not kept by never reporting it. */
  lemma SuccessIsAttainable(msgs: seq<Msg>, clk: nat, rate: nat, s: Dev) returns (hw: Hw, irqs: nat)
    requires rate > 0 && Divider(clk, rate).Some? && OnlyLastReads(msgs) && NonFinalNonempty(msgs) && |msgs| > 0
    ensures Xfer(hw, s, msgs, clk, rate, irqs).1 == Transferred(|msgs|)
  {
    hide *;
    var k := |msgs| - 1;
    var n := s.statusReads + Reads(msgs, k) + (if |msgs[k].buf| > 0 then 1 + |msgs[k].buf| else 0);
    hw := EagerHw(n);
    irqs := k + 2;
    var pre := s.writes + DividerWrites(clk, rate);
    var b := Begin(s, msgs, clk, rate);
    BeginAtStart(s, msgs, clk, rate, n);
    NoneEmptyBefore(msgs, k);
    var t := EagerRun(msgs, pre, s.fifoReads, b, s.statusReads, 0, k, n, 2);
    AtStartFacts(msgs, pre, s.fifoReads, t, s.statusReads, k, n);
    LastSucceeds(t, n);
    XferSucceeds(hw, s, msgs, clk, rate, irqs);
  }
}
