/** What the I2C transition system guarantees over every run of the hardware. */
module I2cProofs {
  import opened Words
  import opened Mmio
  import opened I2cDivider
  import opened I2cSpec

  // ---- The bus grammar ----

  function StartWrites(msgs: seq<Msg>, i: nat): seq<Write>
    requires i < |msgs|
  {
    [Write(REG_A, msgs[i].addr), Write(REG_DLEN, |msgs[i].buf|),
     Write(REG_C, StartWord(msgs[i].rd, i == |msgs| - 1))]
  }

  function FifoWrites(buf: seq<nat>): seq<Write> {
    seq(|buf|, i requires 0 <= i < |buf| => Write(REG_FIFO, buf[i]))
  }

  /** The FIFO traffic of the first `k` bytes of a message. */
  function Payload(m: Msg, k: nat): seq<Write>
    requires k <= |m.buf|
  {
    if m.rd then [] else FifoWrites(m.buf[..k])
  }

  /** The writes of the first `k` messages, each one complete. */
  function Upto(msgs: seq<Msg>, k: nat): seq<Write>
    requires k <= |msgs|
  {
    if k == 0 then []
    else Upto(msgs, k - 1) + StartWrites(msgs, k - 1) + Payload(msgs[k - 1], |msgs[k - 1].buf|)
  }

  /** The sentence of the grammar that has been written when `k` bytes of message `i` have moved. */
  function Sentence(msgs: seq<Msg>, i: nat, k: nat): seq<Write>
    requires i < |msgs| && k <= |msgs[i].buf|
  {
    Upto(msgs, i) + StartWrites(msgs, i) + Payload(msgs[i], k)
  }

  predicate NonFinalNonempty(msgs: seq<Msg>) {
    forall i :: 0 <= i < |msgs| - 1 ==> |msgs[i].buf| > 0
  }

  // ---- The invariant ----

  /** What the read buffer holds after `k` bytes were read, the first being FIFO read `nf`. */
  ghost predicate Received(hw: Hw, now: seq<nat>, was: seq<nat>, nf: nat, k: nat) {
    && |now| == |was|
    && (forall i :: 0 <= i < |now| ==> now[i] == if i < k then hw.fifo(nf + i) % 0x100 else was[i])
  }

  /** Byte conservation, with `b` the state in which the transfer of `msgs` began and `pre` the
      writes before its first message: the buffers, counters and bus writes all agree that
      messages 0 .. cur-1 have moved entirely and `pos` bytes of message `cur` have. */
  ghost predicate Moving(hw: Hw, msgs: seq<Msg>, pre: seq<Write>, nf: nat, s: Dev) {
    && |s.msgs| == |msgs|
    && 0 <= s.cur < |msgs|
    && s.numMsgs == |msgs| - 1 - s.cur
    && s.pos + s.remaining == |msgs[s.cur].buf|
    && Bit(s.ctl, C_READ) == msgs[s.cur].rd
    && (forall i :: 0 <= i < |msgs| && i != s.cur ==> s.msgs[i] == msgs[i])
    && s.msgs[s.cur].(buf := msgs[s.cur].buf) == msgs[s.cur]
    && Received(hw, s.msgs[s.cur].buf, msgs[s.cur].buf, nf, if msgs[s.cur].rd then s.pos else 0)
    && s.fifoReads == nf + (if msgs[s.cur].rd then s.pos else 0)
    && s.writes == pre + Sentence(msgs, s.cur, s.pos)
  }

  /** Between interrupts of a transfer there is always something left to move, except on the last message. */
  ghost predicate Conserved(hw: Hw, msgs: seq<Msg>, pre: seq<Write>, nf: nat, s: Dev) {
    Moving(hw, msgs, pre, nf, s) && (s.numMsgs > 0 ==> s.remaining > 0)
  }

  lemma FifoWritesSnoc(buf: seq<nat>, k: nat)
    requires k < |buf|
    ensures FifoWrites(buf[..k + 1]) == FifoWrites(buf[..k]) + [Write(REG_FIFO, buf[k])]
  {}

  lemma StartWordRead(rd: bool, last: bool)
    ensures Bit(StartWord(rd, last), C_READ) == rd
    ensures Bit(StartWord(rd, last), C_INTD) == last
  {}

  /** What the control word that starts a message asks of the controller, bit by bit. */
  lemma StartWordBits(rd: bool, last: bool, b: nat)
    ensures Bit(StartWord(rd, last), b) <==>
              || b == C_ST || b == C_I2CEN
              || (rd && (b == C_READ || b == C_INTR))
              || (!rd && b == C_INTT)
              || (last && b == C_INTD)
  {
    hide Bit, Or, BIT;
  }

  lemma {:induction false} FillMoves(hw: Hw, msgs: seq<Msg>, pre: seq<Write>, nf: nat, s: Dev)
    requires Moving(hw, msgs, pre, nf, s) && !msgs[s.cur].rd && Ok(s)
    ensures Moving(hw, msgs, pre, nf, Fill(hw, s))
    ensures Fill(hw, s).cur == s.cur
    decreases s.remaining
  {
    hide AndNot, Or, BIT, Bit;
    if s.remaining > 0 && Bit(StatusWord(hw, s), S_TXD) {
      var s1 := PutByte(ReadStatus(s));
      FifoWritesSnoc(msgs[s.cur].buf, s.pos);
      assert s1.writes == pre + Sentence(msgs, s.cur, s.pos + 1);
      FillMoves(hw, msgs, pre, nf, s1);
    }
  }

  lemma {:induction false} DrainMoves(hw: Hw, msgs: seq<Msg>, pre: seq<Write>, nf: nat, s: Dev)
    requires Moving(hw, msgs, pre, nf, s) && msgs[s.cur].rd && Ok(s)
    ensures Moving(hw, msgs, pre, nf, Drain(hw, s))
    ensures Drain(hw, s).cur == s.cur
    decreases s.remaining
  {
    hide AndNot, Or, BIT, Bit;
    if s.remaining > 0 && Bit(StatusWord(hw, s), S_RXD) {
      DrainMoves(hw, msgs, pre, nf, StoreByte(hw, ReadStatus(s)));
    }
  }

  lemma StartMoves(hw: Hw, msgs: seq<Msg>, pre: seq<Write>, nf: nat, s: Dev)
    requires Moving(hw, msgs, pre, nf, s) && !msgs[s.cur].rd && Ok(s)
    requires s.numMsgs > 0 && s.remaining == 0
    ensures var r := Start(s.(cur := s.cur + 1));
            && Moving(hw, msgs, pre, nf, r)
            && r.cur == s.cur + 1
            && r.remaining == |msgs[r.cur].buf|
  {
    hide StartWord, Bit;
    var i := s.cur + 1;
    StartWordRead(msgs[i].rd, i == |msgs| - 1);
    var r := Start(s.(cur := i));
    assert msgs[s.cur].buf[..s.pos] == msgs[s.cur].buf;
    assert Payload(msgs[i], 0) == [];
    assert r.writes == s.writes + StartWrites(msgs, i);
    assert s.msgs[s.cur].buf == msgs[s.cur].buf;
  }

  lemma BeginMoves(hw: Hw, msgs: seq<Msg>, s: Dev, clk: nat, rate: nat)
    requires rate > 0 && |msgs| > 0
    ensures Moving(hw, msgs, s.writes + DividerWrites(clk, rate), s.fifoReads, Begin(s, msgs, clk, rate))
    ensures !Begin(s, msgs, clk, rate).completed
  {
    hide StartWord, Bit, Divider, Del;
    StartWordRead(msgs[0].rd, 0 == |msgs| - 1);
    assert Payload(msgs[0], 0) == [];
    assert Sentence(msgs, 0, 0) == StartWrites(msgs, 0);
  }

  /** The state at the `complete` label: success there means that nothing is left. */
  ghost predicate Stopped(hw: Hw, msgs: seq<Msg>, pre: seq<Write>, nf: nat, s: Dev) {
    && Moving(hw, msgs, pre, nf, s)
    && (s.msgErr == 0 ==>
          && s.remaining == 0
          && s.numMsgs == 0
          && (msgs[s.cur].rd ==> s.statusReads > 0 && !Bit(hw.status(s.statusReads - 1), S_RXD)))
  }

  lemma NonzeroByBit(w: nat, i: nat)
    requires Bit(w, i)
    ensures w != 0
  {
    ZeroBits();
  }

  /** One interrupt: either the invariant holds again or the transfer has stopped as it should. */
  lemma IsrKeeps(hw: Hw, msgs: seq<Msg>, pre: seq<Write>, nf: nat, s: Dev)
    requires OnlyLastReads(msgs) && NonFinalNonempty(msgs)
    requires Conserved(hw, msgs, pre, nf, s) && Ok(s)
    ensures var (r, outcome) := IsrBody(hw, s);
            if outcome == Complete then Stopped(hw, msgs, pre, nf, r) else Conserved(hw, msgs, pre, nf, r)
  {
    hide AndNot, And, Or, BIT, Bit, Fill, Drain, Start, Sentence, Received;
    var val := StatusWord(hw, s);
    var s1 := ReadStatus(s);
    NonzeroByBit(BIT(S_LEN), S_LEN);
    NonzeroByBit(Or(val, BIT(S_LEN)), S_LEN);
    if And(val, Or(BIT(S_CLKT), BIT(S_ERR))) != 0 {
    } else if Bit(val, S_DONE) {
      if msgs[s.cur].rd {
        DrainMoves(hw, msgs, pre, nf, s1);
        var d := Drain(hw, s1);
        assert Bit(StatusWord(hw, d), S_RXD) == Bit(hw.status(d.statusReads), S_RXD);
      }
    } else if Bit(val, S_TXW) {
      assert !Bit(s.ctl, C_READ);
      if s1.remaining > 0 {
        FillMoves(hw, msgs, pre, nf, s1);
        var f := Fill(hw, s1);
        if f.numMsgs > 0 && f.remaining == 0 { StartMoves(hw, msgs, pre, nf, f); }
      }
    } else if Bit(val, S_RXR) {
      assert Bit(s.ctl, C_READ);
      if s1.remaining > 0 { DrainMoves(hw, msgs, pre, nf, s1); }
    }
  }

  lemma IsrRuns(hw: Hw, s: Dev)
    requires Ok(s) && !s.completed
    ensures IsrBody(hw, s).0.completed == false
  {
    hide AndNot, And, Or, BIT, Bit;
    FillRuns(hw, ReadStatus(s));
    DrainRuns(hw, ReadStatus(s));
  }

  lemma {:induction false} FillRuns(hw: Hw, s: Dev)
    requires Ok(s)
    ensures Fill(hw, s).completed == s.completed
    decreases s.remaining
  {
    hide AndNot, Or, BIT, Bit;
    if s.remaining > 0 && Bit(StatusWord(hw, s), S_TXD) {
      FillRuns(hw, PutByte(ReadStatus(s)));
    }
  }

  lemma {:induction false} DrainRuns(hw: Hw, s: Dev)
    requires Ok(s)
    ensures Drain(hw, s).completed == s.completed
    decreases s.remaining
  {
    hide AndNot, Or, BIT, Bit;
    if s.remaining > 0 && Bit(StatusWord(hw, s), S_RXD) {
      DrainRuns(hw, StoreByte(hw, ReadStatus(s)));
    }
  }

  /** `s` is a stopped transfer after the closing writes. */
  ghost predicate Closed(hw: Hw, msgs: seq<Msg>, pre: seq<Write>, nf: nat, s: Dev) {
    exists t: Dev :: Stopped(hw, msgs, pre, nf, t) && s == Finish(t)
  }

  /** The first interrupt of a run: the transfer goes on after it, or has ended. */
  lemma FirstInterrupt(hw: Hw, s: Dev, n: nat)
    requires Ok(s) && !s.completed && n > 0
    ensures var (t, outcome) := IsrBody(hw, s);
            Transfer(hw, s, n) == if outcome == Complete then Finish(t) else Transfer(hw, t, n - 1)
    ensures !IsrBody(hw, s).0.completed && Finish(IsrBody(hw, s).0).completed
  {
    hide IsrBody, BIT, Or;
    IsrRuns(hw, s);
    var (t, outcome) := IsrBody(hw, s);
    if outcome == Complete {
      var r := Isr(hw, s);
      assert r == Finish(t) && r.completed;
      assert Transfer(hw, r, n - 1) == r;
    }
  }

  /** Every run of interrupts: conservation at every boundary until the transfer completes. */
  lemma {:induction false} TransferKeeps(hw: Hw, msgs: seq<Msg>, pre: seq<Write>, nf: nat, s: Dev, n: nat)
    requires OnlyLastReads(msgs) && NonFinalNonempty(msgs)
    requires Conserved(hw, msgs, pre, nf, s) && Ok(s) && !s.completed
    ensures var r := Transfer(hw, s, n);
            if r.completed then Closed(hw, msgs, pre, nf, r) else Conserved(hw, msgs, pre, nf, r)
    decreases n
  {
    hide IsrBody, Conserved, Stopped, Finish;
    if n > 0 {
      IsrKeeps(hw, msgs, pre, nf, s);
      FirstInterrupt(hw, s, n);
      hide Transfer;
      var (t, outcome) := IsrBody(hw, s);
      if outcome != Complete { TransferKeeps(hw, msgs, pre, nf, t, n - 1); }
    }
  }

  // ---- No false success ----

  /** The bytes that a sequence of register writes puts into the FIFO. */
  function FifoBytes(ws: seq<Write>): seq<nat> {
    if ws == [] then [] else FifoByte(ws[0]) + FifoBytes(ws[1..])
  }

  function FifoByte(w: Write): seq<nat> {
    if w.reg == REG_FIFO then [w.val] else []
  }

  /** The write buffers of the first `k` messages, in order. */
  function WriteBuffers(msgs: seq<Msg>, k: nat): seq<nat>
    requires k <= |msgs|
  {
    if k == 0 then [] else WriteBuffers(msgs, k - 1) + (if msgs[k - 1].rd then [] else msgs[k - 1].buf)
  }

  lemma FifoBytesStep(a: seq<Write>, b: seq<Write>)
    requires a != [] && FifoBytes(a[1..] + b) == FifoBytes(a[1..]) + FifoBytes(b)
    ensures FifoBytes(a + b) == FifoBytes(a) + FifoBytes(b)
  {
    hide FifoBytes, FifoByte;
    FifoBytesCons(a);
    FifoBytesCons(a + b);
    assert (a + b)[1..] == a[1..] + b;
  }

  lemma FifoBytesCons(ws: seq<Write>)
    requires ws != []
    ensures FifoBytes(ws) == FifoByte(ws[0]) + FifoBytes(ws[1..])
  {
    hide FifoByte;
  }

  lemma {:induction false} FifoBytesConcat(a: seq<Write>, b: seq<Write>)
    ensures FifoBytes(a + b) == FifoBytes(a) + FifoBytes(b)
  {
    if a == [] {
      assert a + b == b;
    } else {
      FifoBytesConcat(a[1..], b);
      FifoBytesStep(a, b);
    }
  }

  lemma {:induction false} FifoBytesOfPayload(buf: seq<nat>)
    ensures FifoBytes(FifoWrites(buf)) == buf
  {
    if buf != [] {
      assert FifoWrites(buf)[1..] == FifoWrites(buf[1..]);
      FifoBytesOfPayload(buf[1..]);
    }
  }

  lemma FifoBytesOfMessage(m: Msg)
    ensures FifoBytes(Payload(m, |m.buf|)) == if m.rd then [] else m.buf
  {
    assert m.buf[..|m.buf|] == m.buf;
    FifoBytesOfPayload(m.buf);
  }

  lemma {:induction false} FifoBytesOfUpto(msgs: seq<Msg>, k: nat)
    requires k <= |msgs|
    ensures FifoBytes(Upto(msgs, k)) == WriteBuffers(msgs, k)
  {
    hide FifoBytes, Payload, StartWord;
    if k == 0 {
      NoFifoBytes([]);
    } else {
      var m := msgs[k - 1];
      FifoBytesOfUpto(msgs, k - 1);
      FifoBytesConcat(Upto(msgs, k - 1) + StartWrites(msgs, k - 1), Payload(m, |m.buf|));
      FifoBytesConcat(Upto(msgs, k - 1), StartWrites(msgs, k - 1));
      NoFifoBytes(StartWrites(msgs, k - 1));
      FifoBytesOfMessage(m);
    }
  }

  lemma {:induction false} NoFifoBytes(ws: seq<Write>)
    requires forall i :: 0 <= i < |ws| ==> ws[i].reg != REG_FIFO
    ensures FifoBytes(ws) == []
  {
    if ws != [] { NoFifoBytes(ws[1..]); }
  }

  /** Every message was started, in order, and every write byte followed its own start. */
  ghost predicate WroteAll(msgs: seq<Msg>, clk: nat, rate: nat, s: Dev, t: Dev)
    requires rate > 0
  {
    && t.writes == s.writes + (DividerWrites(clk, rate) + Upto(msgs, |msgs|) + CLOSING)
    && FifoBytes(t.writes[|s.writes|..]) == WriteBuffers(msgs, |msgs|)
  }

  /** A final read filled its buffer with the bytes read from the FIFO; no other message changed. */
  ghost predicate Filled(hw: Hw, msgs: seq<Msg>, nf: nat, t: Dev) {
    && |t.msgs| == |msgs|
    && (forall i :: 0 <= i < |msgs| && !msgs[i].rd ==> t.msgs[i] == msgs[i])
    && (forall i :: 0 <= i < |msgs| && msgs[i].rd ==>
          && t.msgs[i].(buf := msgs[i].buf) == msgs[i]
          && Received(hw, t.msgs[i].buf, msgs[i].buf, nf, |msgs[i].buf|)
          && t.fifoReads == nf + |msgs[i].buf|)
  }

  /** And none of the bytes that were read is left in the FIFO. */
  ghost predicate ReadAll(hw: Hw, msgs: seq<Msg>, nf: nat, t: Dev) {
    && Filled(hw, msgs, nf, t)
    && (forall i :: 0 <= i < |msgs| && msgs[i].rd ==>
          t.statusReads > 0 && !Bit(hw.status(t.statusReads - 1), S_RXD))
  }

  /** Every byte that `msgs` asks for has moved between states `s` and `t`. */
  ghost predicate FullyMoved(hw: Hw, msgs: seq<Msg>, clk: nat, rate: nat, s: Dev, t: Dev)
    requires rate > 0
  {
    WroteAll(msgs, clk, rate, s, t) && Filled(hw, msgs, s.fifoReads, t)
  }

  /** Everything `msgs` asked for has happened between states `s` and `t`. */
  ghost predicate AllMoved(hw: Hw, msgs: seq<Msg>, clk: nat, rate: nat, s: Dev, t: Dev)
    requires rate > 0
  {
    WroteAll(msgs, clk, rate, s, t) && ReadAll(hw, msgs, s.fifoReads, t)
  }

  lemma FifoBytesSilentEnds(a: seq<Write>, b: seq<Write>, c: seq<Write>)
    requires FifoBytes(a) == [] && FifoBytes(c) == []
    ensures FifoBytes(a + b + c) == FifoBytes(b)
  {
    hide FifoBytes;
    FifoBytesConcat(a + b, c);
    FifoBytesConcat(a, b);
  }

  lemma SilentEnds(clk: nat, rate: nat)
    requires rate > 0
    ensures FifoBytes(DividerWrites(clk, rate)) == [] && FifoBytes(CLOSING) == []
  {
    hide Divider, Del, Or, BIT, FifoBytes;
    NoFifoBytes(CLOSING);
    NoFifoBytes(DividerWrites(clk, rate));
  }

  lemma FifoBytesOfTransfer(msgs: seq<Msg>, clk: nat, rate: nat)
    requires rate > 0
    ensures FifoBytes(DividerWrites(clk, rate) + Upto(msgs, |msgs|) + CLOSING) == WriteBuffers(msgs, |msgs|)
  {
    hide *;
    SilentEnds(clk, rate);
    FifoBytesOfUpto(msgs, |msgs|);
    FifoBytesSilentEnds(DividerWrites(clk, rate), Upto(msgs, |msgs|), CLOSING);
  }

  /** Nothing is left of the last message. */
  predicate AllDone(s: Dev) {
    s.numMsgs == 0 && s.remaining == 0
  }

  /** A transfer with nothing left has written the whole grammar. */
  lemma DoneWroteAll(hw: Hw, msgs: seq<Msg>, pre: seq<Write>, nf: nat, u: Dev)
    requires |msgs| > 0 && Moving(hw, msgs, pre, nf, u) && AllDone(u)
    ensures u.writes == pre + Upto(msgs, |msgs|)
  {
    hide Bit, Received, Sentence, Upto;
    WholeMessage(msgs, u.cur);
  }

  lemma WholeMessage(msgs: seq<Msg>, i: nat)
    requires i < |msgs|
    ensures Upto(msgs, i + 1) == Sentence(msgs, i, |msgs[i].buf|)
  {
    hide StartWrites, Payload;
  }

  lemma DoneFilled(hw: Hw, msgs: seq<Msg>, pre: seq<Write>, nf: nat, u: Dev)
    requires |msgs| > 0 && OnlyLastReads(msgs) && Moving(hw, msgs, pre, nf, u) && AllDone(u)
    ensures Filled(hw, msgs, nf, Finish(u))
  {
    hide Sentence, Bit, BIT, Or;
    assert u.cur == |msgs| - 1;
    forall i | 0 <= i < |msgs| && !msgs[i].rd ensures u.msgs[i] == msgs[i] {
      if i == u.cur { assert u.msgs[i].buf == msgs[i].buf; }
    }
  }

  /** A transfer with nothing left has moved everything. */
  lemma DoneMoved(hw: Hw, msgs: seq<Msg>, clk: nat, rate: nat, s: Dev, u: Dev)
    requires rate > 0 && |msgs| > 0 && OnlyLastReads(msgs) && AllDone(u)
    requires Moving(hw, msgs, s.writes + DividerWrites(clk, rate), s.fifoReads, u)
    ensures FullyMoved(hw, msgs, clk, rate, s, Finish(u))
  {
    hide Moving, DividerWrites, Upto, CLOSING, Finish, FifoBytes, WriteBuffers, Filled, AllDone, OnlyLastReads;
    var pre := s.writes + DividerWrites(clk, rate);
    DoneWroteAll(hw, msgs, pre, s.fifoReads, u);
    DoneFilled(hw, msgs, pre, s.fifoReads, u);
    FinishWrites(u);
    FifoBytesOfTransfer(msgs, clk, rate);
    SplitSuffix(s.writes, DividerWrites(clk, rate), Upto(msgs, |msgs|), CLOSING, Finish(u).writes);
  }

  lemma FinishWrites(u: Dev)
    ensures Finish(u).writes == u.writes + CLOSING
  {
    hide Or, BIT;
  }

  lemma SuccessMovedAll(hw: Hw, msgs: seq<Msg>, clk: nat, rate: nat, s: Dev, t: Dev)
    requires rate > 0 && |msgs| > 0 && OnlyLastReads(msgs)
    requires Closed(hw, msgs, s.writes + DividerWrites(clk, rate), s.fifoReads, t) && t.msgErr == 0
    ensures AllMoved(hw, msgs, clk, rate, s, t)
  {
    hide Or, BIT, Bit, DividerWrites, Upto, FifoBytes, WriteBuffers, Sentence, Received, WroteAll, Filled;
    var pre := s.writes + DividerWrites(clk, rate);
    var u: Dev :| Stopped(hw, msgs, pre, s.fifoReads, u) && t == Finish(u);
    DoneMoved(hw, msgs, clk, rate, s, u);
    assert u.cur == |msgs| - 1;
  }

  lemma SplitSuffix<T>(a: seq<T>, b: seq<T>, c: seq<T>, d: seq<T>, whole: seq<T>)
    requires whole == a + b + c + d
    ensures whole == a + (b + c + d) && whole[|a|..] == b + c + d
  {}

  /** No false success, for any hardware and any number of interrupts before the timeout. */
  lemma NoFalseSuccess(hw: Hw, s: Dev, msgs: seq<Msg>, clk: nat, rate: nat, irqs: nat)
    requires rate > 0 && NonFinalNonempty(msgs)
    ensures var (t, ret) := Xfer(hw, s, msgs, clk, rate, irqs);
            ret.Transferred? ==> ret.n == |msgs| && AllMoved(hw, msgs, clk, rate, s, t)
  {
    hide Begin, Transfer, AllMoved, Moving, Stopped, Divider, Closed, Bit;
    if |msgs| == 0 {
      assert !Begin(s, msgs, clk, rate).completed by { EmptyNeverCompletes(s, clk, rate); }
    } else if Xfer(hw, s, msgs, clk, rate, irqs).1.Transferred? {
      var b := Begin(s, msgs, clk, rate);
      BeginMoves(hw, msgs, s, clk, rate);
      BeginIsReady(s, msgs, clk, rate);
      var pre := s.writes + DividerWrites(clk, rate);
      TransferKeeps(hw, msgs, pre, s.fifoReads, b, irqs);
      SuccessMovedAll(hw, msgs, clk, rate, s, Transfer(hw, b, irqs));
    }
  }

  lemma EmptyNeverCompletes(s: Dev, clk: nat, rate: nat)
    requires rate > 0
    ensures !Begin(s, [], clk, rate).completed
  {}

  lemma BeginIsReady(s: Dev, msgs: seq<Msg>, clk: nat, rate: nat)
    requires rate > 0 && |msgs| > 0
    ensures var b := Begin(s, msgs, clk, rate);
            b.numMsgs == |msgs| - 1 && b.remaining == |msgs[0].buf| && b.cur == 0 && b.pos == 0
  {}

  // ---- Errors ----

  /** An error that the status reports at an interrupt ends the transfer at once, with that error and
      without another byte moved; no other interrupt reports an error of the controller. */
  lemma ErrorReported(hw: Hw, s: Dev)
    requires Ok(s)
    ensures var (r, outcome) := IsrBody(hw, s);
            var st := hw.status(s.statusReads);
            if Bit(st, S_ERR) || Bit(st, S_CLKT) then
              && outcome == Complete && r.msgErr != 0
              && Bit(r.msgErr, S_ERR) == Bit(st, S_ERR) && Bit(r.msgErr, S_CLKT) == Bit(st, S_CLKT)
              && r == ReadStatus(s).(msgErr := r.msgErr)
            else outcome == Complete ==> !Bit(r.msgErr, S_ERR) && !Bit(r.msgErr, S_CLKT)
  {
    hide AndNot, And, Or, BIT, Bit, Fill, Drain, Start;
    var val := StatusWord(hw, s);
    var err := And(val, Or(BIT(S_CLKT), BIT(S_ERR)));
    assert forall b: nat :: b == S_ERR || b == S_CLKT ==> Bit(val, b) == Bit(hw.status(s.statusReads), b);
    ZeroBits();
    if Bit(val, S_ERR) {
      NonzeroByBit(err, S_ERR);
    } else if Bit(val, S_CLKT) {
      NonzeroByBit(err, S_CLKT);
    } else {
      Extensional(err, 0);
    }
  }

  // ---- The trace of every transfer, successful or not ----

  /** Reading the status moves nothing, and the controller reads exactly while the message is a read. */
  lemma ReadingNow(hw: Hw, msgs: seq<Msg>, pre: seq<Write>, nf: nat, s: Dev)
    requires Moving(hw, msgs, pre, nf, s) && Ok(s)
    ensures Reading(s) == msgs[s.cur].rd == Bit(s.ctl, C_READ)
    ensures Moving(hw, msgs, pre, nf, ReadStatus(s)) && Ok(ReadStatus(s))
    ensures 0 <= s.cur < |msgs| && ReadStatus(s).cur == s.cur
  {
    hide Bit, Sentence, Received;
  }

  lemma AdvanceMoves(hw: Hw, msgs: seq<Msg>, pre: seq<Write>, nf: nat, s: Dev)
    requires Moving(hw, msgs, pre, nf, s) && !msgs[s.cur].rd && Ok(s)
    ensures Moving(hw, msgs, pre, nf, Advance(s))
  {
    hide Moving, Start;
    if s.numMsgs > 0 && s.remaining == 0 { StartMoves(hw, msgs, pre, nf, s); }
  }

  /** The error word is no part of what has moved. */
  lemma ErrorMovesNothing(hw: Hw, msgs: seq<Msg>, pre: seq<Write>, nf: nat, s: Dev, r: Dev)
    requires Moving(hw, msgs, pre, nf, s) && r == s.(msgErr := r.msgErr)
    ensures Moving(hw, msgs, pre, nf, r)
  {
    hide Bit, Sentence, Received;
  }

  /** Whatever an interrupt finds, what has moved, what is left and what was written agree afterwards. */
  lemma IsrMoves(hw: Hw, msgs: seq<Msg>, pre: seq<Write>, nf: nat, s: Dev)
    requires OnlyLastReads(msgs) && Moving(hw, msgs, pre, nf, s) && Ok(s)
    ensures Moving(hw, msgs, pre, nf, IsrBody(hw, s).0)
  {
    hide *;
    ReadingNow(hw, msgs, pre, nf, s);
    var u := s;
    if Reading(s) {
      DrainMoves(hw, msgs, pre, nf, ReadStatus(s));
      ReadingNow(hw, msgs, pre, nf, Drain(hw, ReadStatus(s)));
      u := IsrOfRead(hw, s);
    } else {
      FillMoves(hw, msgs, pre, nf, ReadStatus(s));
      AdvanceMoves(hw, msgs, pre, nf, Fill(hw, ReadStatus(s)));
      u := IsrOfWrite(hw, s);
    }
    ErrorMovesNothing(hw, msgs, pre, nf, u, IsrBody(hw, s).0);
  }

  /** What an interrupt of a read can lead to, apart from the error word. */
  lemma IsrOfRead(hw: Hw, s: Dev) returns (u: Dev)
    requires Ok(s) && Reading(s) && Bit(s.ctl, C_READ)
    ensures u in {ReadStatus(s), Drain(hw, ReadStatus(s)), ReadStatus(Drain(hw, ReadStatus(s)))}
    ensures var r := IsrBody(hw, s).0; r == u.(msgErr := r.msgErr)
  {
    hide AndNot, And, Or, BIT, Bit, Fill, Drain, Advance;
    var val, s1 := StatusWord(hw, s), ReadStatus(s);
    u := if And(val, Or(BIT(S_CLKT), BIT(S_ERR))) != 0 then s1
         else if Bit(val, S_DONE) then ReadStatus(Drain(hw, s1))
         else if Bit(val, S_RXR) && s.remaining > 0 then Drain(hw, s1) else s1;
  }

  /** What an interrupt of a write can lead to, apart from the error word. */
  lemma IsrOfWrite(hw: Hw, s: Dev) returns (u: Dev)
    requires Ok(s) && !Reading(s) && !Bit(s.ctl, C_READ)
    ensures u in {ReadStatus(s), Advance(Fill(hw, ReadStatus(s)))}
    ensures s.remaining == 0 ==> u == ReadStatus(s)
    ensures var r := IsrBody(hw, s).0; r == u.(msgErr := r.msgErr)
  {
    hide AndNot, And, Or, BIT, Bit, Fill, Drain, Advance;
    u := if IsrBody(hw, s).1 == Handled then Advance(Fill(hw, ReadStatus(s))) else ReadStatus(s);
  }

  /** `s` is a transfer that has completed, whether with an error or without. */
  ghost predicate Ended(hw: Hw, msgs: seq<Msg>, pre: seq<Write>, nf: nat, s: Dev) {
    exists t: Dev :: Moving(hw, msgs, pre, nf, t) && s == Finish(t)
  }

  lemma {:induction false} TransferMoves(hw: Hw, msgs: seq<Msg>, pre: seq<Write>, nf: nat, s: Dev, n: nat)
    requires OnlyLastReads(msgs) && Moving(hw, msgs, pre, nf, s) && Ok(s) && !s.completed
    ensures var r := Transfer(hw, s, n);
            if r.completed then Ended(hw, msgs, pre, nf, r) else Moving(hw, msgs, pre, nf, r)
    decreases n
  {
    hide IsrBody, Moving, Finish;
    if n > 0 {
      IsrMoves(hw, msgs, pre, nf, s);
      FirstInterrupt(hw, s, n);
      hide Transfer;
      var (t, outcome) := IsrBody(hw, s);
      if outcome != Complete { TransferMoves(hw, msgs, pre, nf, t, n - 1); }
    }
  }

  /** `ws` is a beginning of the bus sentence of `msgs`, cut after some byte of some message. */
  ghost predicate Grammatical(msgs: seq<Msg>, ws: seq<Write>) {
    exists i: nat, k: nat :: i < |msgs| && k <= |msgs[i].buf| && ws == Sentence(msgs, i, k)
  }

  /** Every transfer, however it ends: a refused one writes nothing, any other one writes the
      divider, a beginning of the bus sentence of its messages and the stop of the controller. */
  lemma XferGrammar(hw: Hw, s: Dev, msgs: seq<Msg>, clk: nat, rate: nat, irqs: nat) returns (ws: seq<Write>)
    requires rate > 0 && |msgs| > 0
    ensures var (t, ret) := Xfer(hw, s, msgs, clk, rate, irqs);
            if !OnlyLastReads(msgs) || Divider(clk, rate).None? then t == s
            else
              && Grammatical(msgs, ws)
              && t.writes == s.writes + DividerWrites(clk, rate) + ws
                             + (if ret == ETimedOut then [Write(REG_C, BIT(C_CLEAR))] else CLOSING)
  {
    hide *;
    ws := [];
    XferStops(hw, s, msgs, clk, rate, irqs);
    if OnlyLastReads(msgs) && Divider(clk, rate).Some? {
      var pre := s.writes + DividerWrites(clk, rate);
      BeginMoves(hw, msgs, s, clk, rate);
      TransferMoves(hw, msgs, pre, s.fifoReads, Begin(s, msgs, clk, rate), irqs);
      var u := Transfer(hw, Begin(s, msgs, clk, rate), irqs);
      if u.completed { u := BeforeClosing(hw, msgs, pre, s.fifoReads, u); }
      ws := MovingTrace(hw, msgs, pre, s.fifoReads, u);
    }
  }

  /** A refused transfer changes nothing; a timeout stops the controller. */
  lemma XferStops(hw: Hw, s: Dev, msgs: seq<Msg>, clk: nat, rate: nat, irqs: nat)
    requires rate > 0 && |msgs| > 0
    ensures var (t, ret) := Xfer(hw, s, msgs, clk, rate, irqs);
            if !OnlyLastReads(msgs) || Divider(clk, rate).None? then t == s
            else
              var u := Transfer(hw, Begin(s, msgs, clk, rate), irqs);
              && (ret == ETimedOut <==> !u.completed)
              && t.writes == u.writes + (if u.completed then [] else [Write(REG_C, BIT(C_CLEAR))])
  {
    hide Begin, Transfer, Divider, Bit, Or, BIT, OnlyLastReads;
  }

  lemma BeforeClosing(hw: Hw, msgs: seq<Msg>, pre: seq<Write>, nf: nat, r: Dev) returns (u: Dev)
    requires Ended(hw, msgs, pre, nf, r)
    ensures Moving(hw, msgs, pre, nf, u) && r.writes == u.writes + CLOSING
  {
    hide Moving, Or, BIT;
    u :| Moving(hw, msgs, pre, nf, u) && r == Finish(u);
  }

  lemma MovingTrace(hw: Hw, msgs: seq<Msg>, pre: seq<Write>, nf: nat, s: Dev) returns (ws: seq<Write>)
    requires Moving(hw, msgs, pre, nf, s)
    ensures Grammatical(msgs, ws) && s.writes == pre + ws
  {
    hide Bit, Received, Sentence;
    ws := Sentence(msgs, s.cur, s.pos);
  }
}
