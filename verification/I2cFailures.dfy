/** The converse of a real success: when a transfer that has moved every byte is reported as a failure. */
module I2cFailures {
  import opened Words
  import opened Mmio
  import opened I2cDivider
  import opened I2cSpec
  import opened I2cProofs
  import opened I2cLimits

  /** What the handler takes for a failure when it is entered in `s` and leaves `r`: an error in the
      status, no DONE in it, or a byte that is still in the FIFO after a read was drained. */
  ghost predicate Blamed(hw: Hw, s: Dev, r: Dev)
    requires Ok(s)
  {
    var st := hw.status(s.statusReads);
    || Bit(st, S_ERR) || Bit(st, S_CLKT) || !Bit(st, S_DONE)
    || (Reading(s) && r.statusReads > 0 && Bit(hw.status(r.statusReads - 1), S_RXD))
  }

  // ---- The last interrupt ----

  lemma StatusBits(hw: Hw, s: Dev)
    ensures var val, st := StatusWord(hw, s), hw.status(s.statusReads);
            && Bit(val, S_DONE) == Bit(st, S_DONE)
            && Bit(val, S_RXD) == (Bit(st, S_RXD) && Bit(s.ctl, C_READ))
            && (And(val, Or(BIT(S_CLKT), BIT(S_ERR))) != 0 <==> Bit(st, S_ERR) || Bit(st, S_CLKT))
  {
    hide Bit, BIT, Or, And, AndNot;
    var val := StatusWord(hw, s);
    var err := And(val, Or(BIT(S_CLKT), BIT(S_ERR)));
    ZeroBits();
    if Bit(val, S_ERR) {
      NonzeroByBit(err, S_ERR);
    } else if Bit(val, S_CLKT) {
      NonzeroByBit(err, S_CLKT);
    } else {
      Extensional(err, 0);
    }
  }

  /** DONE without an error: what the handler leaves, and that it blames only what the FIFO holds. */
  lemma DoneOutcome(hw: Hw, s: Dev)
    requires Ok(s) && Bit(StatusWord(hw, s), S_DONE)
    requires And(StatusWord(hw, s), Or(BIT(S_CLKT), BIT(S_ERR))) == 0
    ensures var d := if Reading(s) then Drain(hw, ReadStatus(s)) else s;
            var r := IsrBody(hw, s).0;
            && r == ReadStatus(d).(msgErr := r.msgErr)
            && (r.remaining == 0 ==> (r.msgErr != 0 <==> Bit(StatusWord(hw, d), S_RXD)))
  {
    NonzeroByBit(BIT(S_LEN), S_LEN);
    hide AndNot, And, Or, BIT, Bit, Fill, Drain, Start, StatusWord;
  }

  /** Without DONE, or with an error, the handler stops a transfer only to report a failure. */
  lemma OtherOutcome(hw: Hw, s: Dev)
    requires Ok(s) && IsrBody(hw, s).1 == Complete
    requires !Bit(StatusWord(hw, s), S_DONE) || And(StatusWord(hw, s), Or(BIT(S_CLKT), BIT(S_ERR))) != 0
    ensures IsrBody(hw, s).0.msgErr != 0
  {
    hide AndNot, And, Or, BIT, Bit, Fill, Drain, Advance, StatusWord;
    NonzeroByBit(Or(StatusWord(hw, s), BIT(S_LEN)), S_LEN) by { hide *; }
  }

  /** When the handler stops a transfer that has nothing left to move, it reports a failure exactly when
      it has one of its three reasons. */
  lemma FailureIffBlamed(hw: Hw, msgs: seq<Msg>, pre: seq<Write>, nf: nat, s: Dev)
    requires Moving(hw, msgs, pre, nf, s) && Ok(s)
    requires IsrBody(hw, s).1 == Complete && IsrBody(hw, s).0.remaining == 0
    ensures IsrBody(hw, s).0.msgErr != 0 <==> Blamed(hw, s, IsrBody(hw, s).0)
  {
    hide *;
    StatusBits(hw, s);
    ReadingNow(hw, msgs, pre, nf, s);
    BlamedCases(hw, s, IsrBody(hw, s).0);
    if And(StatusWord(hw, s), Or(BIT(S_CLKT), BIT(S_ERR))) == 0 && Bit(StatusWord(hw, s), S_DONE) {
      DoneOutcome(hw, s);
      if Reading(s) {
        var d := Drain(hw, ReadStatus(s));
        DrainMoves(hw, msgs, pre, nf, ReadStatus(s));
        ReadingNow(hw, msgs, pre, nf, d);
        StatusBits(hw, d);
        DrainCtl(hw, ReadStatus(s));
        ReadCounts(s);
        ReadCounts(d);
      }
    } else {
      OtherOutcome(hw, s);
    }
  }

  lemma ReadCounts(s: Dev)
    ensures ReadStatus(s).statusReads == s.statusReads + 1 && ReadStatus(s).ctl == s.ctl
  {}

  lemma BlamedCases(hw: Hw, s: Dev, r: Dev)
    requires Ok(s)
    ensures var st := hw.status(s.statusReads);
            && (Bit(st, S_ERR) || Bit(st, S_CLKT) || !Bit(st, S_DONE) ==> Blamed(hw, s, r))
            && (!Bit(st, S_ERR) && !Bit(st, S_CLKT) && Bit(st, S_DONE) ==>
                  (Blamed(hw, s, r) <==>
                     Reading(s) && r.statusReads > 0 && Bit(hw.status(r.statusReads - 1), S_RXD)))
  {
    hide Bit;
  }

  lemma {:induction false} DrainCtl(hw: Hw, s: Dev)
    requires Ok(s)
    ensures Drain(hw, s).ctl == s.ctl
    decreases s.remaining
  {
    hide Bit, StatusWord;
    if s.remaining > 0 && Bit(StatusWord(hw, s), S_RXD) { DrainCtl(hw, StoreByte(hw, ReadStatus(s))); }
  }

  // ---- Whole transfers ----

  /** A completed run has an interrupt that ended it. */
  lemma {:induction false} LastInterrupt(hw: Hw, msgs: seq<Msg>, pre: seq<Write>, nf: nat, s: Dev, n: nat)
    returns (e: Dev, m: nat)
    requires OnlyLastReads(msgs) && Moving(hw, msgs, pre, nf, s) && Ok(s)
    requires !s.completed && Transfer(hw, s, n).completed
    ensures m < n && e == Transfer(hw, s, m) && !e.completed && Moving(hw, msgs, pre, nf, e) && Ok(e)
    ensures IsrBody(hw, e).1 == Complete && Transfer(hw, s, n) == Finish(IsrBody(hw, e).0)
    decreases n
  {
    hide IsrBody, Moving, Finish, Ok, OnlyLastReads;
    assert Transfer(hw, s, 0) == s;
    assert n > 0;
    FirstInterrupt(hw, s, n);
    hide Transfer;
    var (t, outcome) := IsrBody(hw, s);
    if outcome == Complete {
      e, m := s, 0;
    } else {
      IsrMoves(hw, msgs, pre, nf, s);
      e, m := LastInterrupt(hw, msgs, pre, nf, t, n - 1);
      FirstInterrupt(hw, s, m + 1);
      m := m + 1;
    }
  }

  /** A transfer that completes with nothing left has moved every byte. It is reported as a failure when
      the interrupt that ended it, entered in state `e`, had one of the three reasons, and as a success
      exactly when it had none. */
  lemma NoFalseFailure(hw: Hw, s: Dev, msgs: seq<Msg>, clk: nat, rate: nat, irqs: nat) returns (e: Dev, m: nat)
    requires rate > 0 && |msgs| > 0 && OnlyLastReads(msgs) && Divider(clk, rate).Some?
    requires var t := Xfer(hw, s, msgs, clk, rate, irqs).0; t.completed && AllDone(t)
    ensures m < irqs && Ok(e) && !e.completed && e == Transfer(hw, Begin(s, msgs, clk, rate), m)
    ensures var (t, ret) := Xfer(hw, s, msgs, clk, rate, irqs);
            && t == Isr(hw, e) && (ret == Transferred(|msgs|) <==> !Blamed(hw, e, t))
            && FullyMoved(hw, msgs, clk, rate, s, t)
  {
    hide *;
    var pre := s.writes + DividerWrites(clk, rate);
    var b := Begin(s, msgs, clk, rate);
    BeginMoves(hw, msgs, s, clk, rate);
    XferReports(hw, s, msgs, clk, rate, irqs);
    e, m := LastInterrupt(hw, msgs, pre, s.fifoReads, b, irqs);
    var r := IsrBody(hw, e).0;
    FinishFrame(hw, e, r);
    FailureIffBlamed(hw, msgs, pre, s.fifoReads, e);
    IsrMoves(hw, msgs, pre, s.fifoReads, e);
    DoneMoved(hw, msgs, clk, rate, s, r);
  }

  /** An accepted transfer that completes is reported by its error word. */
  lemma XferReports(hw: Hw, s: Dev, msgs: seq<Msg>, clk: nat, rate: nat, irqs: nat)
    requires rate > 0 && |msgs| > 0 && OnlyLastReads(msgs) && Divider(clk, rate).Some?
    ensures var u := Transfer(hw, Begin(s, msgs, clk, rate), irqs);
            var (t, ret) := Xfer(hw, s, msgs, clk, rate, irqs);
            && t.completed == u.completed
            && (u.completed ==> t == u && (ret == Transferred(|msgs|) <==> u.msgErr == 0)
                                && (u.msgErr != 0 && !Bit(u.msgErr, S_ERR) ==> ret == EIo))
  {
    hide Begin, Divider, Transfer, Bit;
  }

  /** The closing writes change neither what is left nor what was reported. */
  lemma FinishFrame(hw: Hw, e: Dev, r: Dev)
    requires Ok(e) && IsrBody(hw, e) == (r, Complete)
    ensures Isr(hw, e) == Finish(r)
    ensures Finish(r).msgErr == r.msgErr
    ensures AllDone(Finish(r)) <==> r.numMsgs == 0 && r.remaining == 0
    ensures AllDone(Finish(r)) <==> AllDone(r)
    ensures Blamed(hw, e, Finish(r)) == Blamed(hw, e, r)
  {
    hide IsrBody, Bit, BIT, Or;
  }

  // ---- A run that reports failure too late ----

  /** TXW or RXR with nothing left is taken for a failure. */
  lemma IdleInterrupt(t: Dev, n: nat)
    requires Ok(t) && !t.completed && AllDone(t) && t.statusReads < n
    ensures var r := Transfer(EagerHw(n), t, 1);
            r.completed && AllDone(r) && r.msgErr != 0 && !Bit(r.msgErr, S_ERR)
  {
    hide Bit, Or, And, AndNot, BIT, StatusWord, Fill, Drain, Start, EagerHw;
    var hw := EagerHw(n);
    EagerBits(t, n);
    ErrorReported(hw, t);
    EagerIsNoError(t, n);
    NonzeroByBit(Or(StatusWord(hw, t), BIT(S_LEN)), S_LEN);
    var r := Isr(hw, t);
    assert Transfer(hw, t, 1) == Transfer(hw, r, 0);
  }

  lemma EagerIsNoError(t: Dev, n: nat)
    ensures var st := EagerHw(n).status(t.statusReads); !Bit(st, S_ERR) && !Bit(st, S_CLKT)
  {
    hide Bit, BIT, Or;
  }

  /** From the start of the last message to a failure with nothing left. */
  lemma LastFails(t: Dev, n: nat)
    requires Ok(t) && !t.completed && t.numMsgs == 0 && Reading(t) == Bit(t.ctl, C_READ)
    requires t.statusReads + 1 + t.remaining < n
    ensures var r := Transfer(EagerHw(n), t, 2);
            r.completed && AllDone(r) && r.msgErr != 0 && !Bit(r.msgErr, S_ERR)
  {
    hide Isr, EagerHw, Bit;
    var hw := EagerHw(n);
    var u := Isr(hw, t);
    assert Transfer(hw, t, 2) == Transfer(hw, u, 1);
    if t.remaining > 0 {
      LastMoves(t, n);
      IdleInterrupt(u, n);
    } else {
      IdleInterrupt(t, n);
      assert Transfer(hw, t, 1) == Transfer(hw, u, 0) == u;
    }
  }

  /** Every accepted transfer without an empty message before the last can be reported as an error after
      all its bytes have moved: the controller only has to ask for more once. */
  lemma FailureAfterAll(msgs: seq<Msg>, clk: nat, rate: nat, s: Dev) returns (hw: Hw, irqs: nat)
    requires rate > 0 && Divider(clk, rate).Some? && OnlyLastReads(msgs) && NonFinalNonempty(msgs) && |msgs| > 0
    ensures var (t, ret) := Xfer(hw, s, msgs, clk, rate, irqs);
            ret == EIo && t.completed && AllDone(t) && FullyMoved(hw, msgs, clk, rate, s, t)
  {
    hide *;
    var k := |msgs| - 1;
    var n := s.statusReads + Reads(msgs, k) + 2 + |msgs[k].buf|;
    hw := EagerHw(n);
    irqs := k + 2;
    var pre := s.writes + DividerWrites(clk, rate);
    var b := Begin(s, msgs, clk, rate);
    BeginAtStart(s, msgs, clk, rate, n);
    NoneEmptyBefore(msgs, k);
    var t := EagerRun(msgs, pre, s.fifoReads, b, s.statusReads, 0, k, n, 2);
    AtStartFacts(msgs, pre, s.fifoReads, t, s.statusReads, k, n);
    LastFails(t, n);
    XferReports(hw, s, msgs, clk, rate, irqs);
    var e, m := NoFalseFailure(hw, s, msgs, clk, rate, irqs);
  }

  // ---- For which messages a failure can be false ----

  /** The counters do not lie: a transfer that stops has moved every byte exactly when they are zero. */
  lemma MovedIffDone(hw: Hw, msgs: seq<Msg>, clk: nat, rate: nat, s: Dev, u: Dev)
    requires rate > 0 && |msgs| > 0 && OnlyLastReads(msgs)
    requires Moving(hw, msgs, s.writes + DividerWrites(clk, rate), s.fifoReads, u)
    ensures FullyMoved(hw, msgs, clk, rate, s, Finish(u)) <==> AllDone(u)
  {
    hide *;
    if FullyMoved(hw, msgs, clk, rate, s, Finish(u)) {
      MovedTrace(hw, msgs, clk, rate, s, u);
      WholeSentence(hw, msgs, s.writes + DividerWrites(clk, rate), s.fifoReads, u);
    }
    if AllDone(u) { DoneMoved(hw, msgs, clk, rate, s, u); }
  }

  lemma MovedTrace(hw: Hw, msgs: seq<Msg>, clk: nat, rate: nat, s: Dev, u: Dev)
    requires rate > 0 && |msgs| > 0 && FullyMoved(hw, msgs, clk, rate, s, Finish(u))
    ensures |u.writes| == |s.writes + DividerWrites(clk, rate)| + |Upto(msgs, |msgs|)|
    ensures msgs[|msgs| - 1].rd ==> u.fifoReads == s.fifoReads + |msgs[|msgs| - 1].buf|
  {
    hide FifoBytes, WriteBuffers, DividerWrites, CLOSING, Upto, Received, Or, BIT;
    FinishWrites(u);
  }

  /** A trace as long as the whole sentence ends with the last byte of the last message. */
  lemma WholeSentence(hw: Hw, msgs: seq<Msg>, pre: seq<Write>, nf: nat, u: Dev)
    requires |msgs| > 0 && Moving(hw, msgs, pre, nf, u) && |u.writes| == |pre| + |Upto(msgs, |msgs|)|
    requires msgs[|msgs| - 1].rd ==> u.fifoReads == nf + |msgs[|msgs| - 1].buf|
    ensures AllDone(u)
  {
    hide Sentence, Upto, Bit, Received;
    SentenceLength(msgs, u.cur, u.pos);
    UptoGrows(msgs, u.cur + 1, |msgs|);
  }

  /** An empty message before the last is never passed. */
  lemma IsrStays(hw: Hw, msgs: seq<Msg>, pre: seq<Write>, nf: nat, s: Dev, k: nat)
    requires OnlyLastReads(msgs) && Moving(hw, msgs, pre, nf, s) && Ok(s)
    requires s.cur <= k < |msgs| - 1 && |msgs[k].buf| == 0
    ensures IsrBody(hw, s).0.cur <= k
  {
    ReadingNow(hw, msgs, pre, nf, s) by { hide *; }
    assert !msgs[s.cur].rd && (s.cur == k ==> s.remaining == 0) by { hide Bit, Sentence, Received; }
    hide *;
    FillMoves(hw, msgs, pre, nf, ReadStatus(s));
    AdvanceByOne(Fill(hw, ReadStatus(s)));
    var u := IsrOfWrite(hw, s);
  }

  lemma AdvanceByOne(s: Dev)
    requires Ok(s)
    ensures Advance(s).cur == s.cur || Advance(s).cur == s.cur + 1
  {
    hide StartWord, Bit;
  }

  lemma {:induction false} NeverPassed(hw: Hw, msgs: seq<Msg>, pre: seq<Write>, nf: nat, s: Dev, n: nat, k: nat)
    requires OnlyLastReads(msgs) && Moving(hw, msgs, pre, nf, s) && Ok(s) && !s.completed
    requires s.cur <= k < |msgs| - 1 && |msgs[k].buf| == 0
    ensures Transfer(hw, s, n).cur <= k
    decreases n
  {
    hide IsrBody, Moving, Ok, OnlyLastReads;
    assert Transfer(hw, s, 0) == s;
    if n > 0 {
      IsrStays(hw, msgs, pre, nf, s, k);
      IsrMoves(hw, msgs, pre, nf, s);
      FirstInterrupt(hw, s, n);
      hide Transfer;
      var (t, outcome) := IsrBody(hw, s);
      assert Finish(t).cur == t.cur by { hide Or, BIT; }
      hide Finish;
      if outcome != Complete { NeverPassed(hw, msgs, pre, nf, t, n - 1, k); }
    }
  }

  /** With some hardware every byte is moved, and the transfer is reported as a bus error. */
  ghost predicate CanFailFalsely(msgs: seq<Msg>, clk: nat, rate: nat)
    requires rate > 0
  {
    exists hw: Hw, s: Dev, irqs: nat :: FailsFalsely(hw, s, msgs, clk, rate, irqs)
  }

  ghost predicate FailsFalsely(hw: Hw, s: Dev, msgs: seq<Msg>, clk: nat, rate: nat, irqs: nat)
    requires rate > 0
  {
    var (t, ret) := Xfer(hw, s, msgs, clk, rate, irqs);
    FullyMoved(hw, msgs, clk, rate, s, t) && (ret == EIo || ret == ERemoteIo)
  }

  lemma FalseFailureNeedsBytes(hw: Hw, s: Dev, msgs: seq<Msg>, clk: nat, rate: nat, irqs: nat)
    requires rate > 0 && FailsFalsely(hw, s, msgs, clk, rate, irqs)
    ensures OnlyLastReads(msgs) && Divider(clk, rate).Some? && |msgs| > 0 && NonFinalNonempty(msgs)
  {
    BusErrorIsAnswered(hw, s, msgs, clk, rate, irqs);
    hide FullyMoved, Xfer, Divider, Begin, Transfer, Moving, Finish, DividerWrites;
    var b := Begin(s, msgs, clk, rate);
    var pre := s.writes + DividerWrites(clk, rate);
    BeginMoves(hw, msgs, s, clk, rate);
    BeginIsReady(s, msgs, clk, rate);
    XferReports(hw, s, msgs, clk, rate, irqs);
    TransferMoves(hw, msgs, pre, s.fifoReads, b, irqs);
    var t := Transfer(hw, b, irqs);
    var u: Dev :| Moving(hw, msgs, pre, s.fifoReads, u) && t == Finish(u);
    MovedIffDone(hw, msgs, clk, rate, s, u);
    assert t.cur == u.cur by { hide *; FinishCursor(u); }
    if !NonFinalNonempty(msgs) {
      var k: nat :| k < |msgs| - 1 && |msgs[k].buf| == 0;
      NeverPassed(hw, msgs, pre, s.fifoReads, b, irqs, k);
      NotTheLast(hw, msgs, pre, s.fifoReads, u);
    }
  }

  lemma FinishCursor(u: Dev)
    ensures Finish(u).cur == u.cur
  {
    hide Or, BIT;
  }

  lemma NotTheLast(hw: Hw, msgs: seq<Msg>, pre: seq<Write>, nf: nat, u: Dev)
    requires Moving(hw, msgs, pre, nf, u) && AllDone(u)
    ensures u.cur == |msgs| - 1
  {
    hide Bit, Sentence, Received;
  }

  lemma BusErrorIsAnswered(hw: Hw, s: Dev, msgs: seq<Msg>, clk: nat, rate: nat, irqs: nat)
    requires rate > 0
    requires var ret := Xfer(hw, s, msgs, clk, rate, irqs).1; ret == EIo || ret == ERemoteIo
    ensures OnlyLastReads(msgs) && Divider(clk, rate).Some? && |msgs| > 0
    ensures Transfer(hw, Begin(s, msgs, clk, rate), irqs).completed
  {
    hide Divider, Transfer, Bit, Or, BIT, OnlyLastReads, DividerWrites;
  }

  /** A bus error can be reported although every byte was moved exactly when the request is accepted, has
      a message and no empty one before the last: on all other requests an error is a real one. */
  lemma FalseFailureIff(msgs: seq<Msg>, clk: nat, rate: nat)
    requires rate > 0
    ensures CanFailFalsely(msgs, clk, rate) <==>
              OnlyLastReads(msgs) && Divider(clk, rate).Some? && |msgs| > 0 && NonFinalNonempty(msgs)
  {
    hide FailsFalsely, Divider, OnlyLastReads, NonFinalNonempty, Xfer, FullyMoved;
    if CanFailFalsely(msgs, clk, rate) {
      var hw: Hw, s: Dev, irqs: nat :| FailsFalsely(hw, s, msgs, clk, rate, irqs);
      FalseFailureNeedsBytes(hw, s, msgs, clk, rate, irqs);
    }
    if OnlyLastReads(msgs) && Divider(clk, rate).Some? && |msgs| > 0 && NonFinalNonempty(msgs) {
      var s := Dev([], 0, 0, 0, 0, 0, false, 0, [], 0, 0, [], []);
      var hw, irqs := SomeFalseFailure(msgs, clk, rate, s);
    }
  }

  lemma SomeFalseFailure(msgs: seq<Msg>, clk: nat, rate: nat, s: Dev) returns (hw: Hw, irqs: nat)
    requires rate > 0 && Divider(clk, rate).Some? && OnlyLastReads(msgs) && NonFinalNonempty(msgs) && |msgs| > 0
    ensures FailsFalsely(hw, s, msgs, clk, rate, irqs)
  {
    hide *;
    hw, irqs := FailureAfterAll(msgs, clk, rate, s);
    FalselyFailed(hw, s, msgs, clk, rate, irqs);
  }

  lemma FalselyFailed(hw: Hw, s: Dev, msgs: seq<Msg>, clk: nat, rate: nat, irqs: nat)
    requires rate > 0
    requires var (t, ret) := Xfer(hw, s, msgs, clk, rate, irqs); ret == EIo && FullyMoved(hw, msgs, clk, rate, s, t)
    ensures FailsFalsely(hw, s, msgs, clk, rate, irqs)
  {
    hide Xfer, FullyMoved;
  }
}
