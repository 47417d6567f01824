/** The BCM2835 I2C driver in its own form: an object whose methods move bytes between message
    buffers and registers. Every method is tied to the transition system of I2cSpec. */
module I2cDriver {
  import opened Words
  import opened Mmio
  import opened I2cDivider
  import opened I2cSpec
  import P = I2cProofs

  /** struct i2c_msg; the buffer belongs to the caller and is filled in place by a read. */
  class I2cMsg {
    const addr: nat
    const rd: bool
    const buf: array<nat>

    constructor (addr: nat, rd: bool, buf: array<nat>)
      ensures this.addr == addr && this.rd == rd && this.buf == buf
    {
      this.addr, this.rd, this.buf := addr, rd, buf;
    }
  }

  ghost function Buffers(msgs: seq<I2cMsg>): set<array<nat>> {
    set m | m in msgs :: m.buf
  }

  /** The buffers that a transfer of `msgs` may write to. */
  ghost function Targets(msgs: seq<I2cMsg>): set<array<nat>> {
    set m | m in msgs && m.rd :: m.buf
  }

  ghost function View(msgs: seq<I2cMsg>): (v: seq<Msg>)
    reads Buffers(msgs)
    ensures |v| == |msgs|
    ensures forall i :: 0 <= i < |msgs| ==> v[i] == Msg(msgs[i].addr, msgs[i].rd, msgs[i].buf[..])
  {
    if msgs == [] then []
    else View(msgs[..|msgs| - 1]) + [Msg(msgs[|msgs| - 1].addr, msgs[|msgs| - 1].rd, msgs[|msgs| - 1].buf[..])]
  }

  function Overwritten(m: Msg, pos: nat, byte: nat): Msg
    requires pos < |m.buf|
  {
    m.(buf := m.buf[pos := byte])
  }

  /** Two messages may share a buffer, so `view` keeps the bytes of every message apart. Those of
      the current message and of all later ones are the bytes in memory. */
  class I2cDev {
    const hw: Hw
    var msgs: seq<I2cMsg>
    var currMsg: int
    var numMsgs: nat
    var msgErr: nat
    var msgBufPos: nat
    var msgBufRemaining: nat
    var completed: bool
    // the controller
    var ctl: nat
    var statusReads: nat
    var fifoReads: nat
    ghost var writes: seq<Write>
    ghost var pushedAt: seq<nat>
    ghost var pulledAt: seq<nat>
    ghost var view: seq<Msg>

    ghost function Abs(): Dev
      reads this
    {
      Dev(view, currMsg, numMsgs, msgErr, msgBufPos, msgBufRemaining, completed,
          ctl, writes, statusReads, fifoReads, pushedAt, pulledAt)
    }

    ghost predicate Tied()
      reads this, Buffers(msgs)
    {
      && |view| == |msgs|
      && (forall i :: 0 <= i < |msgs| ==> view[i].addr == msgs[i].addr && view[i].rd == msgs[i].rd)
      && (forall i :: 0 <= i < |msgs| && currMsg <= i ==> view[i].buf == msgs[i].buf[..])
    }

    /** There is no message yet, or the cursor is in a buffer; and the controller reads only into a
        message that asked for it. */
    ghost predicate Valid()
      reads this, Buffers(msgs)
    {
      && Ok(Abs())
      && OnlyLastReads(view)
      && Tied()
      && (Bit(ctl, C_READ) ==> Reading(Abs()))
    }

    constructor (hw: Hw)
      ensures this.hw == hw && Valid()
      ensures Abs() == Dev([], 0, 0, 0, 0, 0, false, 0, [Write(REG_C, 0)], 0, 0, [], [])
    {
      this.hw := hw;
      msgs, currMsg, numMsgs, msgErr, msgBufPos, msgBufRemaining, completed := [], 0, 0, 0, 0, 0, false;
      ctl, statusReads, fifoReads, writes, view := 0, 0, 0, [Write(REG_C, 0)], [];
      pushedAt, pulledAt := [], [];
    }

    method Writel(reg: nat, val: nat)
      modifies this`ctl, this`writes, this`pushedAt
      ensures Abs() == WriteReg(old(Abs()), reg, val)
    {
      writes := writes + [Write(reg, val)];
      if reg == REG_FIFO { pushedAt := pushedAt + [statusReads]; }
      if reg == REG_C { ctl := val; }
    }

    method ReadStatusReg() returns (val: nat)
      modifies this`statusReads
      ensures val == StatusWord(hw, old(Abs()))
      ensures Abs() == ReadStatus(old(Abs()))
    {
      hide AndNot, Or, BIT, Bit;
      val := AndNot(hw.status(statusReads), if Bit(ctl, C_READ) then BIT(S_TXW) else Or(BIT(S_RXR), BIT(S_RXD)));
      statusReads := statusReads + 1;
    }

    method SetDivider(clk: nat, rate: nat) returns (ok: bool)
      requires rate > 0
      modifies this`ctl, this`writes, this`pushedAt
      ensures ok == Divider(clk, rate).Some?
      ensures !ok ==> Abs() == old(Abs())
      ensures Abs() == old(Abs()).(writes := old(writes) + DividerWrites(clk, rate))
    {
      hide Or, Shl;
      var divider := DivRoundUp(clk, rate) % WORD;
      if divider % 2 == 1 {
        divider := (divider + 1) % WORD;
      }
      if divider < CDIV_MIN || divider > CDIV_MAX {
        return false;
      }
      Writel(REG_DIV, divider);
      var fedl := Max(divider / 16, 1);
      var redl := Max(divider / 4, 1);
      Writel(REG_DEL, Or(Shl(fedl, FEDL_SHIFT), redl));
      ok := true;
    }

    method PutNext()
      requires Valid() && msgBufRemaining > 0
      modifies this`ctl, this`writes, this`pushedAt, this`msgBufPos, this`msgBufRemaining
      ensures Abs() == PutByte(old(Abs())) && Valid()
      ensures msgBufRemaining == old(msgBufRemaining) - 1
    {
      hide Bit;
      Writel(REG_FIFO, msgs[currMsg].buf[msgBufPos]);
      msgBufPos := msgBufPos + 1;
      msgBufRemaining := msgBufRemaining - 1;
    }

    method FillTxfifo()
      requires Valid()
      modifies this`ctl, this`writes, this`pushedAt, this`statusReads, this`msgBufPos, this`msgBufRemaining
      ensures Abs() == Fill(hw, old(Abs()))
      ensures Valid()
    {
      hide AndNot, Or, BIT, Bit, StatusWord, PutByte;
      while msgBufRemaining > 0
        invariant Valid() && Fill(hw, Abs()) == Fill(hw, old(Abs()))
      {
        var val := ReadStatusReg();
        if !Bit(val, S_TXD) {
          break;
        }
        PutNext();
      }
    }

    method ReadFifo() returns (byte: nat)
      modifies this`fifoReads, this`pulledAt
      ensures byte == hw.fifo(old(fifoReads)) % 0x100
      ensures fifoReads == old(fifoReads) + 1 && pulledAt == old(pulledAt) + [statusReads]
    {
      byte := hw.fifo(fifoReads) % 0x100;
      fifoReads := fifoReads + 1;
      pulledAt := pulledAt + [statusReads];
    }

    /** Stores into the buffer of the current message, which is the last, so no later one is affected. */
    method PutInBuffer(byte: nat)
      requires Valid() && Reading(Abs()) && msgBufRemaining > 0
      modifies this`view, Targets(msgs)
      ensures view == old(view)[currMsg := Overwritten(old(view)[currMsg], msgBufPos, byte)]
      ensures Tied() && OnlyLastReads(view)
    {
      hide Bit, View, Buffers;
      assert msgs[currMsg] in msgs;
      assert currMsg == |msgs| - 1;
      view := view[currMsg := Overwritten(view[currMsg], msgBufPos, byte)];
      msgs[currMsg].buf[msgBufPos] := byte;
    }

    method StoreNext()
      requires Valid() && Reading(Abs()) && msgBufRemaining > 0
      modifies this`fifoReads, this`pulledAt, this`msgBufPos, this`msgBufRemaining, this`view, Targets(msgs)
      ensures Abs() == StoreByte(hw, old(Abs())) && Valid() && Reading(Abs())
      ensures msgBufRemaining == old(msgBufRemaining) - 1
    {
      hide Bit, View, Buffers, Targets, OnlyLastReads;
      var byte := ReadFifo();
      PutInBuffer(byte);
      msgBufPos := msgBufPos + 1;
      msgBufRemaining := msgBufRemaining - 1;
      assert Tied();
      hide Tied;
    }

    method DrainRxfifo()
      requires Valid() && Reading(Abs())
      modifies this`statusReads, this`fifoReads, this`pulledAt, this`msgBufPos, this`msgBufRemaining, this`view
      modifies Targets(msgs)
      ensures Abs() == Drain(hw, old(Abs()))
      ensures Valid()
    {
      hide AndNot, Or, BIT, Bit, StatusWord, StoreByte;
      while msgBufRemaining > 0
        invariant Valid() && Reading(Abs()) && Drain(hw, Abs()) == Drain(hw, old(Abs()))
      {
        var val := ReadStatusReg();
        if !Bit(val, S_RXD) {
          break;
        }
        StoreNext();
      }
    }

    /** Starts the message `currMsg`. */
    method StartTransfer()
      requires numMsgs > 0 ==> 0 <= currMsg && currMsg + numMsgs <= |msgs|
      requires OnlyLastReads(view) && Tied()
      modifies this`numMsgs, this`msgBufPos, this`msgBufRemaining, this`ctl, this`writes, this`pushedAt
      ensures Abs() == Start(old(Abs()))
      ensures Tied() && (old(numMsgs) > 0 ==> Valid())
    {
      hide Bit, StartWord, Or, BIT, OnlyLastReads, View, Targets, Buffers;
      ghost var s := Abs();
      var lastMsg := numMsgs == 1;
      if numMsgs == 0 {
        return;
      }
      var msg := msgs[currMsg];
      numMsgs := numMsgs - 1;
      msgBufPos := 0;
      msgBufRemaining := msg.buf.Length;
      assert Abs() == s.(numMsgs := s.numMsgs - 1, pos := 0, remaining := |s.msgs[s.cur].buf|);
      WriteStart(msg, lastMsg);
    }

    /** The three writes that start a message. */
    method WriteStart(msg: I2cMsg, lastMsg: bool)
      modifies this`ctl, this`writes, this`pushedAt
      ensures Abs() == WriteReg(WriteReg(WriteReg(old(Abs()), REG_A, msg.addr), REG_DLEN, msg.buf.Length),
                                REG_C, StartWord(msg.rd, lastMsg))
      ensures Bit(ctl, C_READ) == msg.rd
    {
      hide Bit, StartWord, Or, BIT;
      var c := ControlWord(msg.rd, lastMsg);
      Writel(REG_A, msg.addr);
      Writel(REG_DLEN, msg.buf.Length);
      Writel(REG_C, c);
      P.StartWordRead(msg.rd, lastMsg);
    }

    static method ControlWord(rd: bool, last: bool) returns (c: nat)
      ensures c == StartWord(rd, last)
    {
      hide Or, BIT;
      c := Or(BIT(C_ST), BIT(C_I2CEN));
      if rd {
        c := Or(c, Or(BIT(C_READ), BIT(C_INTR)));
      } else {
        c := Or(c, BIT(C_INTT));
      }
      if last {
        c := Or(c, BIT(C_INTD));
      }
    }

    /** The end of the handler: stop the controller, clear its status and wake the waiter. */
    method CompleteTransfer()
      requires Valid()
      modifies this`ctl, this`writes, this`pushedAt, this`completed
      ensures Abs() == Finish(old(Abs())) && Valid()
    {
      hide Bit, Or, BIT;
      Writel(REG_C, BIT(C_CLEAR));
      Writel(REG_S, Or(Or(BIT(S_CLKT), BIT(S_ERR)), BIT(S_DONE)));
      completed := true;
      assert !Bit(ctl, C_READ);
    }

    method SetError(err: nat)
      requires Valid()
      modifies this`msgErr
      ensures Abs() == old(Abs()).(msgErr := err) && Valid()
    {
      hide Bit;
      msgErr := err;
    }

    /** The handler up to its `complete` label. */
    method HandleStatus() returns (outcome: Outcome)
      requires Valid()
      modifies this, Targets(msgs)
      ensures (Abs(), outcome) == IsrBody(hw, old(Abs()))
      ensures Valid() && msgs == old(msgs)
    {
      hide Bit, Or, BIT, And, AndNot, StatusWord, Fill, Drain, Advance;
      var val := ReadStatusReg();
      var err := And(val, Or(BIT(S_CLKT), BIT(S_ERR)));
      if err != 0 {
        SetError(err);
        return Complete;
      }
      if Bit(val, S_DONE) {
        val := FinishReading(val);
        if Bit(val, S_RXD) || msgBufRemaining > 0 {
          SetError(BIT(S_LEN));
        } else {
          SetError(0);
        }
        return Complete;
      }
      if Bit(val, S_TXW) {
        if msgBufRemaining == 0 {
          SetError(Or(val, BIT(S_LEN)));
          return Complete;
        }
        FillAndAdvance();
        return Handled;
      }
      if Bit(val, S_RXR) {
        if msgBufRemaining == 0 {
          SetError(Or(val, BIT(S_LEN)));
          return Complete;
        }
        ReadRequested(old(Abs()), val);
        DrainRxfifo();
        return Handled;
      }
      return NotMine;
    }

    /** On TXW, the FIFO is filled; when that was the last byte of the message, the next one starts. */
    method FillAndAdvance()
      requires Valid()
      modifies this
      ensures Abs() == Advance(Fill(hw, old(Abs())))
      ensures Valid() && msgs == old(msgs)
    {
      hide Bit, Fill, Start;
      FillTxfifo();
      if numMsgs > 0 && msgBufRemaining == 0 {
        ghost var f := Abs();
        currMsg := currMsg + 1;
        assert Abs() == f.(cur := f.cur + 1);
        StartTransfer();
      }
    }

    /** On DONE, what is left of a read is collected before the status is judged. */
    method FinishReading(val: nat) returns (val': nat)
      requires Valid()
      modifies this, Targets(msgs)
      ensures old(Valid()) && Valid() && msgs == old(msgs)
      ensures var s := old(Abs());
              if Reading(s)
              then Abs() == ReadStatus(Drain(hw, s)) && val' == StatusWord(hw, Drain(hw, s))
              else Abs() == s && val' == val
    {
      hide Bit, StatusWord, Drain;
      val' := val;
      if msgs != [] && msgs[currMsg].rd {
        DrainRxfifo();
        val' := ReadStatusReg();
      }
    }

    method Isr() returns (handled: bool)
      requires Valid()
      modifies this, Targets(msgs)
      ensures Abs() == I2cSpec.Isr(hw, old(Abs()))
      ensures handled == (IsrBody(hw, old(Abs())).1 != NotMine)
      ensures Valid() && msgs == old(msgs)
    {
      hide Bit, IsrBody, Finish, Ok;
      var outcome := HandleStatus();
      if outcome == Complete {
        CompleteTransfer();
      }
      handled := outcome != NotMine;
    }

    lemma ReadRequested(s: Dev, val: nat)
      requires val == StatusWord(hw, s) && Bit(val, S_RXR)
      ensures Bit(s.ctl, C_READ)
    {
      hide Bit, BIT, Or, AndNot;
    }

    /** Interrupts until the transfer completes or `irqs` of them have arrived. */
    method WaitForCompletion(irqs: nat)
      requires Valid()
      modifies this, Targets(msgs)
      ensures Abs() == Transfer(hw, old(Abs()), irqs)
      ensures Valid() && msgs == old(msgs)
    {
      hide Bit, Targets, Buffers, I2cSpec.Isr, Ok, Transfer, OnlyLastReads, Tied, Reading, IsrBody;
      var n := irqs;
      while n > 0 && !completed
        invariant Valid() && msgs == old(msgs)
        invariant Transfer(hw, Abs(), n) == Transfer(hw, old(Abs()), irqs)
        decreases n
      {
        TransferStep(Abs(), n);
        var handled := Isr();
        n := n - 1;
      }
      TransferStep(Abs(), n);
    }

    lemma TransferStep(s: Dev, n: nat)
      requires Ok(s)
      ensures Transfer(hw, s, n) == if n == 0 || s.completed then s else Transfer(hw, I2cSpec.Isr(hw, s), n - 1)
    {
      hide Ok, I2cSpec.Isr;
    }

    /** The search for a read that is not the last message. */
    static method FindEarlyRead(newMsgs: seq<I2cMsg>) returns (found: bool)
      ensures found == !OnlyLastReads(View(newMsgs))
    {
      var i := 0;
      while i < |newMsgs| - 1
        invariant 0 <= i && (i <= |newMsgs| - 1 || i == 0)
        invariant forall j :: 0 <= j < i ==> !newMsgs[j].rd
      {
        if newMsgs[i].rd {
          assert View(newMsgs)[i].rd;
          return true;
        }
        i := i + 1;
      }
      found := false;
    }

    /** The end of a transfer: stop the controller on a timeout, and report. */
    method Finished(num: nat) returns (ret: Ret)
      modifies this`ctl, this`writes, this`pushedAt
      ensures (Abs(), ret) == Report(old(Abs()), num)
    {
      hide Bit, BIT;
      if !completed {
        Writel(REG_C, BIT(C_CLEAR));
        return ETimedOut;
      }
      if msgErr == 0 {
        return Transferred(num);
      }
      ret := if Bit(msgErr, S_ERR) then ERemoteIo else EIo;
    }

    /** Takes over the messages of the caller and starts the first one. */
    method Started(newMsgs: seq<I2cMsg>, clk: nat, rate: nat) returns (ok: bool)
      requires rate > 0 && OnlyLastReads(View(newMsgs))
      modifies this
      ensures ok == Divider(clk, rate).Some?
      ensures Abs() == if ok then Begin(old(Abs()), old(View(newMsgs)), clk, rate) else old(Abs())
      ensures ok ==> msgs == newMsgs && Tied() && (newMsgs != [] ==> Valid())
      ensures !ok ==> msgs == old(msgs)
    {
      hide Bit, Divider, DividerWrites, Start, Begin, OnlyLastReads, Tied;
      ghost var s, ms := Abs(), View(newMsgs);
      ok := SetDivider(clk, rate);
      if !ok {
        return;
      }
      TakeOver(newMsgs, ms);
      StartTransfer();
      BeginIs(s, ms, clk, rate);
    }

    method TakeOver(newMsgs: seq<I2cMsg>, ghost ms: seq<Msg>)
      requires ms == View(newMsgs)
      modifies this`msgs, this`view, this`currMsg, this`numMsgs, this`completed
      ensures Abs() == old(Abs()).(msgs := ms, cur := 0, numMsgs := |newMsgs|, completed := false)
      ensures msgs == newMsgs && Tied()
    {
      msgs := newMsgs;
      view := ms;
      currMsg := 0;
      numMsgs := |newMsgs|;
      completed := false;
    }

    lemma BeginIs(s: Dev, ms: seq<Msg>, clk: nat, rate: nat)
      requires rate > 0
      ensures Begin(s, ms, clk, rate) ==
                Start(s.(writes := s.writes + DividerWrites(clk, rate),
                         msgs := ms, cur := 0, numMsgs := |ms|, completed := false))
    {
      hide Start, DividerWrites;
    }

    lemma SuccessIsReal(s: Dev, ms: seq<Msg>, clk: nat, rate: nat, irqs: nat)
      requires rate > 0
      ensures var (t, ret) := I2cSpec.Xfer(hw, s, ms, clk, rate, irqs);
              P.NonFinalNonempty(ms) && ret.Transferred? ==>
                ret.n == |ms| && P.AllMoved(hw, ms, clk, rate, s, t)
    {
      hide *;
      if P.NonFinalNonempty(ms) && I2cSpec.Xfer(hw, s, ms, clk, rate, irqs).1.Transferred? {
        P.NoFalseSuccess(hw, s, ms, clk, rate, irqs);
      }
    }

    /** bcm2835_i2c_xfer. What a final read has received is in the caller's own buffer. */
    method Xfer(newMsgs: seq<I2cMsg>, clk: nat, rate: nat, irqs: nat) returns (ret: Ret)
      requires rate > 0
      modifies this, Targets(newMsgs)
      ensures (Abs(), ret) == I2cSpec.Xfer(hw, old(Abs()), old(View(newMsgs)), clk, rate, irqs)
      ensures P.NonFinalNonempty(old(View(newMsgs))) && ret.Transferred? ==>
                ret.n == |newMsgs| && P.AllMoved(hw, old(View(newMsgs)), clk, rate, old(Abs()), Abs())
      ensures newMsgs != [] && !ret.EOpNotSupp? && !ret.EInval? ==>
                |Abs().msgs| == |newMsgs|
                && newMsgs[|newMsgs| - 1].buf[..] == Abs().msgs[|newMsgs| - 1].buf
    {
      hide Bit, Ok, Transfer, Divider, Begin, P.AllMoved, P.NonFinalNonempty, Targets;
      ghost var s, ms := Abs(), View(newMsgs);
      SuccessIsReal(s, ms, clk, rate, irqs);
      var early := FindEarlyRead(newMsgs);
      if early {
        return EOpNotSupp;
      }
      assert View(newMsgs) == ms;
      var ok := Started(newMsgs, clk, rate);
      if !ok {
        return EInval;
      }
      assert Abs() == Begin(s, ms, clk, rate);
      if |newMsgs| > 0 {
        WaitForCompletion(irqs);
        LastIsInMemory();
      }
      ghost var t := Abs();
      assert t == if |ms| == 0 then Begin(s, ms, clk, rate) else Transfer(hw, Begin(s, ms, clk, rate), irqs);
      ret := Finished(|newMsgs|);
      assert (Abs(), ret) == Report(t, |ms|);
    }

    lemma LastIsInMemory()
      requires Valid() && msgs != []
      ensures |view| == |msgs| && view[|msgs| - 1].buf == msgs[|msgs| - 1].buf[..]
    {
      hide Bit;
    }
  }
}
