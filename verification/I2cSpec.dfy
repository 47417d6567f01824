/** The BCM2835 I2C master as a transition system: i2c-bcm2835.c.

    `Dev` holds the driver's fields and the part of the controller the driver depends on. The
    hardware is an oracle: `Hw.status(k)` is what the k-th read of the status register would
    return and `Hw.fifo(k)` the k-th read of the FIFO, for any two functions. The assumptions
    about the controller are built into `StatusWord` (TXW is reported only after a write to C
    with READ clear, RXR and RXD only after one with READ set) and into `Transfer` (interrupts
    arrive only between a start and its completion). */
module I2cSpec {
  import opened Words
  import opened Mmio
  import opened I2cDivider

  const REG_C: nat := 0x0
  const REG_S: nat := 0x4
  const REG_DLEN: nat := 0x8
  const REG_A: nat := 0xc
  const REG_FIFO: nat := 0x10
  const REG_DIV: nat := 0x14
  const REG_DEL: nat := 0x18

  // Bit numbers in the control register C.
  const C_READ: nat := 0
  const C_CLEAR: nat := 4
  const C_ST: nat := 7
  const C_INTD: nat := 8
  const C_INTT: nat := 9
  const C_INTR: nat := 10
  const C_I2CEN: nat := 15

  // Bit numbers in the status register S; S_LEN is the driver's own.
  const S_DONE: nat := 1
  const S_TXW: nat := 2
  const S_RXR: nat := 3
  const S_TXD: nat := 4
  const S_RXD: nat := 5
  const S_ERR: nat := 8
  const S_CLKT: nat := 9
  const S_LEN: nat := 10

  datatype Msg = Msg(addr: nat, rd: bool, buf: seq<nat>)
  datatype Hw = Hw(status: nat -> nat, fifo: nat -> nat)

  /** `pushedAt` and `pulledAt` say, for each byte written to or read from the FIFO, how many reads of
      the status register came before it. */
  datatype Dev = Dev(
    msgs: seq<Msg>, cur: int, numMsgs: nat, msgErr: nat, pos: nat, remaining: nat, completed: bool,
    ctl: nat, writes: seq<Write>, statusReads: nat, fifoReads: nat, pushedAt: seq<nat>, pulledAt: seq<nat>)

  datatype Outcome = Complete | Handled | NotMine
  datatype Ret = Transferred(n: nat) | EOpNotSupp | EInval | ETimedOut | ERemoteIo | EIo

  // ---- Operations ----

  function WriteReg(s: Dev, reg: nat, val: nat): Dev {
    s.(writes := s.writes + [Write(reg, val)], ctl := if reg == REG_C then val else s.ctl,
       pushedAt := if reg == REG_FIFO then s.pushedAt + [s.statusReads] else s.pushedAt)
  }

  function StatusWord(hw: Hw, s: Dev): nat {
    AndNot(hw.status(s.statusReads), if Bit(s.ctl, C_READ) then BIT(S_TXW) else Or(BIT(S_RXR), BIT(S_RXD)))
  }

  function ReadStatus(s: Dev): Dev {
    s.(statusReads := s.statusReads + 1)
  }

  /** Before the first transfer the driver has no message, and nothing to move. */
  predicate NoMessage(s: Dev) {
    s.msgs == [] && s.numMsgs == 0 && s.remaining == 0
  }

  /** Otherwise the cursor lies in the current message's buffer and `numMsgs` messages follow it. */
  predicate Ok(s: Dev) {
    || NoMessage(s)
    || (&& 0 <= s.cur < |s.msgs|
        && s.cur + s.numMsgs < |s.msgs|
        && s.pos + s.remaining <= |s.msgs[s.cur].buf|)
  }

  /** There is a current message, and it is a read. */
  predicate Reading(s: Dev)
    requires Ok(s)
  {
    s.msgs != [] && s.msgs[s.cur].rd
  }

  function PutByte(s: Dev): (r: Dev)
    requires Ok(s) && s.remaining > 0
    ensures Ok(r)
  {
    WriteReg(s, REG_FIFO, s.msgs[s.cur].buf[s.pos]).(pos := s.pos + 1, remaining := s.remaining - 1)
  }

  function Fill(hw: Hw, s: Dev): (r: Dev)
    requires Ok(s)
    ensures Ok(r) && |r.msgs| == |s.msgs|
    decreases s.remaining
  {
    if s.remaining == 0 then s
    else
      var val := StatusWord(hw, s);
      var s1 := ReadStatus(s);
      if !Bit(val, S_TXD) then s1 else Fill(hw, PutByte(s1))
  }

  function StoreByte(hw: Hw, s: Dev): (r: Dev)
    requires Ok(s) && s.remaining > 0
    ensures Ok(r) && |r.msgs| == |s.msgs|
  {
    var m := s.msgs[s.cur];
    s.(msgs := s.msgs[s.cur := m.(buf := m.buf[s.pos := hw.fifo(s.fifoReads) % 0x100])],
       fifoReads := s.fifoReads + 1, pulledAt := s.pulledAt + [s.statusReads],
       pos := s.pos + 1, remaining := s.remaining - 1)
  }

  function Drain(hw: Hw, s: Dev): (r: Dev)
    requires Ok(s)
    ensures Ok(r) && |r.msgs| == |s.msgs|
    decreases s.remaining
  {
    if s.remaining == 0 then s
    else
      var val := StatusWord(hw, s);
      var s1 := ReadStatus(s);
      if !Bit(val, S_RXD) then s1 else Drain(hw, StoreByte(hw, s1))
  }

  /** The control word that starts a message. */
  function StartWord(rd: bool, last: bool): nat {
    var c := Or(BIT(C_ST), BIT(C_I2CEN));
    var d := if rd then Or(c, Or(BIT(C_READ), BIT(C_INTR))) else Or(c, BIT(C_INTT));
    if last then Or(d, BIT(C_INTD)) else d
  }

  function Start(s: Dev): (r: Dev)
    requires s.numMsgs > 0 ==> 0 <= s.cur && s.cur + s.numMsgs <= |s.msgs|
    ensures s.numMsgs > 0 ==> Ok(r)
  {
    if s.numMsgs == 0 then s
    else
      var m := s.msgs[s.cur];
      var s1 := s.(numMsgs := s.numMsgs - 1, pos := 0, remaining := |m.buf|);
      var s2 := WriteReg(s1, REG_A, m.addr);
      var s3 := WriteReg(s2, REG_DLEN, |m.buf|);
      WriteReg(s3, REG_C, StartWord(m.rd, s.numMsgs == 1))
  }

  /** After the last byte of a message that has a successor, the next message starts. */
  function Advance(s: Dev): (r: Dev)
    requires Ok(s)
    ensures Ok(r)
  {
    if s.numMsgs > 0 && s.remaining == 0 then Start(s.(cur := s.cur + 1)) else s
  }

  /** The interrupt handler up to its `complete` label. */
  function IsrBody(hw: Hw, s: Dev): (r: (Dev, Outcome))
    requires Ok(s)
    ensures Ok(r.0)
  {
    var val := StatusWord(hw, s);
    var s1 := ReadStatus(s);
    var err := And(val, Or(BIT(S_CLKT), BIT(S_ERR)));
    if err != 0 then
      (s1.(msgErr := err), Complete)
    else if Bit(val, S_DONE) then
      var d := if Reading(s) then Drain(hw, s1) else s1;
      var val' := if Reading(s) then StatusWord(hw, d) else val;
      var d' := if Reading(s) then ReadStatus(d) else d;
      (d'.(msgErr := if Bit(val', S_RXD) || d'.remaining > 0 then BIT(S_LEN) else 0), Complete)
    else if Bit(val, S_TXW) then
      if s1.remaining == 0 then
        (s1.(msgErr := Or(val, BIT(S_LEN))), Complete)
      else
        (Advance(Fill(hw, s1)), Handled)
    else if Bit(val, S_RXR) then
      if s1.remaining == 0 then
        (s1.(msgErr := Or(val, BIT(S_LEN))), Complete)
      else
        (Drain(hw, s1), Handled)
    else
      (s1, NotMine)
  }

  const CLOSING: seq<Write> :=
    [Write(REG_C, BIT(C_CLEAR)), Write(REG_S, Or(Or(BIT(S_CLKT), BIT(S_ERR)), BIT(S_DONE)))]

  function Finish(s: Dev): Dev {
    WriteReg(WriteReg(s, REG_C, BIT(C_CLEAR)), REG_S, Or(Or(BIT(S_CLKT), BIT(S_ERR)), BIT(S_DONE)))
      .(completed := true)
  }

  function Isr(hw: Hw, s: Dev): (r: Dev)
    requires Ok(s)
    ensures Ok(r)
  {
    var (s1, outcome) := IsrBody(hw, s);
    if outcome == Complete then Finish(s1) else s1
  }

  /** `n` interrupts, or fewer when the transfer completes first. */
  function Transfer(hw: Hw, s: Dev, n: nat): (r: Dev)
    requires Ok(s)
    ensures Ok(r)
    decreases n
  {
    if n == 0 || s.completed then s else Transfer(hw, Isr(hw, s), n - 1)
  }

  /** Only the last message may be a read. */
  predicate OnlyLastReads(msgs: seq<Msg>) {
    forall i :: 0 <= i < |msgs| - 1 ==> !msgs[i].rd
  }

  function DividerWrites(clk: nat, rate: nat): seq<Write>
    requires rate > 0
  {
    match Divider(clk, rate)
    case None => []
    case Some(d) => [Write(REG_DIV, d), Write(REG_DEL, Del(d))]
  }

  /** The state in which the first message has been started. */
  function Begin(s: Dev, msgs: seq<Msg>, clk: nat, rate: nat): (r: Dev)
    requires rate > 0
    ensures |msgs| > 0 ==> Ok(r)
  {
    Start(s.(writes := s.writes + DividerWrites(clk, rate),
             msgs := msgs, cur := 0, numMsgs := |msgs|, completed := false))
  }

  /** How a finished wait is reported. */
  function Report(s: Dev, num: nat): (Dev, Ret) {
    if !s.completed then (WriteReg(s, REG_C, BIT(C_CLEAR)), ETimedOut)
    else if s.msgErr == 0 then (s, Transferred(num))
    else if Bit(s.msgErr, S_ERR) then (s, ERemoteIo)
    else (s, EIo)
  }

  /** bcm2835_i2c_xfer, when `irqs` interrupts arrive before the timeout. */
  function Xfer(hw: Hw, s: Dev, msgs: seq<Msg>, clk: nat, rate: nat, irqs: nat): (Dev, Ret)
    requires rate > 0
  {
    if !OnlyLastReads(msgs) then (s, EOpNotSupp)
    else if Divider(clk, rate).None? then (s, EInval)
    else
      var b := Begin(s, msgs, clk, rate);
      Report(if |msgs| == 0 then b else Transfer(hw, b, irqs), |msgs|)
  }
}
