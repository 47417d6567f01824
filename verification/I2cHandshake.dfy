/** The handshake between driver and FIFO: a byte is written only when the controller has room for it,
    and read only when it has one, in every run. */
module I2cHandshake {
  import opened Words
  import opened Mmio
  import opened I2cDivider
  import opened I2cSpec
  import opened I2cProofs

  // ---- Each access answers a status read of its own ----

  /** The accesses at `at` follow distinct status reads among the first `seen`, each of which showed
      `bit` set. */
  ghost predicate Answers(hw: Hw, at: seq<nat>, bit: nat, seen: nat) {
    && (forall i :: 0 <= i < |at| ==> 0 < at[i] <= seen && Bit(hw.status(at[i] - 1), bit))
    && (forall i, j :: 0 <= i < j < |at| ==> at[i] < at[j])
  }

  /** Every byte written was asked for by TXD, every byte read was announced by RXD. */
  ghost predicate Obeys(hw: Hw, s: Dev) {
    Answers(hw, s.pushedAt, S_TXD, s.statusReads) && Answers(hw, s.pulledAt, S_RXD, s.statusReads)
  }

  lemma AnswersSnoc(hw: Hw, at: seq<nat>, bit: nat, seen: nat)
    requires Answers(hw, at, bit, seen)
    ensures Answers(hw, at, bit, seen + 1)
    ensures Bit(hw.status(seen), bit) ==> Answers(hw, at + [seen + 1], bit, seen + 1)
  {
    hide Bit;
  }

  lemma DataBits(hw: Hw, s: Dev)
    ensures Bit(StatusWord(hw, s), S_TXD) == Bit(hw.status(s.statusReads), S_TXD)
    ensures Bit(StatusWord(hw, s), S_RXD) == (Bit(hw.status(s.statusReads), S_RXD) && Bit(s.ctl, C_READ))
  {
    hide Bit, BIT, Or, AndNot;
  }

  // ---- The loops ----

  /** The status reads number `from` to `from + k - 1` all showed `bit`. */
  ghost predicate Shown(hw: Hw, from: nat, k: nat, bit: nat) {
    forall j: nat :: from <= j < from + k ==> Bit(hw.status(j), bit)
  }

  /** The numbers of `k` accesses that each follow one status read, the first being read `from`. */
  function Each(from: nat, k: nat): seq<nat> {
    seq(k, j requires 0 <= j < k => from + j + 1)
  }

  lemma EachCons(from: nat, k: nat)
    requires k > 0
    ensures Each(from, k) == [from + 1] + Each(from + 1, k - 1)
  {}

  /** Filling writes one byte for each status read that shows TXD, and stops at the first that does not,
      or when nothing is left. */
  lemma {:induction false} FillObeys(hw: Hw, s: Dev) returns (k: nat)
    requires Ok(s)
    ensures var r := Fill(hw, s);
            && r.pos == s.pos + k && r.remaining == s.remaining - k
            && Shown(hw, s.statusReads, k, S_TXD)
            && r.pushedAt == s.pushedAt + Each(s.statusReads, k) && r.pulledAt == s.pulledAt
            && (if r.remaining == 0 then r.statusReads == s.statusReads + k
                else r.statusReads == s.statusReads + k + 1 && !Bit(hw.status(s.statusReads + k), S_TXD))
    decreases s.remaining
  {
    hide Bit, StatusWord, AndNot;
    k := 0;
    DataBits(hw, s);
    if s.remaining > 0 && Bit(hw.status(s.statusReads), S_TXD) {
      var s1 := Pushed(s);
      k := FillObeys(hw, s1);
      assert Fill(hw, s) == Fill(hw, s1);
      hide Fill;
      k := k + 1;
      EachCons(s.statusReads, k);
      hide Each;
    }
  }

  /** One round of the filling loop. */
  function Pushed(s: Dev): (r: Dev)
    requires Ok(s) && s.remaining > 0
    ensures Ok(r) && r == PutByte(ReadStatus(s))
    ensures r.pos == s.pos + 1 && r.remaining == s.remaining - 1 && r.statusReads == s.statusReads + 1
    ensures r.pushedAt == s.pushedAt + [s.statusReads + 1] && r.pulledAt == s.pulledAt
  {
    PutByte(ReadStatus(s))
  }

  /** One round of the draining loop. */
  function Pulled(hw: Hw, s: Dev): (r: Dev)
    requires Ok(s) && s.remaining > 0
    ensures Ok(r) && r == StoreByte(hw, ReadStatus(s)) && r.ctl == s.ctl
    ensures r.pos == s.pos + 1 && r.remaining == s.remaining - 1 && r.statusReads == s.statusReads + 1
    ensures r.pulledAt == s.pulledAt + [s.statusReads + 1] && r.pushedAt == s.pushedAt
  {
    StoreByte(hw, ReadStatus(s))
  }

  /** Draining reads one byte for each status read that shows RXD, and stops at the first that does not,
      or when nothing is left. */
  lemma {:induction false} DrainObeys(hw: Hw, s: Dev) returns (k: nat)
    requires Ok(s)
    ensures var r := Drain(hw, s);
            && r.pos == s.pos + k && r.remaining == s.remaining - k && r.ctl == s.ctl
            && Shown(hw, s.statusReads, k, S_RXD) && (k > 0 ==> Bit(s.ctl, C_READ))
            && r.pulledAt == s.pulledAt + Each(s.statusReads, k) && r.pushedAt == s.pushedAt
            && (if r.remaining == 0 then r.statusReads == s.statusReads + k
                else r.statusReads == s.statusReads + k + 1
                     && !(Bit(s.ctl, C_READ) && Bit(hw.status(s.statusReads + k), S_RXD)))
    decreases s.remaining
  {
    hide Bit, StatusWord;
    k := 0;
    DataBits(hw, s);
    if s.remaining > 0 && Bit(s.ctl, C_READ) && Bit(hw.status(s.statusReads), S_RXD) {
      var s1 := Pulled(hw, s);
      k := DrainObeys(hw, s1);
      assert Drain(hw, s) == Drain(hw, s1);
      hide Drain;
      k := k + 1;
      EachCons(s.statusReads, k);
      hide Each;
    }
  }

  // ---- Runs ----

  lemma {:induction false} AnswersEach(hw: Hw, at: seq<nat>, bit: nat, seen: nat, k: nat)
    requires Answers(hw, at, bit, seen) && Shown(hw, seen, k, bit)
    ensures Answers(hw, at + Each(seen, k), bit, seen + k)
    decreases k
  {
    hide Bit;
    if k == 0 {
      assert at + Each(seen, 0) == at;
    } else {
      EachCons(seen, k);
      AnswersSnoc(hw, at, bit, seen);
      AnswersEach(hw, at + [seen + 1], bit, seen + 1, k - 1);
      assert at + Each(seen, k) == at + [seen + 1] + Each(seen + 1, k - 1);
    }
  }

  lemma AnswersMore(hw: Hw, at: seq<nat>, bit: nat, seen: nat, more: nat)
    requires Answers(hw, at, bit, seen) && seen <= more
    ensures Answers(hw, at, bit, more)
  {
    hide Bit;
  }

  lemma FillKeepsFaith(hw: Hw, s: Dev)
    requires Ok(s) && Obeys(hw, s)
    ensures Obeys(hw, Fill(hw, s))
  {
    hide Fill, Answers;
    var k := FillObeys(hw, s);
    AnswersEach(hw, s.pushedAt, S_TXD, s.statusReads, k);
    AnswersMore(hw, Fill(hw, s).pushedAt, S_TXD, s.statusReads + k, Fill(hw, s).statusReads);
    AnswersMore(hw, s.pulledAt, S_RXD, s.statusReads, Fill(hw, s).statusReads);
  }

  lemma DrainKeepsFaith(hw: Hw, s: Dev)
    requires Ok(s) && Obeys(hw, s)
    ensures Obeys(hw, Drain(hw, s))
  {
    hide Drain, Answers, Bit;
    var k := DrainObeys(hw, s);
    AnswersEach(hw, s.pulledAt, S_RXD, s.statusReads, k);
    AnswersMore(hw, Drain(hw, s).pulledAt, S_RXD, s.statusReads + k, Drain(hw, s).statusReads);
    AnswersMore(hw, s.pushedAt, S_TXD, s.statusReads, Drain(hw, s).statusReads);
  }

  lemma ReadKeepsFaith(hw: Hw, s: Dev)
    requires Obeys(hw, s)
    ensures Obeys(hw, ReadStatus(s))
  {
    hide Answers;
    AnswersMore(hw, s.pushedAt, S_TXD, s.statusReads, s.statusReads + 1);
    AnswersMore(hw, s.pulledAt, S_RXD, s.statusReads, s.statusReads + 1);
  }

  /** Steps that leave the FIFO and the status register alone. */
  lemma QuietKeepsFaith(hw: Hw, s: Dev, r: Dev)
    requires Obeys(hw, s)
    requires r.pushedAt == s.pushedAt && r.pulledAt == s.pulledAt && r.statusReads == s.statusReads
    ensures Obeys(hw, r)
  {
    hide Answers;
  }

  lemma StartIsQuiet(s: Dev)
    requires s.numMsgs > 0 ==> 0 <= s.cur && s.cur + s.numMsgs <= |s.msgs|
    ensures var r := Start(s);
            r.pushedAt == s.pushedAt && r.pulledAt == s.pulledAt && r.statusReads == s.statusReads
  {
    hide StartWord;
  }

  lemma IsrKeepsFaith(hw: Hw, s: Dev)
    requires Ok(s) && Obeys(hw, s)
    ensures Obeys(hw, IsrBody(hw, s).0)
  {
    hide Obeys, AndNot, And, Or, BIT, Bit, Fill, Drain, Start, StatusWord;
    var s1, r := ReadStatus(s), IsrBody(hw, s).0;
    ReadKeepsFaith(hw, s);
    FillKeepsFaith(hw, s1);
    DrainKeepsFaith(hw, s1);
    var f, d := Fill(hw, s1), Drain(hw, s1);
    ReadKeepsFaith(hw, d);
    if f.numMsgs > 0 {
      StartIsQuiet(f.(cur := f.cur + 1));
      QuietKeepsFaith(hw, f, Start(f.(cur := f.cur + 1)));
    }
    forall u | u in {s1, ReadStatus(d)} ensures Obeys(hw, u.(msgErr := r.msgErr)) {
      QuietKeepsFaith(hw, u, u.(msgErr := r.msgErr));
    }
  }

  lemma FinishIsQuiet(s: Dev)
    ensures var r := Finish(s);
            r.pushedAt == s.pushedAt && r.pulledAt == s.pulledAt && r.statusReads == s.statusReads
  {
    hide Or, BIT;
  }

  lemma {:induction false} TransferObeys(hw: Hw, s: Dev, n: nat)
    requires Ok(s) && Obeys(hw, s)
    ensures Obeys(hw, Transfer(hw, s, n))
    decreases n
  {
    hide Obeys, IsrBody, Finish, Ok;
    if n > 0 && !s.completed {
      IsrKeepsFaith(hw, s);
      var r := IsrBody(hw, s).0;
      FinishIsQuiet(r);
      QuietKeepsFaith(hw, r, Finish(r));
      TransferObeys(hw, Isr(hw, s), n - 1);
    }
  }

  lemma BeginIsQuiet(s: Dev, msgs: seq<Msg>, clk: nat, rate: nat)
    requires rate > 0
    ensures var r := Begin(s, msgs, clk, rate);
            r.pushedAt == s.pushedAt && r.pulledAt == s.pulledAt && r.statusReads == s.statusReads
  {
    hide StartWord, DividerWrites;
  }

  lemma ReportIsQuiet(s: Dev, num: nat)
    ensures var r := Report(s, num).0;
            r.pushedAt == s.pushedAt && r.pulledAt == s.pulledAt && r.statusReads == s.statusReads
  {
    hide Bit, BIT;
  }

  /** In every transfer, however it ends: each byte written to the FIFO answers a status read of its own
      that showed TXD, and each byte taken from it one that showed RXD. */
  lemma XferObeys(hw: Hw, s: Dev, msgs: seq<Msg>, clk: nat, rate: nat, irqs: nat)
    requires rate > 0 && Obeys(hw, s)
    ensures Obeys(hw, Xfer(hw, s, msgs, clk, rate, irqs).0)
  {
    hide Obeys, Begin, Transfer, Report, Divider, OnlyLastReads;
    var b := Begin(s, msgs, clk, rate);
    BeginIsQuiet(s, msgs, clk, rate);
    QuietKeepsFaith(hw, s, b);
    if |msgs| > 0 { TransferObeys(hw, b, irqs); }
    var u := if |msgs| == 0 then b else Transfer(hw, b, irqs);
    ReportIsQuiet(u, |msgs|);
    QuietKeepsFaith(hw, u, Report(u, |msgs|).0);
  }

  // ---- A FIFO of bounded size ----

  /** How many of the accesses came before status read number `r`. */
  function Before(at: seq<nat>, r: nat): nat {
    if at == [] then 0 else Before(at[..|at| - 1], r) + (if at[|at| - 1] <= r then 1 else 0)
  }

  lemma {:induction false} BeforeEvery(at: seq<nat>, r: nat)
    requires forall i :: 0 <= i < |at| ==> at[i] <= r
    ensures Before(at, r) == |at|
  {
    if at != [] { BeforeEvery(at[..|at| - 1], r); }
  }

  lemma {:induction false} BeforeNone(at: seq<nat>, r: nat)
    requires forall i :: 0 <= i < |at| ==> at[i] > r
    ensures Before(at, r) == 0
  {
    if at != [] { BeforeNone(at[..|at| - 1], r); }
  }

  lemma {:induction false} BeforeConcat(a: seq<nat>, b: seq<nat>, r: nat)
    ensures Before(a + b, r) == Before(a, r) + Before(b, r)
    decreases |b|
  {
    if b == [] {
      assert a + b == a;
    } else {
      assert (a + b)[..|a + b| - 1] == a + b[..|b| - 1];
      BeforeConcat(a, b[..|b| - 1], r);
    }
  }

  /** Exactly `i` accesses came before the status read that access number `i` answers. */
  lemma BeforeOwn(at: seq<nat>, i: nat)
    requires i < |at| && at[i] > 0 && forall j, k :: 0 <= j < k < |at| ==> at[j] < at[k]
    ensures Before(at, at[i] - 1) == i
  {
    hide Before;
    var front, rest, r := at[..i], at[i..], at[i] - 1;
    forall j | 0 <= j < |rest| ensures rest[j] > r { assert rest[j] == at[i + j]; }
    BeforeEvery(front, r);
    BeforeNone(rest, r);
    assert at == front + rest;
    BeforeConcat(front, rest, r);
  }

  /** TXD, bit 4, means room: when a read of the status shows it, fewer than `size` of the bytes written so far
      are still in the FIFO. `gone(r)` is how many have left it by status read `r`. */
  ghost predicate RoomWhenTold(hw: Hw, pushedAt: seq<nat>, size: nat, gone: nat -> nat) {
    forall r: nat :: Bit(hw.status(r), 4) ==> Before(pushedAt, r) < size + gone(r)
  }

  /** RXD, bit 5, means a byte: when a read of the status shows it, more have arrived than were taken. */
  ghost predicate ByteWhenTold(hw: Hw, pulledAt: seq<nat>, arrived: nat -> nat) {
    forall r: nat :: Bit(hw.status(r), 5) ==> Before(pulledAt, r) < arrived(r)
  }

  /** With a controller whose TXD and RXD tell the truth, whatever the size of its FIFO and however fast
      it works, no transfer ever writes a byte that does not fit or reads a byte that is not there. */
  lemma FifoNeverOverrun(hw: Hw, s: Dev, msgs: seq<Msg>, clk: nat, rate: nat, irqs: nat,
                         size: nat, gone: nat -> nat, arrived: nat -> nat)
    requires rate > 0 && Obeys(hw, s)
    requires RoomWhenTold(hw, Xfer(hw, s, msgs, clk, rate, irqs).0.pushedAt, size, gone)
    requires ByteWhenTold(hw, Xfer(hw, s, msgs, clk, rate, irqs).0.pulledAt, arrived)
    ensures var t := Xfer(hw, s, msgs, clk, rate, irqs).0;
            && (forall i :: 0 <= i < |t.pushedAt| ==>
                  t.pushedAt[i] > 0 && i + 1 - gone(t.pushedAt[i] - 1) <= size)
            && (forall i :: 0 <= i < |t.pulledAt| ==>
                  t.pulledAt[i] > 0 && i + 1 <= arrived(t.pulledAt[i] - 1))
  {
    XferObeys(hw, s, msgs, clk, rate, irqs) by { hide *; }
    hide Xfer, Bit, Before;
    var t := Xfer(hw, s, msgs, clk, rate, irqs).0;
    forall i | 0 <= i < |t.pushedAt| ensures t.pushedAt[i] > 0 && i + 1 - gone(t.pushedAt[i] - 1) <= size {
      BeforeOwn(t.pushedAt, i);
    }
    forall i | 0 <= i < |t.pulledAt| ensures t.pulledAt[i] > 0 && i + 1 <= arrived(t.pulledAt[i] - 1) {
      BeforeOwn(t.pulledAt, i);
    }
  }
}
