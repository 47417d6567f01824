/** The iProc chained interrupt handler: a scan over any number of banks. */
module IprocIrq {
  import opened BitScan
  import opened Words
  import opened IprocSpec

  /** What the handler does that others can see, in order. */
  datatype Event =
    | Cleared(reg: nat, val: nat)   // a write to a bank's interrupt clear register
    | Handled(pin: nat)             // a call of the pin's own handler

  function ClearOf(pin: nat): Event {
    Cleared(0x200 * (pin / 32) + 0x24, BIT(pin % 32))
  }

  /** The events of one bank whose masked status reads `val`, up to its bit `k`. */
  function BankEvents(val: nat, bank: nat, k: nat): seq<Event> {
    if k == 0 then []
    else
      BankEvents(val, bank, k - 1)
      + (if Bit(val, k - 1)
         then [Cleared(bank * GPIO_BANK_SIZE + INT_CLR, BIT(k - 1)), Handled(32 * bank + (k - 1))] else [])
  }

  /** iproc_gpio_irq_handler over `n` banks; `status(b)` is what the masked status of bank `b` reads. */
  function Events(status: nat -> nat, n: nat): seq<Event> {
    if n == 0 then [] else Events(status, n - 1) + BankEvents(status(n - 1), n - 1, 32)
  }

  /** The pins whose handlers are called, in order. */
  function HandledIn(es: seq<Event>): seq<nat>
    decreases |es|
  {
    if es == [] then []
    else
      var front := HandledIn(es[..|es| - 1]);
      if es[|es| - 1].Handled? then front + [es[|es| - 1].pin] else front
  }

  lemma {:induction false} HandledConcat(a: seq<Event>, b: seq<Event>)
    ensures HandledIn(a + b) == HandledIn(a) + HandledIn(b)
    decreases |b|
  {
    if b == [] {
      assert a + b == a;
    } else {
      assert (a + b)[..|a + b| - 1] == a + b[..|b| - 1];
      HandledConcat(a, b[..|b| - 1]);
    }
  }

  lemma {:induction false} BankHandled(val: nat, bank: nat, k: nat)
    ensures HandledIn(BankEvents(val, bank, k)) == PinsOf(val, bank, k)
  {
    hide Bit, BIT;
    if k > 0 {
      BankHandled(val, bank, k - 1);
      var two := [Cleared(bank * GPIO_BANK_SIZE + INT_CLR, BIT(k - 1)), Handled(32 * bank + (k - 1))];
      assert two[..1] == [two[0]] && two[..1][..0] == [];
      assert HandledIn(two[..1]) == [];
      assert HandledIn(two) == [32 * bank + (k - 1)];
      HandledConcat(BankEvents(val, bank, k - 1), if Bit(val, k - 1) then two else []);
    }
  }

  /** Each pin whose status bit is set in one of the banks is handled exactly once, in ascending
      order, and no other pin is. */
  lemma {:induction false} HandledExact(status: nat -> nat, n: nat, p: nat)
    ensures p in HandledIn(Events(status, n)) <==> Bank(p) < n && Bit(status(Bank(p)), Shift(p))
    ensures Increasing(HandledIn(Events(status, n)))
    ensures forall q :: q in HandledIn(Events(status, n)) ==> q < 32 * n
  {
    hide Bit, BankEvents, HandledIn, Increasing;
    if n == 0 {
      NoneHandled();
    } else {
      HandledExact(status, n - 1, p);
      var a := Events(status, n - 1);
      var b := BankEvents(status(n - 1), n - 1, 32);
      HandledConcat(a, b);
      BankHandled(status(n - 1), n - 1, 32);
      PinsOfExact(status(n - 1), n - 1, 32);
      IncreasingConcat(HandledIn(a), HandledIn(b), 32 * (n - 1));
      assert p == 32 * Bank(p) + Shift(p);
      hide PinsOf;
      assert Bank(p) == n - 1 <==> 32 * (n - 1) <= p < 32 * n;
    }
  }

  lemma NoneHandled()
    ensures HandledIn([]) == [] && Increasing([])
  {}

  /** Every handler call comes right after the clearing of its own bit, and every clear right before
      the call it belongs to. */
  ghost predicate ClearedFirst(es: seq<Event>) {
    forall i :: 0 <= i < |es| ==> Paired(es, i)
  }

  predicate Paired(es: seq<Event>, i: nat)
    requires i < |es|
  {
    if es[i].Handled? then i > 0 && es[i - 1] == ClearOf(es[i].pin)
    else i + 1 < |es| && es[i + 1].Handled? && es[i] == ClearOf(es[i + 1].pin)
  }

  lemma ClearedConcat(a: seq<Event>, b: seq<Event>)
    requires ClearedFirst(a) && ClearedFirst(b)
    ensures ClearedFirst(a + b)
  {
    hide ClearOf;
    forall i | 0 <= i < |a + b| ensures Paired(a + b, i) {
      if i < |a| { assert Paired(a, i); } else { assert Paired(b, i - |a|); }
    }
  }

  lemma {:induction false} BankClearedFirst(val: nat, bank: nat, k: nat)
    requires k <= 32
    ensures ClearedFirst(BankEvents(val, bank, k))
  {
    hide Bit, BIT;
    if k > 0 {
      BankClearedFirst(val, bank, k - 1);
      var p := 32 * bank + (k - 1);
      assert Bank(p) == bank && Shift(p) == k - 1;
      assert Paired([ClearOf(p), Handled(p)], 0) && Paired([ClearOf(p), Handled(p)], 1);
      assert ClearedFirst([ClearOf(p), Handled(p)]);
      hide ClearedFirst;
      if Bit(val, k - 1) {
        ClearedConcat(BankEvents(val, bank, k - 1), [ClearOf(p), Handled(p)]);
      } else {
        assert BankEvents(val, bank, k) == BankEvents(val, bank, k - 1);
      }
    }
  }

  lemma {:induction false} AlwaysClearedFirst(status: nat -> nat, n: nat)
    ensures ClearedFirst(Events(status, n))
  {
    hide BankEvents;
    if n > 0 {
      AlwaysClearedFirst(status, n - 1);
      BankClearedFirst(status(n - 1), n - 1, 32);
      ClearedConcat(Events(status, n - 1), BankEvents(status(n - 1), n - 1, 32));
    }
  }

  // ---- How many banks ----

  /** The number of banks that probe computes in 32-bit arithmetic. */
  function NumBanks(ngpios: nat): nat {
    (ngpios + 31) % 0x1_0000_0000 / 32
  }

  /** The scan reaches every pin of the controller exactly when the rounding up does not wrap. */
  lemma BanksCoverIff(ngpios: nat)
    requires ngpios < 0x1_0000_0000
    ensures (forall p :: 0 <= p < ngpios ==> Bank(p) < NumBanks(ngpios)) <==> ngpios + 31 < 0x1_0000_0000
  {
    if ngpios + 31 >= 0x1_0000_0000 {
      assert NumBanks(ngpios) == 0;
      assert Bank(0) == 0;
    }
  }

  /** A gpio_chip holds its number of pins in 16 bits. For every such number the scan calls the handler
      of a pin exactly when its status bit is set, and it reads exactly the banks that have a pin. */
  lemma ScanCovers(status: nat -> nat, ngpios: nat, p: nat)
    requires p < ngpios < 0x1_0000
    ensures p in HandledIn(Events(status, NumBanks(ngpios))) <==> Bit(status(Bank(p)), Shift(p))
    ensures forall b :: 0 <= b < NumBanks(ngpios) <==> 0 <= 32 * b < ngpios
  {
    hide Bit, HandledIn, Events;
    HandledExact(status, NumBanks(ngpios), p);
  }
}
