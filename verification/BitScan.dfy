/** for_each_set_bit over a word that holds one bit for each pin of a bank. */
module BitScan {
  import opened Words

  /** The pins of a bank whose bit is set among the `k` lowest of `events`, in ascending order. */
  function PinsOf(events: nat, bank: nat, k: nat): seq<nat> {
    if k == 0 then []
    else PinsOf(events, bank, k - 1) + (if Bit(events, k - 1) then [32 * bank + (k - 1)] else [])
  }

  lemma PinsOfNone(events: nat, bank: nat)
    ensures PinsOf(events, bank, 0) == []
  {}

  lemma PinsOfNext(events: nat, bank: nat, k: nat)
    ensures PinsOf(events, bank, k + 1) == PinsOf(events, bank, k) + if Bit(events, k) then [32 * bank + k] else []
    ensures !Bit(events, k) ==> PinsOf(events, bank, k + 1) == PinsOf(events, bank, k)
  {}

  ghost predicate Increasing(a: seq<nat>) {
    forall i, j :: 0 <= i < j < |a| ==> a[i] < a[j]
  }

  lemma {:induction false} PinsOfExact(events: nat, bank: nat, k: nat)
    ensures forall p :: p in PinsOf(events, bank, k) <==> 32 * bank <= p < 32 * bank + k && Bit(events, p - 32 * bank)
    ensures Increasing(PinsOf(events, bank, k))
  {
    hide Bit;
    if k > 0 {
      PinsOfExact(events, bank, k - 1);
      var a := PinsOf(events, bank, k - 1);
      var b := PinsOf(events, bank, k);
      assert forall i :: 0 <= i < |a| ==> a[i] in a && b[i] == a[i];
      forall p ensures p in b <==> 32 * bank <= p < 32 * bank + k && Bit(events, p - 32 * bank) {
        if 0 <= p - 32 * bank && p != 32 * bank + (k - 1) { assert p in b <==> p in a; }
      }
    }
  }

  lemma IncreasingConcat(a: seq<nat>, b: seq<nat>, m: nat)
    requires Increasing(a) && Increasing(b)
    requires (forall p :: p in a ==> p < m) && (forall p :: p in b ==> p >= m)
    ensures Increasing(a + b)
  {
    forall i, j | 0 <= i < j < |a + b| ensures (a + b)[i] < (a + b)[j] {
      if i < |a| { assert (a + b)[i] in a; }
      if j >= |a| { assert (a + b)[j] in b; }
    }
  }
}
