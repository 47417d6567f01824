/** The device-tree map builder of the BCM2835 pin controller: bcm2835_pctl_dt_node_to_map and
    bcm2835_pctl_dt_free_map, over a heap that knows which allocations are live.

    A property is given by its 32-bit cells. Group and pin names are in one-to-one
    correspondence with pin numbers and function names with function numbers, so the map holds the numbers. */
module PinctrlDtMap {
  import opened Words
  import opened Wrappers

  const NUM_GPIOS: nat := 54
  const FSEL_COUNT: nat := 8
  const PARAM_PULL: nat := 0

  datatype Node = Node(pins: Option<seq<nat>>, funcs: Option<seq<nat>>, pulls: Option<seq<nat>>)

  /** struct pinctrl_map; `ptr` is the allocation that holds the configuration. */
  datatype Entry = Invalid | MuxGroup(group: nat, func: nat) | ConfigsPin(pin: nat, ptr: nat, config: nat)

  datatype Ret = Done | EInval | ENoMem

  /** BCM2835_PINCONF_PACK */
  function Pack(param: nat, arg: nat): nat { Or(Shl(param, 16), arg) }

  /** The two halves of a packed configuration come back as BCM2835_PINCONF_UNPACK_PARAM and
      BCM2835_PINCONF_UNPACK_ARG take them out. */
  lemma PackUnpacks(param: nat, arg: nat)
    requires Within(arg, 16)
    ensures Shr(Pack(param, arg), 16) == param && And(Pack(param, arg), Mask(16)) == arg
  {
    hide Bit, Or, And, Shl, Shr, Mask;
    var w := Pack(param, arg);
    forall i: nat ensures Bit(Shr(w, 16), i) == Bit(param, i) {}
    Extensional(Shr(w, 16), param);
    forall i: nat ensures Bit(And(w, Mask(16)), i) == Bit(arg, i) {}
    Extensional(And(w, Mask(16)), arg);
  }

  // ---- What a node asks for ----

  function Cells(prop: Option<seq<nat>>): seq<nat> {
    if prop.Some? then prop.value else []
  }

  /** The value for pin `i`: its own, or the one that all pins share. */
  function CellFor(cells: seq<nat>, i: nat): nat
    requires |cells| == 1 || i < |cells|
  {
    if |cells| > 1 then cells[i] else cells[0]
  }

  /** The node passes the checks made before anything is allocated. */
  predicate Consistent(n: Node) {
    && n.pins.Some?
    && (n.funcs.Some? || n.pulls.Some?)
    && (|Cells(n.funcs)| > 1 ==> |Cells(n.funcs)| == |n.pins.value|)
    && (|Cells(n.pulls)| > 1 ==> |Cells(n.pulls)| == |n.pins.value|)
  }

  function PerPin(n: Node): nat {
    (if Cells(n.funcs) != [] then 1 else 0) + (if Cells(n.pulls) != [] then 1 else 0)
  }

  /** The entries for pin `i`, with the configuration's address left out. */
  function WantedFor(n: Node, i: nat): (r: seq<Entry>)
    requires Consistent(n) && i < |n.pins.value|
    ensures |r| == PerPin(n)
  {
    var pin := n.pins.value[i];
    (if Cells(n.funcs) != [] then [MuxGroup(pin, CellFor(Cells(n.funcs), i))] else [])
    + (if Cells(n.pulls) != [] then [ConfigsPin(pin, 0, Pack(PARAM_PULL, CellFor(Cells(n.pulls), i)))] else [])
  }

  function Wanted(n: Node, k: nat): (r: seq<Entry>)
    requires Consistent(n) && k <= |n.pins.value|
    ensures |r| == k * PerPin(n)
  {
    if k == 0 then [] else Wanted(n, k - 1) + WantedFor(n, k - 1)
  }

  function Anonymous(e: Entry): Entry {
    if e.ConfigsPin? then e.(ptr := 0) else e
  }

  /** The outcome for pin `i`, when the next allocation attempt is number `calls`. */
  function PinOutcome(n: Node, i: nat, calls: nat, fails: nat -> bool): Ret
    requires Consistent(n) && i < |n.pins.value|
  {
    if n.pins.value[i] >= NUM_GPIOS then EInval
    else if Cells(n.funcs) != [] && CellFor(Cells(n.funcs), i) >= FSEL_COUNT then EInval
    else if Cells(n.pulls) != [] && CellFor(Cells(n.pulls), i) > 2 then EInval
    else if Cells(n.pulls) != [] && fails(calls) then ENoMem
    else Done
  }

  /** The outcome from pin `i` on: that of the first pin that is not Done. */
  function Outcome(n: Node, i: nat, calls: nat, fails: nat -> bool): Ret
    requires Consistent(n) && i <= |n.pins.value|
    decreases (if n.pins.Some? then |n.pins.value| else 0) - i
  {
    if i == |n.pins.value| then Done
    else if PinOutcome(n, i, calls, fails) != Done then PinOutcome(n, i, calls, fails)
    else Outcome(n, i + 1, if Cells(n.pulls) != [] then calls + 1 else calls, fails)
  }

  /** Every value that is used is in range, shared or not. */
  predicate InRange(n: Node) {
    n.pins.Some? && n.pins.value != [] ==>
      && (forall p :: p in n.pins.value ==> p < 54)
      && (forall f :: f in Cells(n.funcs) ==> f < 8)
      && (forall p :: p in Cells(n.pulls) ==> p <= 2)
  }

  /** The checks before the allocation: a property has no cell, one that all pins share, or one a pin. */
  lemma ConsistentIff(n: Node)
    ensures Consistent(n) <==>
              && n.pins.Some? && !(n.funcs.None? && n.pulls.None?)
              && |Cells(n.funcs)| in {0, 1, |Cells(n.pins)|} && |Cells(n.pulls)| in {0, 1, |Cells(n.pins)|}
  {}

  /** The value for pin `i`, shared or its own. */
  function Own(cells: seq<nat>, i: nat): nat
    requires cells != [] && (|cells| != 1 ==> i < |cells|)
  {
    if |cells| == 1 then cells[0] else cells[i]
  }

  predicate PinInRange(n: Node, i: nat)
    requires Consistent(n) && i < |n.pins.value|
  {
    && n.pins.value[i] < 54
    && (Cells(n.funcs) != [] ==> Own(Cells(n.funcs), i) < 8)
    && (Cells(n.pulls) != [] ==> Own(Cells(n.pulls), i) <= 2)
  }

  lemma PinDone(n: Node, i: nat, calls: nat, fails: nat -> bool)
    requires Consistent(n) && i < |n.pins.value|
    ensures PinOutcome(n, i, calls, fails) == Done ==> PinInRange(n, i)
    ensures PinInRange(n, i) && !fails(calls) ==> PinOutcome(n, i, calls, fails) == Done
  {}

  lemma {:induction false} DoneIff(n: Node, i: nat, calls: nat, fails: nat -> bool)
    requires Consistent(n) && i <= |n.pins.value|
    ensures Outcome(n, i, calls, fails) == Done ==> forall j :: i <= j < |n.pins.value| ==> PinInRange(n, j)
    ensures (forall c: nat :: !fails(c)) && (forall j :: i <= j < |n.pins.value| ==> PinInRange(n, j)) ==>
              Outcome(n, i, calls, fails) == Done
    decreases |n.pins.value| - i
  {
    hide PinOutcome, PinInRange;
    if i < |n.pins.value| {
      PinDone(n, i, calls, fails);
      DoneIff(n, i + 1, if Cells(n.pulls) != [] then calls + 1 else calls, fails);
    }
  }

  /** Which check fails first: every error is that of the first pin that is out of range or, with a pull to
      store, finds no memory, and all pins before it passed. */
  lemma {:induction false} FirstFailure(n: Node, i: nat, calls: nat, fails: nat -> bool) returns (k: nat)
    requires Consistent(n) && i <= |n.pins.value|
    ensures i <= k <= |n.pins.value|
    ensures var pulls := Cells(n.pulls) != [];
            && (forall j :: i <= j < k ==> PinInRange(n, j))
            && (pulls ==> forall c: nat :: calls <= c < calls + k - i ==> !fails(c))
            && Outcome(n, i, calls, fails) ==
                 (if k == |n.pins.value| then Done else if PinInRange(n, k) then ENoMem else EInval)
            && (k < |n.pins.value| && PinInRange(n, k) ==> pulls && fails(calls + k - i))
    decreases |n.pins.value| - i
  {
    k := i;
    if i < |n.pins.value| {
      PinFails(n, i, calls, fails);
      hide PinOutcome;
      if PinOutcome(n, i, calls, fails) == Done {
        var pulls := Cells(n.pulls) != [];
        var next := if pulls then calls + 1 else calls;
        k := FirstFailure(n, i + 1, next, fails);
      }
    }
  }

  lemma PinFails(n: Node, i: nat, calls: nat, fails: nat -> bool)
    requires Consistent(n) && i < |n.pins.value|
    ensures PinOutcome(n, i, calls, fails) ==
              if !PinInRange(n, i) then EInval
              else if Cells(n.pulls) != [] && fails(calls) then ENoMem else Done
  {}

  lemma CellsInRange(n: Node)
    requires Consistent(n)
    ensures InRange(n) <==> forall i :: 0 <= i < |n.pins.value| ==> PinInRange(n, i)
  {
    var pins, funcs, pulls := n.pins.value, Cells(n.funcs), Cells(n.pulls);
    if pins != [] && forall i :: 0 <= i < |pins| ==> PinInRange(n, i) {
      forall f | f in funcs ensures f < 8 {
        var i :| 0 <= i < |funcs| && funcs[i] == f;
        assert PinInRange(n, i);
      }
      forall p | p in pulls ensures p <= 2 {
        var i :| 0 <= i < |pulls| && pulls[i] == p;
        assert PinInRange(n, i);
      }
      forall p | p in pins ensures p < 54 {
        var i :| 0 <= i < |pins| && pins[i] == p;
        assert PinInRange(n, i);
      }
    } else if InRange(n) {
      forall i | 0 <= i < |pins| ensures PinInRange(n, i) {
        assert pins[i] in pins;
        assert funcs != [] ==> Own(funcs, i) in funcs;
        assert pulls != [] ==> Own(pulls, i) in pulls;
      }
    }
  }

  /** With enough memory the builder succeeds exactly on the nodes whose values are all in range. */
  lemma InRangeIff(n: Node, calls: nat, fails: nat -> bool)
    requires Consistent(n) && forall c: nat :: !fails(c)
    ensures InRange(n) <==> Outcome(n, 0, calls, fails) == Done
  {
    hide InRange, PinInRange, Outcome, Consistent;
    DoneIff(n, 0, calls, fails);
    CellsInRange(n);
  }

  // ---- The map, pin by pin ----

  /** Each pin has its entries one after the other: a function, shared or its own, and then a pull. */
  ghost predicate MapsEach(pins: seq<nat>, funcs: seq<nat>, pulls: seq<nat>, maps: seq<Entry>) {
    var per := (if funcs == [] then 0 else 1) + (if pulls == [] then 0 else 1);
    && |maps| == |pins| * per
    && (forall i :: 0 <= i < |pins| && funcs != [] ==> HasFunc(maps, i * per, pins[i], funcs, i))
    && (forall i :: 0 <= i < |pins| && pulls != [] ==> HasPull(maps, i * per + per - 1, pins[i], pulls, i))
  }

  predicate HasFunc(maps: seq<Entry>, at: nat, pin: nat, funcs: seq<nat>, i: nat) {
    && at < |maps| && funcs != [] && (|funcs| == 1 || i < |funcs|)
    && maps[at] == MuxGroup(pin, Own(funcs, i))
  }

  predicate HasPull(maps: seq<Entry>, at: int, pin: nat, pulls: seq<nat>, i: nat) {
    && 0 <= at < |maps| && pulls != [] && (|pulls| == 1 || i < |pulls|)
    && SetsPull(maps[at], pin, Own(pulls, i))
  }

  /** The entry configures the pull of a pin, as the macros that unpack it read it. */
  predicate SetsPull(e: Entry, pin: nat, pull: nat) {
    e.ConfigsPin? && e.pin == pin && Shr(e.config, 16) == 0 && And(e.config, Mask(16)) == pull
  }

  lemma {:induction false} WantedAt(n: Node, k: nat, i: nat, j: nat, at: nat)
    requires Consistent(n) && i < k <= |n.pins.value| && j < PerPin(n) && at == i * PerPin(n) + j
    ensures at < |Wanted(n, k)| && Wanted(n, k)[at] == WantedFor(n, i)[j]
    decreases k
  {
    hide PerPin, WantedFor, Consistent;
    RoomFor(i, k, PerPin(n));
    if i < k - 1 {
      RoomFor(i, k - 1, PerPin(n));
      WantedAt(n, k - 1, i, j, at);
    } else {
      assert Wanted(n, k)[at] == (Wanted(n, k - 1) + WantedFor(n, k - 1))[|Wanted(n, k - 1)| + j];
    }
  }

  lemma SmallWithin(w: nat)
    requires w <= 2
    ensures Within(w, 16)
  {
    hide Bit, Within;
    Powers();
    Fits(w, 16);
  }

  /** A map that holds what was wanted holds for each pin what its node says. */
  lemma WantedMapsEach(n: Node, maps: seq<Entry>)
    requires Consistent(n) && (forall i :: 0 <= i < |n.pins.value| ==> PinInRange(n, i))
    requires |maps| == |n.pins.value| * PerPin(n)
    requires forall i :: 0 <= i < |maps| ==> Anonymous(maps[i]) == Wanted(n, |n.pins.value|)[i]
    ensures MapsEach(n.pins.value, Cells(n.funcs), Cells(n.pulls), maps)
  {
    hide Wanted, PinInRange, HasFunc, HasPull, Anonymous;
    var pins, funcs, pulls, per := n.pins.value, Cells(n.funcs), Cells(n.pulls), PerPin(n);
    forall i | 0 <= i < |pins|
      ensures funcs != [] ==> HasFunc(maps, i * per, pins[i], funcs, i)
      ensures pulls != [] ==> HasPull(maps, i * per + per - 1, pins[i], pulls, i)
    {
      RoomFor(i, |pins|, per);
      if funcs != [] { FuncOf(n, maps, i, i * per); }
      if pulls != [] { PullOf(n, maps, i, i * per + per - 1); }
    }
  }

  lemma FuncOf(n: Node, maps: seq<Entry>, i: nat, at: nat)
    requires Consistent(n) && i < |n.pins.value| && Cells(n.funcs) != [] && at == i * PerPin(n)
    requires at < |maps| && at < |Wanted(n, |n.pins.value|)| && Anonymous(maps[at]) == Wanted(n, |n.pins.value|)[at]
    ensures HasFunc(maps, at, n.pins.value[i], Cells(n.funcs), i)
  {
    WantedAt(n, |n.pins.value|, i, 0, at);
    hide Wanted;
  }

  lemma PullOf(n: Node, maps: seq<Entry>, i: nat, at: nat)
    requires Consistent(n) && i < |n.pins.value| && Cells(n.pulls) != [] && PinInRange(n, i)
    requires at == i * PerPin(n) + PerPin(n) - 1
    requires at < |maps| && at < |Wanted(n, |n.pins.value|)| && Anonymous(maps[at]) == Wanted(n, |n.pins.value|)[at]
    ensures HasPull(maps, at, n.pins.value[i], Cells(n.pulls), i)
  {
    WantedAt(n, |n.pins.value|, i, PerPin(n) - 1, at);
    hide Wanted, Pack, Shr, And, Mask;
    SmallWithin(Own(Cells(n.pulls), i));
    PackUnpacks(PARAM_PULL, Own(Cells(n.pulls), i));
  }

  // ---- The heap ----

  /** kzalloc and kfree. `fails(k)` says whether attempt number `k` finds no memory; a request for
      no bytes does not fail. Freeing what is not live is not allowed. */
  class Heap {
    const fails: nat -> bool
    var calls: nat
    var live: set<nat>

    constructor (fails: nat -> bool)
      ensures this.fails == fails && calls == 0 && live == {}
    {
      this.fails := fails;
      calls, live := 0, {};
    }

    ghost predicate Valid()
      reads this
    {
      forall p :: p in live ==> p < calls
    }

    method Kzalloc(empty: bool) returns (p: Option<nat>)
      requires Valid()
      modifies this
      ensures Valid() && calls == old(calls) + 1
      ensures p == if fails(old(calls)) && !empty then None else Some(old(calls))
      ensures live == old(live) + (if p.Some? then {p.value} else {})
    {
      if fails(calls) && !empty {
        p := None;
      } else {
        p := Some(calls);
        live := live + {calls};
      }
      calls := calls + 1;
    }

    method Kfree(p: nat)
      requires Valid() && p in live
      modifies this`live
      ensures Valid() && live == old(live) - {p}
    {
      live := live - {p};
    }
  }

  /** The allocations that a map holds. */
  function Ptrs(maps: seq<Entry>): set<nat> {
    set i | 0 <= i < |maps| && maps[i].ConfigsPin? :: maps[i].ptr
  }

  ghost predicate DistinctPtrs(maps: seq<Entry>) {
    forall i, j :: 0 <= i < j < |maps| && maps[i].ConfigsPin? && maps[j].ConfigsPin? ==> maps[i].ptr != maps[j].ptr
  }

  lemma PtrsSnoc(maps: seq<Entry>, k: nat)
    requires k < |maps|
    ensures Ptrs(maps[..k + 1]) == Ptrs(maps[..k]) + (if maps[k].ConfigsPin? then {maps[k].ptr} else {})
  {
    var a, b := maps[..k], maps[..k + 1];
    forall p | p in Ptrs(b) ensures p in Ptrs(a) || (maps[k].ConfigsPin? && p == maps[k].ptr) {
      var i :| 0 <= i < |b| && b[i].ConfigsPin? && b[i].ptr == p;
      if i < k { assert a[i] == b[i]; }
    }
    forall p | p in Ptrs(a) ensures p in Ptrs(b) {
      var i :| 0 <= i < |a| && a[i].ConfigsPin? && a[i].ptr == p;
      assert b[i] == a[i];
    }
    if maps[k].ConfigsPin? { assert b[k].ptr in Ptrs(b); }
  }

  lemma PtrNotEarlier(maps: seq<Entry>, k: nat)
    requires k < |maps| && maps[k].ConfigsPin? && DistinctPtrs(maps)
    ensures maps[k].ptr !in Ptrs(maps[..k])
  {}

  /** bcm2835_pctl_dt_free_map: every configuration once, then the map itself. */
  method FreeMap(heap: Heap, maps: array<Entry>, ptr: nat)
    requires heap.Valid() && DistinctPtrs(maps[..])
    requires Ptrs(maps[..]) + {ptr} <= heap.live && ptr !in Ptrs(maps[..])
    modifies heap`live
    ensures heap.Valid() && heap.live == old(heap.live) - Ptrs(maps[..]) - {ptr}
  {
    hide Ptrs, DistinctPtrs;
    assert Ptrs(maps[..0]) == {} by { EmptyPtrs(maps[..0]); }
    for i := 0 to maps.Length
      invariant heap.Valid() && heap.live == old(heap.live) - Ptrs(maps[..i])
    {
      PtrsSnoc(maps[..], i);
      assert maps[..][..i] == maps[..i] && maps[..][..i + 1] == maps[..i + 1];
      if maps[i].ConfigsPin? {
        PtrNotEarlier(maps[..], i);
        PtrsOfPrefix(maps[..], i);
        heap.Kfree(maps[i].ptr);
      }
    }
    assert maps[..maps.Length] == maps[..];
    heap.Kfree(ptr);
  }

  lemma EmptyPtrs(maps: seq<Entry>)
    requires forall i :: 0 <= i < |maps| ==> maps[i] == Invalid
    ensures Ptrs(maps) == {} && DistinctPtrs(maps)
  {}

  lemma PtrsOfPrefix(maps: seq<Entry>, k: nat)
    requires k < |maps| && maps[k].ConfigsPin?
    ensures maps[k].ptr in Ptrs(maps)
  {}

  lemma PtrsPut(maps: seq<Entry>, k: nat, e: Entry)
    requires k < |maps| && maps[k] == Invalid && e != Invalid && DistinctPtrs(maps)
    requires e.ConfigsPin? ==> e.ptr !in Ptrs(maps)
    ensures Ptrs(maps[k := e]) == Ptrs(maps) + (if e.ConfigsPin? then {e.ptr} else {})
    ensures DistinctPtrs(maps[k := e])
  {
    var m := maps[k := e];
    forall p | p in Ptrs(m) ensures p in Ptrs(maps) || (e.ConfigsPin? && p == e.ptr) {
      var i :| 0 <= i < |m| && m[i].ConfigsPin? && m[i].ptr == p;
      if i != k { assert maps[i] == m[i]; }
    }
    forall p | p in Ptrs(maps) ensures p in Ptrs(m) {
      var i :| 0 <= i < |maps| && maps[i].ConfigsPin? && maps[i].ptr == p;
      assert m[i] == maps[i];
    }
    if e.ConfigsPin? { assert m[k].ptr in Ptrs(m); }
    forall i, j | 0 <= i < j < |m| && m[i].ConfigsPin? && m[j].ConfigsPin? ensures m[i].ptr != m[j].ptr {
      if i == k { PtrsOfPrefix(maps, j); }
      if j == k { PtrsOfPrefix(maps, i); }
    }
  }

  // ---- The builder ----

  /** The first `cur` entries are those of `w`, the others are still zero, and the heap holds exactly
      what was there before, the map and its configurations. */
  ghost predicate Building(heap: Heap, was: set<nat>, maps: seq<Entry>, ptr: nat, w: seq<Entry>)
    reads heap
  {
    && heap.Valid()
    && ptr !in was && ptr !in Ptrs(maps) && Ptrs(maps) !! was && DistinctPtrs(maps)
    && heap.live == was + {ptr} + Ptrs(maps)
    && |w| <= |maps|
    && (forall i :: 0 <= i < |w| ==> Anonymous(maps[i]) == w[i])
    && (forall i :: |w| <= i < |maps| ==> maps[i] == Invalid)
  }

  /** bcm2835_pctl_dt_node_to_map_func */
  method MapFunc(heap: Heap, ghost was: set<nat>, ghost ptr: nat, pin: nat, fnum: nat,
                 maps: array<Entry>, cur: nat, ghost w: seq<Entry>) returns (err: Ret, next: nat)
    requires Building(heap, was, maps[..], ptr, w) && cur == |w| < maps.Length
    modifies maps
    ensures err == if fnum >= FSEL_COUNT then EInval else Done
    ensures next == if err == Done then cur + 1 else cur
    ensures Building(heap, was, maps[..], ptr, if err == Done then w + [MuxGroup(pin, fnum)] else w)
  {
    hide Ptrs, DistinctPtrs;
    if fnum >= FSEL_COUNT {
      return EInval, cur;
    }
    PtrsPut(maps[..], cur, MuxGroup(pin, fnum));
    ghost var m := maps[..];
    maps[cur] := MuxGroup(pin, fnum);
    assert maps[..] == m[cur := MuxGroup(pin, fnum)];
    return Done, cur + 1;
  }

  /** bcm2835_pctl_dt_node_to_map_pull */
  method MapPull(heap: Heap, ghost was: set<nat>, ghost ptr: nat, pin: nat, pull: nat,
                 maps: array<Entry>, cur: nat, ghost w: seq<Entry>) returns (err: Ret, next: nat)
    requires Building(heap, was, maps[..], ptr, w) && cur == |w| < maps.Length
    modifies maps, heap
    ensures err == if pull > 2 then EInval else if heap.fails(old(heap.calls)) then ENoMem else Done
    ensures next == if err == Done then cur + 1 else cur
    ensures heap.calls == old(heap.calls) + (if pull > 2 then 0 else 1)
    ensures Building(heap, was, maps[..], ptr,
                     if err == Done then w + [ConfigsPin(pin, 0, Pack(PARAM_PULL, pull))] else w)
  {
    hide Ptrs, DistinctPtrs, Pack;
    if pull > 2 {
      return EInval, cur;
    }
    var configs := heap.Kzalloc(false);
    if configs.None? {
      return ENoMem, cur;
    }
    var e := ConfigsPin(pin, configs.value, Pack(PARAM_PULL, pull));
    assert configs.value !in Ptrs(maps[..]) && configs.value !in was && configs.value != ptr;
    PtrsPut(maps[..], cur, e);
    ghost var m := maps[..];
    maps[cur] := e;
    assert maps[..] == m[cur := e];
    return Done, cur + 1;
  }

  /** The entries of one pin. */
  method MapPin(heap: Heap, ghost was: set<nat>, ghost ptr: nat, n: Node, i: nat,
                maps: array<Entry>, cur: nat, ghost w: seq<Entry>) returns (err: Ret, next: nat, ghost w': seq<Entry>)
    requires Consistent(n) && i < |n.pins.value|
    requires Building(heap, was, maps[..], ptr, w) && cur == |w| && cur + PerPin(n) <= maps.Length
    modifies maps, heap
    ensures err == PinOutcome(n, i, old(heap.calls), heap.fails)
    ensures Building(heap, was, maps[..], ptr, w')
    ensures err == Done ==> w' == w + WantedFor(n, i) && next == |w'|
    ensures err == Done ==> heap.calls == old(heap.calls) + (if Cells(n.pulls) != [] then 1 else 0)
  {
    hide Building, Pack;
    next, w' := cur, w;
    var pin := n.pins.value[i];
    if pin >= NUM_GPIOS {
      return EInval, next, w';
    }
    var funcs, pulls := Cells(n.funcs), Cells(n.pulls);
    if funcs != [] {
      var func := CellFor(funcs, i);
      err, next := MapFunc(heap, was, ptr, pin, func, maps, next, w');
      if err != Done {
        return;
      }
      w' := w' + [MuxGroup(pin, func)];
    }
    if pulls != [] {
      var pull := CellFor(pulls, i);
      err, next := MapPull(heap, was, ptr, pin, pull, maps, next, w');
      if err != Done {
        return;
      }
      w' := w' + [ConfigsPin(pin, 0, Pack(PARAM_PULL, pull))];
    }
    err := Done;
  }

  /** bcm2835_pctl_dt_node_to_map: on success the map holds, in order, what the node asks for; on
      every error nothing that was allocated is left, and nothing was freed twice. */
  method NodeToMap(heap: Heap, n: Node) returns (ret: Ret, maps: array<Entry>, ptr: nat)
    requires heap.Valid()
    modifies heap
    ensures heap.Valid() && fresh(maps)
    ensures ret == Done ==>
              && Consistent(n)
              && maps.Length == |n.pins.value| * PerPin(n)
              && (forall i :: 0 <= i < maps.Length ==> Anonymous(maps[i]) == Wanted(n, |n.pins.value|)[i])
              && MapsEach(n.pins.value, Cells(n.funcs), Cells(n.pulls), maps[..])
              && DistinctPtrs(maps[..]) && ptr !in old(heap.live) + Ptrs(maps[..]) && Ptrs(maps[..]) !! old(heap.live)
              && heap.live == old(heap.live) + {ptr} + Ptrs(maps[..])
    ensures ret != Done ==> heap.live == old(heap.live)
    ensures ret == if !Consistent(n) then EInval
                   else if heap.fails(old(heap.calls)) && |n.pins.value| * PerPin(n) > 0 then ENoMem
                   else Outcome(n, 0, old(heap.calls) + 1, heap.fails)
  {
    hide Ptrs, DistinctPtrs, Building, PinOutcome, WantedFor, Anonymous, MapsEach;
    maps, ptr := new Entry[0], 0;
    if n.pins.None? || (n.funcs.None? && n.pulls.None?) {
      return EInval, maps, ptr;
    }
    var numPins, numFuncs, numPulls := |n.pins.value|, |Cells(n.funcs)|, |Cells(n.pulls)|;
    if (numFuncs > 1 && numFuncs != numPins) || (numPulls > 1 && numPulls != numPins) {
      return EInval, maps, ptr;
    }
    var mapsPerPin := PerPin(n);
    var p := heap.Kzalloc(numPins * mapsPerPin == 0);
    if p.None? {
      return ENoMem, maps, ptr;
    }
    ptr := p.value;
    maps := new Entry[numPins * mapsPerPin](_ => Invalid);
    ghost var was := old(heap.live);
    BuildingStarts(heap, was, maps[..], ptr);
    ghost var w;
    ret, w := MapPins(heap, was, ptr, n, maps);
    if ret != Done {
      BuildingFrees(heap, was, maps[..], ptr, w);
      FreeMap(heap, maps, ptr);
      return;
    }
    BuildingDone(heap, was, maps[..], ptr, w);
    WhatWasBuilt(n, old(heap.calls) + 1, heap.fails, maps[..]);
  }

  lemma WhatWasBuilt(n: Node, calls: nat, fails: nat -> bool, maps: seq<Entry>)
    requires Consistent(n) && Outcome(n, 0, calls, fails) == Done && |maps| == |n.pins.value| * PerPin(n)
    requires forall i :: 0 <= i < |maps| ==> Anonymous(maps[i]) == Wanted(n, |n.pins.value|)[i]
    ensures MapsEach(n.pins.value, Cells(n.funcs), Cells(n.pulls), maps)
  {
    hide *;
    DoneIff(n, 0, calls, fails);
    WantedMapsEach(n, maps);
  }

  /** The entries of all pins, or of those before the first one that fails. */
  method MapPins(heap: Heap, ghost was: set<nat>, ghost ptr: nat, n: Node, maps: array<Entry>)
    returns (err: Ret, ghost w: seq<Entry>)
    requires Consistent(n) && maps.Length == |n.pins.value| * PerPin(n)
    requires Building(heap, was, maps[..], ptr, [])
    modifies maps, heap
    ensures err == Outcome(n, 0, old(heap.calls), heap.fails)
    ensures Building(heap, was, maps[..], ptr, w)
    ensures err == Done ==> w == Wanted(n, |n.pins.value|) && |w| == maps.Length
  {
    hide Ptrs, DistinctPtrs, Building, PinOutcome, WantedFor, Anonymous;
    w := [];
    var cur, i := 0, 0;
    while i < |n.pins.value|
      invariant 0 <= i <= |n.pins.value| && cur == |w| && w == Wanted(n, i)
      invariant Building(heap, was, maps[..], ptr, w)
      invariant Outcome(n, 0, old(heap.calls), heap.fails) == Outcome(n, i, heap.calls, heap.fails)
    {
      RoomFor(i, |n.pins.value|, PerPin(n));
      err, cur, w := MapPin(heap, was, ptr, n, i, maps, cur, w);
      if err != Done {
        return;
      }
      i := i + 1;
    }
    err := Done;
  }

  lemma RoomFor(i: nat, n: nat, per: nat)
    requires i < n
    ensures i * per + per <= n * per
  {
    assert (i + 1) * per <= n * per;
  }

  lemma BuildingStarts(heap: Heap, was: set<nat>, maps: seq<Entry>, ptr: nat)
    requires heap.Valid() && heap.live == was + {ptr} && ptr !in was
    requires forall i :: 0 <= i < |maps| ==> maps[i] == Invalid
    ensures Building(heap, was, maps, ptr, [])
  {
    EmptyPtrs(maps);
  }

  lemma BuildingFrees(heap: Heap, was: set<nat>, maps: seq<Entry>, ptr: nat, w: seq<Entry>)
    requires Building(heap, was, maps, ptr, w)
    ensures heap.Valid() && DistinctPtrs(maps)
    ensures Ptrs(maps) + {ptr} <= heap.live && ptr !in Ptrs(maps)
    ensures heap.live - Ptrs(maps) - {ptr} == was
  {}

  lemma BuildingDone(heap: Heap, was: set<nat>, maps: seq<Entry>, ptr: nat, w: seq<Entry>)
    requires Building(heap, was, maps, ptr, w) && |w| == |maps|
    ensures heap.Valid() && DistinctPtrs(maps) && ptr !in was + Ptrs(maps) && Ptrs(maps) !! was
    ensures heap.live == was + {ptr} + Ptrs(maps)
    ensures forall i :: 0 <= i < |maps| ==> Anonymous(maps[i]) == w[i]
  {}
}
