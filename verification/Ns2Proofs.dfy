/** Exclusive ownership of pins and agreement of log and hardware, over every run of requests. */
module Ns2Proofs {
  import opened Words
  import opened Mmio
  import opened Ns2Spec

  // ---- The tables ----

  lemma SlotMatches(g: nat)
    requires g < NUM_GROUPS
    ensures SlotOf(g) < NUM_IOMUX && SameKey(InitialEntry(SlotOf(g)), GroupAt(g).mux)
    ensures GroupAt(g).mux.mask == Mask(Width(SlotOf(g))) && GroupAt(g).mux.alt <= GroupAt(g).mux.mask
    ensures IsPwm(g) <==> SlotOf(g) >= NUM_IOMUX - NUM_PWM_MUX
  {
    hide Bit, Mask, Pow2;
    Masks();
  }

  lemma KeysUnique(i: nat, j: nat, m: Mux)
    requires i < NUM_IOMUX && j < NUM_IOMUX && SameKey(InitialEntry(i), m) && SameKey(InitialEntry(j), m)
    ensures i == j
  {}

  /** The fields of two log entries never overlap. */
  lemma FieldsDisjoint(i: nat, j: nat, base: nat, offset: nat, b: nat)
    requires i < NUM_IOMUX && j < NUM_IOMUX && Covers(i, base, offset, b) && Covers(j, base, offset, b)
    ensures i == j
  {}

  /** The log entry of the only multiplexer, apart from PWM, that a pin has. */
  function PinSlot(pin: nat): nat {
    if pin < 26 then 0
    else if pin < 27 then 1
    else if pin < 31 then 2
    else if pin < 39 then 3 + (pin - 31) / 2
    else if pin < 43 then 7
    else 8 + (pin - 43) / 2
  }

  /** The non-PWM group that owns a pin when its multiplexer is set to `alt`. */
  function Owner(pin: nat, alt: nat): nat {
    if pin < 26 then (if alt == 1 then 1 else if pin < 24 then 0 else 2)
    else if pin < 27 then 2 + alt
    else if pin < 31 then 5 + alt
    else if pin < 39 then 8 + (pin - 31) / 2 * 3 + alt
    else if pin < 43 then 20 + alt
    else 23 + (pin - 43) / 2 * 2 + alt
  }

  lemma TableRow(g: nat, pin: nat)
    requires g < NUM_GROUPS && !IsPwm(g) && HasPin(g, pin)
    ensures SlotOf(g) == PinSlot(pin) && Owner(pin, GroupAt(g).mux.alt) == g
  {
    hide GroupAt, SlotOf, PinSlot, Owner, HasPin;
    if g < 20 { LowTableRow(g, pin); } else { HighTableRow(g, pin); }
  }

  lemma LowTableRow(g: nat, pin: nat)
    requires g < 20 && HasPin(g, pin)
    ensures SlotOf(g) == PinSlot(pin) && Owner(pin, GroupAt(g).mux.alt) == g
  {}

  lemma HighTableRow(g: nat, pin: nat)
    requires 20 <= g < NUM_GROUPS && !IsPwm(g) && HasPin(g, pin)
    ensures SlotOf(g) == PinSlot(pin) && Owner(pin, GroupAt(g).mux.alt) == g
  {}

  lemma PwmRow(g: nat, h: nat, pin: nat)
    requires g < NUM_GROUPS && h < NUM_GROUPS && IsPwm(g) && IsPwm(h) && HasPin(g, pin) && HasPin(h, pin)
    ensures g == h
  {}

  // ---- One request ----

  lemma FindsSlot(s: Pinmux, g: nat)
    requires KeysKept(s) && g < NUM_GROUPS
    ensures Find(s.log, GroupAt(g).mux, 0) == SlotOf(g)
  {
    hide GroupAt, SlotOf, InitialEntry;
    SlotMatches(g);
    var m := GroupAt(g).mux;
    var i := Find(s.log, m, 0);
    assert SameKey(s.log[SlotOf(g)], m);
    KeysUnique(i, SlotOf(g), m);
  }

  /** A request either changes nothing at all, or configures its own entry, which was free, with one
      register write. It is refused exactly when the entry holds another alternative. */
  lemma MuxSetEffect(s: Pinmux, g: nat)
    requires KeysKept(s) && g < NUM_GROUPS
    ensures var (t, ret) := MuxSet(s, GroupAt(g).mux);
            var i := SlotOf(g);
            && i < NUM_IOMUX
            && (ret == EInval <==> s.log[i].configured && s.log[i].alt != GroupAt(g).mux.alt)
            && (ret == Done || ret == EInval)
            && (s.log[i].configured ==> t == s)
            && (!s.log[i].configured ==>
                  && t.log == s.log[i := s.log[i].(alt := GroupAt(g).mux.alt, configured := true)]
                  && |t.writes| == |s.writes| + 1 && t.writes[..|s.writes|] == s.writes)
            && KeysKept(t)
  {
    hide GroupAt, SlotOf, InitialEntry, Insert;
    FindsSlot(s, g);
    SlotMatches(g);
    assert InitialEntry(SlotOf(g)).base <= MUX_BASE1 by { BaseRange(SlotOf(g)); }
  }

  lemma BaseRange(i: nat)
    requires i < NUM_IOMUX
    ensures InitialEntry(i).base <= MUX_BASE1
  {}

  /** The register file after `m` has configured the free entry `i`. */
  lemma MuxSetRegs(s: Pinmux, m: Mux, i: nat)
    requires |s.log| == NUM_IOMUX && Find(s.log, m, 0) == i < NUM_IOMUX && !s.log[i].configured && m.base <= MUX_BASE1
    ensures var t := MuxSet(s, m).0;
            forall base: nat, offset: nat {:trigger Rd(Base(t, base), offset)} :: base <= MUX_BASE1 ==>
              Rd(Base(t, base), offset) ==
                if base == m.base && offset == m.offset
                then Insert(Rd(Base(s, base), offset), m.mask, m.shift, m.alt)
                else Rd(Base(s, base), offset)
  {
    hide Insert, Find;
  }

  lemma FieldAgrees(s0: Pinmux, s: Pinmux, m: Mux, i: nat, j: nat)
    requires Agrees(s0, s) && i < NUM_IOMUX && j < NUM_IOMUX
    requires Find(s.log, m, 0) == i && SameKey(InitialEntry(i), m) && !s.log[i].configured && m.base <= MUX_BASE1
    requires m.mask == Mask(Width(i)) && m.alt <= m.mask
    requires j == i || s.log[j].configured
    ensures var t := MuxSet(s, m).0;
            Field(Rd(Base(t, t.log[j].base), t.log[j].offset), Mask(Width(j)), t.log[j].shift) == t.log[j].alt
  {
    hide Bit, Insert, Field, Find, Mask, InitialEntry, Width, Covers;
    MuxSetRegs(s, m, i);
    var e := InitialEntry(j);
    BaseRange(j);
    if j != i { FieldsApart(i, j); }
    var val := Rd(Base(s, e.base), e.offset);
    if j == i {
      FieldInserted(val, Width(i), m.shift, m.alt);
    } else if e.base == m.base && e.offset == m.offset {
      FieldKept(val, Width(i), m.shift, m.alt, Width(j), e.shift);
    }
  }

  lemma FieldsApart(i: nat, j: nat)
    requires i < NUM_IOMUX && j < NUM_IOMUX && i != j
    ensures var a, b := InitialEntry(i), InitialEntry(j);
            a.base == b.base && a.offset == b.offset ==>
              a.shift + Width(i) <= b.shift || b.shift + Width(j) <= a.shift
  {}

  lemma BitAgrees(s0: Pinmux, s: Pinmux, m: Mux, i: nat, base: nat, offset: nat, b: nat)
    requires Agrees(s0, s) && i < NUM_IOMUX && base <= MUX_BASE1
    requires Find(s.log, m, 0) == i && SameKey(InitialEntry(i), m) && !s.log[i].configured && m.base <= MUX_BASE1
    requires m.mask == Mask(Width(i)) && m.alt <= m.mask
    requires forall k :: 0 <= k < NUM_IOMUX && (k == i || s.log[k].configured) ==> !Covers(k, base, offset, b)
    ensures Bit(Rd(Base(MuxSet(s, m).0, base), offset), b) == Bit(Rd(Base(s0, base), offset), b)
  {
    hide Bit, Insert, Field, Find, Mask, MuxSet, InitialEntry, Width;
    MuxSetRegs(s, m, i);
    assert !Covers(i, base, offset, b);
    if base == m.base && offset == m.offset {
      InsertBit(Rd(Base(s, base), offset), Width(i), m.shift, m.alt, b);
    }
  }

  lemma AgreesStep(s0: Pinmux, s: Pinmux, g: nat)
    requires Agrees(s0, s) && g < NUM_GROUPS
    ensures Agrees(s0, MuxSet(s, GroupAt(g).mux).0)
  {
    hide GroupAt, SlotOf, Bit, Insert, Field, Find, Mask, InitialEntry, Width, MuxSet, Covers;
    MuxSetEffect(s, g);
    var m, i := GroupAt(g).mux, SlotOf(g);
    var t := MuxSet(s, m).0;
    if !s.log[i].configured {
      SlotMatches(g);
      FindsSlot(s, g);
      BaseRange(i);
      forall j | 0 <= j < NUM_IOMUX && t.log[j].configured
        ensures Field(Rd(Base(t, t.log[j].base), t.log[j].offset), Mask(Width(j)), t.log[j].shift) == t.log[j].alt
      {
        FieldAgrees(s0, s, m, i, j);
      }
      forall base: nat, offset: nat, b: nat
        | base <= MUX_BASE1 && (forall k :: 0 <= k < NUM_IOMUX && t.log[k].configured ==> !Covers(k, base, offset, b))
        ensures Bit(Rd(Base(t, base), offset), b) == Bit(Rd(Base(s0, base), offset), b)
      {
        BitAgrees(s0, s, m, i, base, offset, b);
      }
    }
  }

  /** The state at probe, for any contents of the registers. */
  ghost predicate Initial(s: Pinmux) {
    |s.log| == NUM_IOMUX && forall i :: 0 <= i < NUM_IOMUX ==> s.log[i] == InitialEntry(i)
  }

  lemma InitialAgrees(s: Pinmux)
    requires Initial(s)
    ensures Agrees(s, s)
  {
    hide Bit, Field;
    forall i | 0 <= i < NUM_IOMUX ensures !s.log[i].configured { assert !InitialEntry(i).configured; }
  }

  // ---- Runs ----

  /** Log and hardware agree after every run. */
  lemma {:induction false} RunAgrees(s0: Pinmux, s: Pinmux, groups: seq<nat>)
    requires Agrees(s0, s) && forall g :: g in groups ==> g < NUM_GROUPS
    ensures Agrees(s0, Run(s, groups))
    decreases |groups|
  {
    assert |s.log| == NUM_IOMUX;
    hide GroupAt, MuxSet, Agrees;
    if groups != [] {
      assert groups[0] in groups && forall g :: g in groups[1..] ==> g in groups;
      AgreesStep(s0, s, groups[0]);
      RunAgrees(s0, MuxSet(s, GroupAt(groups[0]).mux).0, groups[1..]);
    }
  }

  lemma {:induction false} ConfiguredPut(log: seq<LogEntry>, i: nat, e: LogEntry)
    requires i < |log| && !log[i].configured && e.configured
    ensures Configured(log[i := e]) == Configured(log) + 1
    decreases |log|
  {
    var n := |log| - 1;
    if i < n {
      ConfiguredPut(log[..n], i, e);
      assert log[i := e][..n] == log[..n][i := e];
    } else {
      assert log[i := e][..n] == log[..n];
    }
  }

  /** A configured entry stays as it is for ever, and there are as many register writes as entries
      configured: each field is written once at most. */
  lemma {:induction false} RunWrites(s: Pinmux, groups: seq<nat>)
    requires KeysKept(s) && forall g :: g in groups ==> g < NUM_GROUPS
    ensures var t := Run(s, groups);
            && KeysKept(t)
            && |t.writes| - |s.writes| == Configured(t.log) - Configured(s.log)
            && forall i :: 0 <= i < NUM_IOMUX && s.log[i].configured ==> t.log[i] == s.log[i]
    decreases |groups|
  {
    hide GroupAt, MuxSet, SlotOf, InitialEntry, Configured;
    if groups != [] {
      assert groups[0] in groups && forall g :: g in groups[1..] ==> g in groups;
      MuxSetEffect(s, groups[0]);
      var t := MuxSet(s, GroupAt(groups[0]).mux).0;
      var i := SlotOf(groups[0]);
      if !s.log[i].configured { ConfiguredPut(s.log, i, t.log[i]); }
      RunWrites(t, groups[1..]);
    }
  }

  /** The entry of every accepted group holds the group's alternative at the end of the run. */
  lemma {:induction false} AcceptedHeld(s: Pinmux, groups: seq<nat>, g: nat)
    requires KeysKept(s) && forall h :: h in groups ==> h < NUM_GROUPS
    requires g in Accepted(s, groups)
    ensures g < NUM_GROUPS && SlotOf(g) < NUM_IOMUX
    ensures var e := Run(s, groups).log[SlotOf(g)]; e.configured && e.alt == GroupAt(g).mux.alt
    decreases |groups|
  {
    hide GroupAt, MuxSet, SlotOf, InitialEntry;
    if groups != [] {
      assert groups[0] in groups && forall h :: h in groups[1..] ==> h in groups;
      MuxSetEffect(s, groups[0]);
      var (t, ret) := MuxSet(s, GroupAt(groups[0]).mux);
      if g in Accepted(t, groups[1..]) {
        AcceptedHeld(t, groups[1..], g);
      } else {
        RunWrites(t, groups[1..]);
      }
    }
  }

  /** Two distinct groups that share a pin can be accepted in one run exactly when one of them is a
      PWM group: sharing non-PWM groups are different alternatives of one multiplexer. */
  lemma ExclusiveIff(s: Pinmux, g: nat, h: nat, pin: nat)
    requires Initial(s) && g < NUM_GROUPS && h < NUM_GROUPS && g != h && HasPin(g, pin) && HasPin(h, pin)
    ensures (exists groups: seq<nat> :: (forall k :: k in groups ==> k < NUM_GROUPS) && {g, h} <= Accepted(s, groups))
            <==> IsPwm(g) || IsPwm(h)
  {
    InitialAgrees(s);
    if IsPwm(g) || IsPwm(h) {
      if IsPwm(g) && IsPwm(h) { PwmRow(g, h, pin); }
      BothAccepted(s, g, h);
      assert forall k :: k in [g, h] ==> k < NUM_GROUPS;
    } else {
      TableRow(g, pin);
      TableRow(h, pin);
      forall groups: seq<nat> | (forall k :: k in groups ==> k < NUM_GROUPS)
        ensures !({g, h} <= Accepted(s, groups))
      {
        NeverBoth(s, groups, g, h, pin);
      }
    }
  }

  lemma NeverBoth(s: Pinmux, groups: seq<nat>, g: nat, h: nat, pin: nat)
    requires KeysKept(s) && forall k :: k in groups ==> k < NUM_GROUPS
    requires g < NUM_GROUPS && h < NUM_GROUPS && g != h
    requires !IsPwm(g) && !IsPwm(h) && HasPin(g, pin) && HasPin(h, pin)
    ensures !({g, h} <= Accepted(s, groups))
  {
    hide GroupAt, Accepted, Run, SlotOf, PinSlot;
    TableRow(g, pin);
    TableRow(h, pin);
    if {g, h} <= Accepted(s, groups) {
      AcceptedHeld(s, groups, g);
      AcceptedHeld(s, groups, h);
      assert false;
    }
  }

  lemma BothAccepted(s: Pinmux, g: nat, h: nat)
    requires Initial(s) && KeysKept(s) && g < NUM_GROUPS && h < NUM_GROUPS && IsPwm(g) != IsPwm(h)
    ensures forall k :: k in [g, h] ==> k < NUM_GROUPS
    ensures {g, h} <= Accepted(s, [g, h])
  {
    hide GroupAt, MuxSet, SlotOf, Accepted;
    SlotMatches(g);
    SlotMatches(h);
    MuxSetEffect(s, g);
    var t := MuxSet(s, GroupAt(g).mux).0;
    MuxSetEffect(t, h);
    assert !s.log[SlotOf(g)].configured && !s.log[SlotOf(h)].configured;
    assert [h] + [] == [h] && [g] + [h] == [g, h];
    AcceptedFirst(t, h, []);
    AcceptedFirst(s, g, [h]);
  }

  /** A request that is answered with Done is among the accepted ones. */
  lemma AcceptedFirst(s: Pinmux, g: nat, groups: seq<nat>)
    requires |s.log| == NUM_IOMUX && g < NUM_GROUPS && forall k :: k in groups ==> k < NUM_GROUPS
    requires MuxSet(s, GroupAt(g).mux).1 == Done
    ensures forall k :: k in [g] + groups ==> k < NUM_GROUPS
    ensures Accepted(s, [g] + groups) == {g} + Accepted(MuxSet(s, GroupAt(g).mux).0, groups)
  {
    hide GroupAt, MuxSet;
    assert ([g] + groups)[1..] == groups;
  }
}
