/** The parameters that a board switches off: a mask of four bits becomes a list. */
module IprocDisable {
  import opened Words
  import opened IprocSpec

  const MAP_SIZE: nat := 4

  /** iproc_pinconf_disable_map */
  function MapAt(bit: nat): Param
    requires bit < MAP_SIZE
  {
    if bit == 0 then DriveStrength else if bit == 1 then BiasDisable else if bit == 2 then BiasPullUp else BiasPullDown
  }

  /** The parameters of the `k` lowest bits of a mask, in the order of the bits. */
  function Listed(mask: nat, k: nat): seq<Param>
    requires k <= MAP_SIZE
  {
    if k == 0 then [] else Listed(mask, k - 1) + (if Bit(mask, k - 1) then [MapAt(k - 1)] else [])
  }

  /** A parameter is listed exactly when it is in the map below `k` and its bit is set; none is
      listed twice. */
  lemma {:induction false} ListedExact(mask: nat, k: nat, p: Param)
    requires k <= MAP_SIZE
    ensures p in Listed(mask, k) <==> exists bit: nat :: bit < k && MapAt(bit) == p && Bit(mask, bit)
    ensures forall i, j :: 0 <= i < j < |Listed(mask, k)| ==> Listed(mask, k)[i] != Listed(mask, k)[j]
  {
    hide Bit;
    if k > 0 {
      ListedExact(mask, k - 1, p);
      ListedExact(mask, k - 1, MapAt(k - 1));
      var a := Listed(mask, k - 1);
      forall i | 0 <= i < |a| ensures a[i] != MapAt(k - 1) { assert a[i] in a; }
      if Bit(mask, k - 1) && MapAt(k - 1) == p { assert p in Listed(mask, k); }
    }
  }

  /** The board whose mask has bit 0 alone refuses drive strengths and nothing else. */
  lemma OnlyStrengthDisabled(p: Param)
    ensures p in Listed(BIT(0), MAP_SIZE) <==> p == DriveStrength
  {
    hide Bit, BIT, Listed;
    ListedExact(BIT(0), MAP_SIZE, p);
    assert MapAt(0) == DriveStrength && Bit(BIT(0), 0);
  }

  /** What each of the four bits of a mask switches off. */
  lemma ListedBits(mask: nat)
    ensures DriveStrength in Listed(mask, MAP_SIZE) <==> Bit(mask, 0)
    ensures BiasDisable in Listed(mask, MAP_SIZE) <==> Bit(mask, 1)
    ensures BiasPullUp in Listed(mask, MAP_SIZE) <==> Bit(mask, 2)
    ensures BiasPullDown in Listed(mask, MAP_SIZE) <==> Bit(mask, 3)
  {
    hide Bit, Listed;
    ListedExact(mask, MAP_SIZE, DriveStrength);
    ListedExact(mask, MAP_SIZE, BiasDisable);
    ListedExact(mask, MAP_SIZE, BiasPullUp);
    ListedExact(mask, MAP_SIZE, BiasPullDown);
    assert MapAt(0) == DriveStrength && MapAt(1) == BiasDisable && MapAt(2) == BiasPullUp && MapAt(3) == BiasPullDown;
  }
}
