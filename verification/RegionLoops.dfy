/**
  The two loops of memblock.c that rewrite a region array while walking it, as facts about the
  region list: one invariant for the coalescing loop of memblock_add_region, one for the loop of
  __memblock_remove, and one lemma for every branch of their bodies.
 */
module RegionLoops {
  import opened Regions

  /** Unsigned 32-bit subtraction, as the trims of the removal loop perform it. */
  function Sub32(a: PhysAddr, b: PhysAddr): PhysAddr {
    if b <= a then a - b else a - b + ADDRESS_SPACE
  }

  /** memblock_addrs_overlap. */
  predicate AddrsOverlap(base1: PhysAddr, size1: PhysAddr, base2: PhysAddr, size2: PhysAddr) {
    base1 < base2 + size2 && base2 < base1 + size1
  }

  // ----- effects of one edit on one list -----

  lemma Around(rs: seq<Region>, i: nat)
    requires Canonical(rs) && i < |rs|
    ensures Addresses(rs[..i]) <= Span(0, rs[i].base)
    ensures Addresses(rs[i + 1..]) !! Span(0, rs[i].base + rs[i].size + 1)
  {
  }

  /** Addresses strictly inside region i, or at its end, are not the start of another region. */
  lemma NoneStartsWithin(rs: seq<Region>, i: nat, a: int)
    requires Canonical(rs) && i < |rs| && rs[i].base < a <= rs[i].base + rs[i].size
    ensures !StartsAt(rs, a)
  {
    Ordered(rs, i);
  }

  lemma NoneStrictlyAround(rs: seq<Region>, i: nat, base: int, end: int)
    requires Canonical(rs) && i < |rs| && rs[i].size > 0
    requires base <= rs[i].base < end || base < rs[i].base + rs[i].size <= end
    ensures !StrictlyInsideOne(rs, base, end)
  {
    Ordered(rs, i);
  }

  lemma DropKeepsOthers(rs: seq<Region>, i: nat, base: PhysAddr, size: PhysAddr)
    requires Canonical(rs) && rs != [FILLER]
    requires i < |rs| && base <= rs[i].base && rs[i].base + rs[i].size <= base + size
    ensures !StrictlyInsideOne(rs, base, base + size) && !StrictlyInsideOne(Removed(rs, i), base, base + size)
    ensures StartsAt(Removed(rs, i), base + size) <==> StartsAt(rs, base + size)
  {
    hide Canonical;
    var t := Removed(rs, i);
    Ordered(rs, i);
    NoneStrictlyAround(rs, i, base, base + size);
    if |rs| > 1 {
      assert forall k :: 0 <= k < |t| ==> t[k] == (if k < i then rs[k] else rs[k + 1]);
      assert forall k :: 0 <= k < |rs| && k != i ==> rs[k] == t[if k < i then k else k - 1];
    }
  }

  lemma SplitAddresses(rs: seq<Region>, base: PhysAddr, size: PhysAddr, i: nat, low: Region)
    requires Canonical(rs) && i < |rs| && rs[i].base < base && base + size < rs[i].base + rs[i].size
    requires low == Region(rs[i].base, base - rs[i].base)
    ensures Addresses(rs[i := low]) + Span(base + size, rs[i].base + rs[i].size - (base + size)) ==
      Addresses(rs) - Span(base, size)
  {
    hide Addresses, Canonical;
    AddressesSplit(rs, i);
    AddressesUpdate(rs, i, low);
    Around(rs, i);
  }

  lemma SplitIsolated(rs: seq<Region>, base: PhysAddr, size: PhysAddr, i: nat, low: Region)
    requires Canonical(rs) && size > 0 && i < |rs| && rs[i].base < base && base + size < rs[i].base + rs[i].size
    requires low == Region(rs[i].base, base - rs[i].base)
    ensures Isolated(rs[i := low], base + size, rs[i].base + rs[i].size)
  {
    hide Canonical;
    Ordered(rs, i);
    assert forall k :: 0 <= k < |rs| ==> rs[i := low][k] == if k == i then low else rs[k];
  }

  lemma TrimBottom(rs: seq<Region>, base: PhysAddr, size: PhysAddr, i: nat, high: Region)
    requires Canonical(rs) && i < |rs| && base <= rs[i].base < base + size < rs[i].base + rs[i].size
    requires forall k :: 0 <= k < i ==> rs[k].base + rs[k].size <= base
    requires high == Region(base + size, rs[i].base + rs[i].size - (base + size))
    ensures Addresses(rs[i := high]) == Addresses(rs) - Span(base, size)
  {
    AddressesSplit(rs, i);
    AddressesUpdate(rs, i, high);
    Around(rs, i);
    assert Addresses(rs[..i]) !! Span(base, size);
  }

  lemma DropInside(rs: seq<Region>, i: nat, base: PhysAddr, size: PhysAddr)
    requires i < |rs| && base <= rs[i].base && rs[i].base + rs[i].size <= base + size
    ensures Addresses(Removed(rs, i)) - Span(base, size) == Addresses(rs) - Span(base, size)
  {
    AddressesRemoved(rs, i);
  }

  lemma TrimTop(rs: seq<Region>, base: PhysAddr, size: PhysAddr, i: nat, low: Region)
    requires Canonical(rs) && rs != [FILLER]
    requires i < |rs| && rs[i].base < base < rs[i].base + rs[i].size <= base + size
    requires low == Region(rs[i].base, base - rs[i].base)
    ensures Canonical(rs[i := low])
    ensures Addresses(rs[i := low]) - Span(base, size) == Addresses(rs) - Span(base, size)
  {
    Ordered(rs, i);
    CanonicalUpdate(rs, i, low);
    AddressesSplit(rs, i);
    AddressesUpdate(rs, i, low);
  }

  // ----- the coalescing loop, one branch at a time -----

  /** The loop invariant of Coalesce: rs is the table, with its first i regions behind the range [base, base + size). */
  ghost predicate Merging(rs0: seq<Region>, base0: PhysAddr, size0: PhysAddr,
                          rs: seq<Region>, base: PhysAddr, size: PhysAddr, i: int) {
    && Canonical(rs)
    && 0 < size && base + size == base0 + size0 < ADDRESS_SPACE
    && 0 <= i <= |rs|
    && (forall k :: 0 <= k < i ==> rs[k].base + rs[k].size < base)
    && Addresses(rs) + Span(base, size) == Addresses(rs0) + Span(base0, size0)
    && (|| (rs == rs0 && base == base0)
        || ((|rs| < |rs0| || rs == [FILLER]) && rs0 != [FILLER] && !Isolated(rs0, base0, base0 + size0)))
  }

  lemma MergeStart(rs0: seq<Region>, base0: PhysAddr, size0: PhysAddr)
    requires Canonical(rs0) && size0 > 0 && base0 + size0 < ADDRESS_SPACE
    ensures Merging(rs0, base0, size0, rs0, base0, size0, 0)
  {
  }

  lemma MergeCanonical(rs0: seq<Region>, base0: PhysAddr, size0: PhysAddr,
                       rs: seq<Region>, base: PhysAddr, size: PhysAddr, i: nat)
    requires Merging(rs0, base0, size0, rs, base, size, i)
    ensures Canonical(rs) && size > 0
  {
  }

  lemma MergeBounds(rs0: seq<Region>, base0: PhysAddr, size0: PhysAddr,
                    rs: seq<Region>, base: PhysAddr, size: PhysAddr, i: nat)
    requires Merging(rs0, base0, size0, rs, base, size, i) && i < |rs|
    ensures Canonical(rs) && size > 0 && base + size < ADDRESS_SPACE
    ensures rs[i].base + rs[i].size < ADDRESS_SPACE && (rs[i].size == 0 <==> rs == [FILLER])
  {
  }

  lemma MergeSkip(rs0: seq<Region>, base0: PhysAddr, size0: PhysAddr,
                  rs: seq<Region>, base: PhysAddr, size: PhysAddr, i: nat)
    requires Merging(rs0, base0, size0, rs, base, size, i) && i < |rs| && rs[i].base + rs[i].size < base
    ensures Merging(rs0, base0, size0, rs, base, size, i + 1)
  {
  }

  lemma MergeTouch(rs0: seq<Region>, base0: PhysAddr, size0: PhysAddr,
                   rs: seq<Region>, base: PhysAddr, size: PhysAddr, i: nat)
    requires Merging(rs0, base0, size0, rs, base, size, i) && rs != [FILLER]
    requires i < |rs| && Touches(rs[i], base, base + size)
    ensures rs0 != [FILLER] && !Isolated(rs0, base0, base0 + size0)
  {
  }

  lemma MergeEnclosed(rs0: seq<Region>, base0: PhysAddr, size0: PhysAddr,
                      rs: seq<Region>, base: PhysAddr, size: PhysAddr, i: nat)
    requires Merging(rs0, base0, size0, rs, base, size, i) && rs != [FILLER]
    requires i < |rs| && rs[i].base <= base && base + size <= rs[i].base + rs[i].size
    ensures Addresses(rs) == Addresses(rs0) + Span(base0, size0)
    ensures !Isolated(rs0, base0, base0 + size0)
  {
    EnclosedIn(rs, i, base, base + size);
    MergeTouch(rs0, base0, size0, rs, base, size, i);
  }

  lemma MergeExtended(rs0: seq<Region>, base0: PhysAddr, size0: PhysAddr,
                      rs: seq<Region>, base: PhysAddr, size: PhysAddr, i: nat, wider: Region)
    requires Merging(rs0, base0, size0, rs, base, size, i) && rs != [FILLER]
    requires i < |rs| && base < rs[i].base <= base + size <= rs[i].base + rs[i].size
    requires wider == Region(base, rs[i].base + rs[i].size - base)
    ensures Canonical(rs[i := wider]) && Addresses(rs[i := wider]) == Addresses(rs0) + Span(base0, size0)
    ensures !Isolated(rs0, base0, base0 + size0)
  {
    ExtendDown(rs, i, base, base + size);
    CanonicalUpdate(rs, i, wider);
    MergeTouch(rs0, base0, size0, rs, base, size, i);
  }

  lemma MergeAbsorbed(rs0: seq<Region>, base0: PhysAddr, size0: PhysAddr,
                      rs: seq<Region>, base: PhysAddr, size: PhysAddr, i: nat, base': PhysAddr, size': PhysAddr)
    requires Merging(rs0, base0, size0, rs, base, size, i) && rs != [FILLER]
    requires i < |rs| && Touches(rs[i], base, base + size) && rs[i].base + rs[i].size <= base + size
    requires base' == (if base < rs[i].base then base else rs[i].base) && base' + size' == base + size
    ensures Merging(rs0, base0, size0, Removed(rs, i), base', size', i)
  {
    hide Addresses, Isolated, Span, Canonical;
    var t := Removed(rs, i);
    assert Addresses(t) + Span(base', size') == Addresses(rs0) + Span(base0, size0) by {
      Absorb(rs, i, base, base + size, base');
    }
    assert Canonical(t) by {
      CanonicalRemoved(rs, i);
    }
    assert rs0 != [FILLER] && !Isolated(rs0, base0, base0 + size0) by {
      MergeTouch(rs0, base0, size0, rs, base, size, i);
    }
    assert forall k :: 0 <= k < i ==> t[k].base + t[k].size < base' by {
      Ordered(rs, i);
    }
  }

  lemma MergeIntoEmpty(rs0: seq<Region>, base0: PhysAddr, size0: PhysAddr,
                       rs: seq<Region>, base: PhysAddr, size: PhysAddr, i: nat)
    requires Merging(rs0, base0, size0, rs, base, size, i) && rs[0].size == 0
    ensures Canonical([Region(base, size)])
    ensures Addresses([Region(base, size)]) == Addresses(rs0) + Span(base0, size0)
    ensures rs0 == [FILLER] || !Isolated(rs0, base0, base0 + size0)
  {
    AddressesFiller();
    AddressesSingle(Region(base, size));
  }

  lemma MergeDone(rs0: seq<Region>, base0: PhysAddr, size0: PhysAddr,
                  rs: seq<Region>, base: PhysAddr, size: PhysAddr, i: nat)
    requires Merging(rs0, base0, size0, rs, base, size, i) && rs != [FILLER]
    requires i < |rs| ==> base + size < rs[i].base
    ensures forall k :: i <= k < |rs| ==> base + size < rs[k].base
    ensures Addresses(InsertAt(rs, i, Region(base, size))) == Addresses(rs0) + Span(base0, size0)
    ensures if rs == rs0 then Isolated(rs0, base0, base0 + size0)
      else |rs| < |rs0| && !Isolated(rs0, base0, base0 + size0)
  {
    AddressesInsert(rs, i, Region(base, size));
  }

  // ----- the removal loop, one branch at a time -----

  /** Some region runs past the end of the address space. */
  ghost predicate Ruined(rs: seq<Region>) {
    exists i :: 0 <= i < |rs| && rs[i].base + rs[i].size >= ADDRESS_SPACE
  }

  /**
    The loop invariant of Remove. The first i regions of rs lie below the range and only addresses of
    the range are gone -- or the region that started at the end of the range has been ruined.
   */
  ghost predicate Cutting(rs0: seq<Region>, rs: seq<Region>, base: PhysAddr, size: PhysAddr, i: int) {
    && 0 <= i <= |rs| && |rs| > 0
    && size > 0 && base + size < ADDRESS_SPACE
    && (StrictlyInsideOne(rs0, base, base + size) ==> rs == rs0)
    && if Ruined(rs) then
         && StartsAt(rs0, base + size) && !StrictlyInsideOne(rs0, base, base + size)
         && (forall k :: i <= k < |rs| ==> rs[k].base > base + size && rs[k].base + rs[k].size < ADDRESS_SPACE)
       else
         && Canonical(rs)
         && (forall k :: 0 <= k < i ==> rs[k].base + rs[k].size <= base)
         && Addresses(rs) - Span(base, size) == Addresses(rs0) - Span(base, size)
         && (StartsAt(rs, base + size) <==> StartsAt(rs0, base + size))
         && (StrictlyInsideOne(rs, base, base + size) <==> StrictlyInsideOne(rs0, base, base + size))
  }

  lemma CanonicalNotRuined(rs: seq<Region>)
    requires Canonical(rs)
    ensures !Ruined(rs)
  {
  }

  lemma CutStart(rs0: seq<Region>, base: PhysAddr, size: PhysAddr)
    requires Canonical(rs0) && size > 0 && base + size < ADDRESS_SPACE
    ensures Cutting(rs0, rs0, base, size, 0)
  {
    CanonicalNotRuined(rs0);
  }

  lemma CutBounds(rs0: seq<Region>, rs: seq<Region>, base: PhysAddr, size: PhysAddr, i: nat)
    requires Cutting(rs0, rs, base, size, i) && i < |rs|
    ensures rs[i].base + rs[i].size < ADDRESS_SPACE
    ensures Ruined(rs) ==> rs[i].base > base + size
    ensures !Ruined(rs) ==> Canonical(rs) && (rs[i].size == 0 <==> rs == [FILLER])
  {
  }

  lemma CutSkip(rs0: seq<Region>, rs: seq<Region>, base: PhysAddr, size: PhysAddr, i: nat)
    requires Cutting(rs0, rs, base, size, i) && !Ruined(rs)
    requires i < |rs| && rs[i].base + rs[i].size <= base
    ensures Cutting(rs0, rs, base, size, i + 1)
  {
  }

  lemma CutDrop(rs0: seq<Region>, rs: seq<Region>, base: PhysAddr, size: PhysAddr, i: nat)
    requires Cutting(rs0, rs, base, size, i) && !Ruined(rs) && rs != [FILLER]
    requires i < |rs| && base <= rs[i].base && rs[i].base + rs[i].size <= base + size
    ensures Cutting(rs0, Removed(rs, i), base, size, i)
  {
    hide Addresses, Span, Canonical, StartsAt, StrictlyInsideOne;
    CanonicalRemoved(rs, i);
    CanonicalNotRuined(Removed(rs, i));
    DropInside(rs, i, base, size);
    DropKeepsOthers(rs, i, base, size);
  }

  /** The region strictly around the range: cut to its low part, its high part is still to be added. */
  lemma CutSplit(rs0: seq<Region>, rs: seq<Region>, base: PhysAddr, size: PhysAddr, i: nat, low: Region)
    requires Cutting(rs0, rs, base, size, i) && !Ruined(rs) && rs != [FILLER]
    requires i < |rs| && rs[i].base < base && base + size < rs[i].base + rs[i].size
    requires low == Region(rs[i].base, base - rs[i].base)
    ensures rs == rs0 && Canonical(rs[i := low]) && rs[i := low] != [FILLER]
    ensures StrictlyInsideOne(rs0, base, base + size) && !StartsAt(rs0, base + size)
    ensures Isolated(rs[i := low], base + size, rs[i].base + rs[i].size)
    ensures Addresses(rs[i := low]) + Span(base + size, rs[i].base + rs[i].size - (base + size)) ==
      Addresses(rs0) - Span(base, size)
  {
    hide Addresses, Span, Canonical, StartsAt, Isolated;
    assert StrictlyInsideOne(rs, base, base + size);
    Ordered(rs, i);
    CanonicalUpdate(rs, i, low);
    SplitAddresses(rs, base, size, i, low);
    NoneStartsWithin(rs, i, base + size);
    SplitIsolated(rs, base, size, i, low);
  }

  lemma CutBottom(rs0: seq<Region>, rs: seq<Region>, base: PhysAddr, size: PhysAddr, i: nat, high: Region)
    requires Cutting(rs0, rs, base, size, i) && !Ruined(rs) && rs != [FILLER]
    requires i < |rs| && base <= rs[i].base < base + size < rs[i].base + rs[i].size
    requires high == Region(base + size, rs[i].base + rs[i].size - (base + size))
    ensures Canonical(rs[i := high])
    ensures !StrictlyInsideOne(rs0, base, base + size) && !StartsAt(rs0, base + size)
    ensures Addresses(rs[i := high]) == Addresses(rs0) - Span(base, size)
  {
    hide Addresses, Span, Canonical, StartsAt, StrictlyInsideOne;
    Ordered(rs, i);
    CanonicalUpdate(rs, i, high);
    TrimBottom(rs, base, size, i, high);
    NoneStartsWithin(rs, i, base + size);
    NoneStrictlyAround(rs, i, base, base + size);
  }

  lemma CutTop(rs0: seq<Region>, rs: seq<Region>, base: PhysAddr, size: PhysAddr, i: nat, low: Region)
    requires Cutting(rs0, rs, base, size, i) && !Ruined(rs) && rs != [FILLER]
    requires i < |rs| && base < rs[i].base + rs[i].size
    requires if rs[i].base < base + size then rs[i].base < base && rs[i].base + rs[i].size <= base + size
      else rs[i].base == base + size
    requires low == Region(rs[i].base, Sub32(rs[i].size, rs[i].base + rs[i].size - base))
    ensures Cutting(rs0, rs[i := low], base, size, i + 1)
  {
    var t := rs[i := low];
    Ordered(rs, i);
    assert forall k :: 0 <= k < |rs| && k != i ==> t[k] == rs[k];
    if rs[i].base == base + size {
      assert t[i].base + t[i].size >= ADDRESS_SPACE;
    } else {
      TrimTop(rs, base, size, i, low);
      CanonicalNotRuined(t);
    }
  }

  lemma CutDone(rs0: seq<Region>, rs: seq<Region>, base: PhysAddr, size: PhysAddr, i: nat)
    requires Cutting(rs0, rs, base, size, i)
    requires i < |rs| ==> rs[i].base > base + size || rs[i].size == 0
    ensures Canonical(rs) <==> !StartsAt(rs0, base + size)
    ensures !StartsAt(rs0, base + size) ==> Addresses(rs) == Addresses(rs0) - Span(base, size)
    ensures !StrictlyInsideOne(rs0, base, base + size)
  {
  }
}
