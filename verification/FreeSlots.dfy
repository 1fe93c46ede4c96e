/** What the top-down search of memblock looks for, stated without the search. */
module FreeSlots {
  import opened Regions
  import opened RegionLoops
  import opened Alignment

  const PAGE_SIZE: nat := 4096
  const MEMBLOCK_ERROR: nat := 0

  ghost predicate Unreserved(res: seq<Region>, a: int, size: int) {
    Addresses(res) !! Span(a, size)
  }

  /** a is aligned and [a, a + size) lies in [start, end); page 0 is never a candidate. */
  predicate Candidate(start: int, end: int, size: int, align: nat, a: int)
    requires align > 0
  {
    (if start == 0 then PAGE_SIZE else start) <= a && a + size <= end && a % align == 0
  }

  /** a is a candidate inside memory region m, clipped to [start, end). */
  predicate CandidateIn(m: Region, start: int, end: int, size: int, align: nat, a: int)
    requires align > 0
  {
    Candidate(if m.base < start then start else m.base,
              if m.base + m.size < end then m.base + m.size else end, size, align, a)
  }

  /** A free slot: a candidate of some memory region that meets no reserved region. */
  ghost predicate Slot(mem: seq<Region>, res: seq<Region>, start: int, end: int, size: int, align: nat, a: int)
    requires align > 0
  {
    Unreserved(res, a, size) && exists i :: 0 <= i < |mem| && CandidateIn(mem[i], start, end, size, align, a)
  }

  ghost predicate NoFreeSlot(mem: seq<Region>, res: seq<Region>, start: int, end: int, size: int, align: nat)
    requires align > 0
  {
    forall a :: !Slot(mem, res, start, end, size, align, a)
  }

  /** The outcome of memblock_find_base: the highest free slot, or the error value when there is none. */
  ghost predicate HighestSlot(mem: seq<Region>, res: seq<Region>, start: int, end: int, size: int, align: nat,
                              found: nat)
    requires align > 0
  {
    && (found == MEMBLOCK_ERROR <==> NoFreeSlot(mem, res, start, end, size, align))
    && (found != MEMBLOCK_ERROR ==> Slot(mem, res, start, end, size, align, found))
    && forall a :: Slot(mem, res, start, end, size, align, a) ==> a <= found
  }

  lemma NoOverlapIsUnreserved(res: seq<Region>, a: PhysAddr, size: PhysAddr)
    requires forall k :: 0 <= k < |res| ==> !AddrsOverlap(a, size, res[k].base, res[k].size)
    ensures Unreserved(res, a, size)
  {
  }

  lemma OverlapIsReserved(res: seq<Region>, j: nat, base: PhysAddr, a: int, size: PhysAddr)
    requires Canonical(res) && j < |res| && size > 0
    requires AddrsOverlap(base, size, res[j].base, res[j].size)
    requires res[j].base - size < a <= base
    ensures !Unreserved(res, a, size)
    ensures res[j].base < base + size
  {
    var x := if a < res[j].base then res[j].base else a;
    Ordered(res, j);
    assert Within(x, res[j].base, res[j].size);
    assert x in Addresses(res) && x in Span(a, size);
  }

  /** The skip of memblock_find_region passes over no free slot: whatever lies between meets region j. */
  lemma SkipIsSafe(res: seq<Region>, j: nat, start: nat, end: int, base: PhysAddr, size: PhysAddr, align: nat)
    requires Canonical(res) && j < |res| && size > 0 && align > 0
    requires AddrsOverlap(base, size, res[j].base, res[j].size)
    requires forall a :: Candidate(start, end, size, align, a) && Unreserved(res, a, size) ==> a <= base
    ensures res[j].base < base + size
    ensures res[j].base < size ==>
      forall a :: Candidate(start, end, size, align, a) ==> !Unreserved(res, a, size)
    ensures res[j].base >= size ==>
      && AlignDown(res[j].base - size, align) % align == 0
      && AlignDown(res[j].base - size, align) <= res[j].base - size
      && forall a :: Candidate(start, end, size, align, a) && Unreserved(res, a, size) ==>
        a <= AlignDown(res[j].base - size, align)
  {
    hide Unreserved, Canonical;
    OverlapIsReserved(res, j, base, base, size);
    forall a | Candidate(start, end, size, align, a) && Unreserved(res, a, size)
      ensures a <= res[j].base - size
      ensures res[j].base >= size ==> a <= AlignDown(res[j].base - size, align)
    {
      if a > res[j].base - size {
        OverlapIsReserved(res, j, base, a, size);
      } else {
        AlignDownHighest(res[j].base - size, align, a);
      }
    }
    if res[j].base >= size {
      AlignDownMultiple(res[j].base - size, align);
    }
  }

  // ----- the walk over the memory regions, from the top -----

  /** No free slot lies in region m. */
  ghost predicate NoneIn(m: Region, res: seq<Region>, start: int, end: int, size: int, align: nat)
    requires align > 0
  {
    forall a :: CandidateIn(m, start, end, size, align, a) ==> !Unreserved(res, a, size)
  }

  lemma NoneInUnfit(m: Region, res: seq<Region>, start: int, end: int, size: int, align: nat)
    requires align > 0 && size > 0
    requires m.size < size || m.base + m.size <= start || end <= m.base || end <= start
    ensures NoneIn(m, res, start, end, size, align)
  {
  }

  lemma NoSlot(mem: seq<Region>, res: seq<Region>, start: int, end: int, size: int, align: nat)
    requires align > 0
    requires forall k :: 0 <= k < |mem| ==> NoneIn(mem[k], res, start, end, size, align)
    ensures HighestSlot(mem, res, start, end, size, align, MEMBLOCK_ERROR)
  {
    hide Unreserved;
  }

  lemma NothingFoundIn(m: Region, res: seq<Region>, start: int, end: int, size: int, align: nat, bottom: int, top: int)
    requires align > 0
    requires bottom == (if m.base < start then start else m.base)
    requires top == (if m.base + m.size < end then m.base + m.size else end)
    requires forall a :: Candidate(bottom, top, size, align, a) ==> !Unreserved(res, a, size)
    ensures NoneIn(m, res, start, end, size, align)
  {
  }

  lemma SlotFoundIn(mem: seq<Region>, res: seq<Region>, start: int, end: int, size: int, align: nat, i: nat,
                    bottom: int, top: int, found: nat)
    requires align > 0 && Canonical(mem) && i < |mem| && size > 0
    requires forall k :: i < k < |mem| ==> NoneIn(mem[k], res, start, end, size, align)
    requires bottom == (if mem[i].base < start then start else mem[i].base)
    requires top == (if mem[i].base + mem[i].size < end then mem[i].base + mem[i].size else end)
    requires Candidate(bottom, top, size, align, found) && Unreserved(res, found, size)
    requires forall a :: Candidate(bottom, top, size, align, a) && Unreserved(res, a, size) ==> a <= found
    requires found != MEMBLOCK_ERROR
    ensures HighestSlot(mem, res, start, end, size, align, found)
  {
    hide Unreserved, Canonical;
    Ordered(mem, i);
    assert CandidateIn(mem[i], start, end, size, align, found);
    assert Slot(mem, res, start, end, size, align, found);
    forall a | Slot(mem, res, start, end, size, align, a)
      ensures a <= found
    {
      var k :| 0 <= k < |mem| && CandidateIn(mem[k], start, end, size, align, a);
      if k > i {
        assert false;
      }
    }
  }

  lemma HighestSlotFits(mem: seq<Region>, res: seq<Region>, start: int, end: int, size: int, align: nat, found: nat)
    requires align > 0 && size > 0 && start >= 0 && HighestSlot(mem, res, start, end, size, align, found)
    requires Canonical(mem)
    ensures found != MEMBLOCK_ERROR ==>
      found + size < ADDRESS_SPACE && Span(found, size) <= Addresses(mem) && found % align == 0
    ensures found == MEMBLOCK_ERROR ==> NoFreeSlot(mem, res, start, end, size, align)
  {
    if found != MEMBLOCK_ERROR {
      var i :| 0 <= i < |mem| && CandidateIn(mem[i], start, end, size, align, found);
      Ordered(mem, i);
      EnclosedIn(mem, i, found, found + size);
    }
  }

  lemma OverlapMeets(res: seq<Region>, j: nat, base: PhysAddr, size: PhysAddr)
    requires Canonical(res) && j < |res| && size > 0
    requires AddrsOverlap(base, size, res[j].base, res[j].size)
    ensures !Unreserved(res, base, size)
  {
    OverlapIsReserved(res, j, base, base, size);
  }

  /** In canonical form a range lies in the denoted set only if the region holding its base holds all of it. */
  lemma OneRegionHoldsAll(rs: seq<Region>, i: nat, base: int, size: nat)
    requires Canonical(rs) && i < |rs| && Within(base, rs[i].base, rs[i].size)
    ensures Span(base, size) <= Addresses(rs) <==> rs[i].base <= base && base + size <= rs[i].base + rs[i].size
  {
    var e := rs[i].base + rs[i].size;
    AddressesSplit(rs, i);
    Around(rs, i);
    assert e !in Addresses(rs);
    if base + size > e {
      assert e in Span(base, size);
    }
  }

  /**
    A free slot, address by address: aligned, inside the window, all memory and nothing reserved. Only page 0 is
    kept back, and only when the window begins there and memory does.
   */
  lemma SlotExactly(mem: seq<Region>, res: seq<Region>, start: int, end: int, size: int, align: nat, a: int)
    requires Canonical(mem) && align > 0 && size > 0 && start >= 0
    ensures Slot(mem, res, start, end, size, align, a) <==>
      && a % align == 0 && start <= a && a + size <= end
      && (forall x :: a <= x < a + size ==> x in Addresses(mem) && x !in Addresses(res))
      && (start == 0 && (forall x :: 0 <= x <= a ==> x in Addresses(mem)) ==> a >= 4096)
  {
    hide Slot, Addresses, Canonical;
    if Slot(mem, res, start, end, size, align, a) {
      SlotIsMemory(mem, res, start, end, size, align, a);
    }
    if && a % align == 0 && start <= a && a + size <= end
       && (forall x :: a <= x < a + size ==> x in Addresses(mem) && x !in Addresses(res))
       && (start == 0 && (forall x :: 0 <= x <= a ==> x in Addresses(mem)) ==> a >= 4096) {
      MemoryIsSlot(mem, res, start, end, size, align, a);
    }
  }

  lemma SlotIsMemory(mem: seq<Region>, res: seq<Region>, start: int, end: int, size: int, align: nat, a: int)
    requires Canonical(mem) && align > 0 && size > 0 && start >= 0 && Slot(mem, res, start, end, size, align, a)
    ensures a % align == 0 && start <= a && a + size <= end
    ensures forall x :: a <= x < a + size ==> x in Addresses(mem) && x !in Addresses(res)
    ensures start == 0 && (forall x :: 0 <= x <= a ==> x in Addresses(mem)) ==> a >= 4096
  {
    var i :| 0 <= i < |mem| && CandidateIn(mem[i], start, end, size, align, a);
    forall x | a <= x < a + size
      ensures x in Addresses(mem) && x !in Addresses(res)
    {
      assert Within(x, mem[i].base, mem[i].size);
      assert x in Span(a, size);
    }
    if start == 0 && forall x :: 0 <= x <= a ==> x in Addresses(mem) {
      RegionFromZero(mem, i, a);
    }
  }

  /** When all addresses up to a are memory, the region that holds a starts at 0. */
  lemma RegionFromZero(mem: seq<Region>, i: nat, a: int)
    requires Canonical(mem) && i < |mem| && Within(a, mem[i].base, mem[i].size)
    requires forall x :: 0 <= x <= a ==> x in Addresses(mem)
    ensures mem[i].base == 0
  {
    GapBelow(mem, i);
  }

  lemma GapBelow(mem: seq<Region>, i: nat)
    requires Canonical(mem) && i < |mem|
    ensures mem[i].base - 1 !in Addresses(mem)
  {
  }

  lemma MemoryIsSlot(mem: seq<Region>, res: seq<Region>, start: int, end: int, size: int, align: nat, a: int)
    requires Canonical(mem) && align > 0 && size > 0 && start >= 0
    requires forall x :: a <= x < a + size ==> x in Addresses(mem) && x !in Addresses(res)
    requires a % align == 0 && start <= a && a + size <= end
    requires start == 0 && (forall x :: 0 <= x <= a ==> x in Addresses(mem)) ==> a >= 4096
    ensures Slot(mem, res, start, end, size, align, a)
  {
    assert a in Addresses(mem);
    var i :| 0 <= i < |mem| && Within(a, mem[i].base, mem[i].size);
    OneRegionHoldsAll(mem, i, a, size);
    assert Span(a, size) <= Addresses(mem);
    if start == 0 && mem[i].base == 0 {
      assert forall x :: 0 <= x <= a ==> Within(x, mem[i].base, mem[i].size);
    }
    assert CandidateIn(mem[i], start, end, size, align, a);
  }
}
