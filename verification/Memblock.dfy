/** The allocator of modules/ion/memblock.c: the global pair of tables and the operations on both. */
module Memblocks {
  import opened Regions
  import opened Alignment
  import opened Masks
  import opened FreeSlots
  import opened MemblockTables
  import opened MemoryLimit

  const MEMBLOCK_ALLOC_ANYWHERE: PhysAddr := ADDRESS_SPACE - 1
  const MEMBLOCK_ALLOC_ACCESSIBLE: PhysAddr := 0

  /** memblock_add and memblock_reserve: the table before and after, and the return value. */
  ghost predicate AddOutcome(rs: seq<Region>, rs': seq<Region>, base: int, size: int, ret: int) {
    && Canonical(rs')
    && (|| (ret == 0 && Addresses(rs') == Addresses(rs) + Span(base, size))
        || (ret == -1 && rs' == rs))
  }

  /** memblock_free on a range at whose end no region starts. */
  ghost predicate FreeOutcome(rs: seq<Region>, rs': seq<Region>, base: int, size: int, ret: int) {
    !StartsAt(rs, base + size) ==>
      && Canonical(rs')
      && (|| (ret == 0 && Addresses(rs') == Addresses(rs) - Span(base, size))
          || (ret == -1 && rs' == rs))
  }

  ghost predicate SlotIsApart(mem: seq<Region>, res: seq<Region>, size: nat, align: nat, limit: nat, a: nat)
    requires align > 0
  {
    a != 0 && HighestSlot(mem, res, 0, limit, size, align, a) && res != [FILLER] && Isolated(res, a, a + size)
  }

  /** The highest free slot touches no reserved region, so that reserving it takes one more entry. */
  ghost predicate HighestSlotIsApart(mem: seq<Region>, res: seq<Region>, size: nat, align: nat, limit: nat)
    requires align > 0
  {
    exists a: nat :: SlotIsApart(mem, res, size, align, limit, a)
  }

  lemma OnlyHighestSlot(mem: seq<Region>, res: seq<Region>, size: nat, align: nat, limit: nat, found: nat)
    requires align > 0 && found != 0 && HighestSlot(mem, res, 0, limit, size, align, found)
    ensures !NoFreeSlot(mem, res, 0, limit, size, align)
    ensures HighestSlotIsApart(mem, res, size, align, limit) <==> res != [FILLER] && Isolated(res, found, found + size)
  {
    hide Slot, Isolated, NoFreeSlot;
    assert SlotIsApart(mem, res, size, align, limit, found) <==> res != [FILLER] && Isolated(res, found, found + size);
    forall a: nat | SlotIsApart(mem, res, size, align, limit, a)
      ensures a == found
    {
      assert Slot(mem, res, 0, limit, size, align, a) && Slot(mem, res, 0, limit, size, align, found);
    }
  }

  /** __memblock_alloc_base: nothing and 0, or the highest free slot, now reserved. */
  ghost predicate AllocOutcome(mem: seq<Region>, res: seq<Region>, res': seq<Region>, size: nat, align: nat, limit: nat,
                               ret: nat)
    requires align > 0
  {
    && Canonical(res')
    && (|| (ret == 0 && res' == res)
        || (ret != 0 && HighestSlot(mem, res, 0, limit, size, align, ret)
          && Addresses(res') == Addresses(res) + Span(ret, size)))
  }

  lemma SizeCounts(rs: seq<Region>, all: set<int>)
    requires Canonical(rs) && forall a :: a in all <==> a in Addresses(rs)
    ensures TotalSize(rs) == |all|
  {
    if rs == [FILLER] {
      AddressesFiller();
      assert Addresses(rs) == iset{};
      assert forall a :: a !in all;
      assert all == {};
    } else {
      TotalSizeCounts(rs, all);
    }
  }

  class Memblock {
    const memory: MemblockType
    const reserved: MemblockType
    var currentLimit: PhysAddr
    var memorySize: PhysAddr
    var canResize: bool

    ghost predicate Valid()
      reads this, memory, reserved, memory.regions, reserved.regions
    {
      && memory != reserved && memory.regions != reserved.regions
      && memory.Valid() && reserved.Valid()
    }

    /** memblock_init */
    constructor ()
      ensures Valid() && fresh(memory) && fresh(reserved) && fresh(memory.regions) && fresh(reserved.regions)
      ensures memory.Contents() == [FILLER] && reserved.Contents() == [FILLER]
      ensures currentLimit == MEMBLOCK_ALLOC_ANYWHERE && !canResize
    {
      memory := new MemblockType();
      reserved := new MemblockType();
      currentLimit := MEMBLOCK_ALLOC_ANYWHERE;
      memorySize := 0;
      canResize := false;
    }

    /** memblock_find_region */
    method FindRegion(start0: PhysAddr, end: PhysAddr, size: PhysAddr, align: PhysAddr) returns (found: PhysAddr)
      requires Valid() && size > 0 && IsAlignment(align)
      ensures found == MEMBLOCK_ERROR <==>
        forall a :: Candidate(start0, end, size, align, a) ==> !Unreserved(reserved.Contents(), a, size)
      ensures found != MEMBLOCK_ERROR ==>
        Candidate(start0, end, size, align, found) && Unreserved(reserved.Contents(), found, size)
      ensures forall a :: Candidate(start0, end, size, align, a) && Unreserved(reserved.Contents(), a, size) ==>
        a <= found
    {
      assert align > 0;
      hide Unreserved, Canonical, MaskDown, IsAlignment;
      ghost var res := reserved.Contents();
      var start := start0;
      if end < size {
        return MEMBLOCK_ERROR;
      }
      AlignDownMultiple(end - size, align);
      forall a | Candidate(start0, end, size, align, a)
        ensures a <= AlignDown(end - size, align)
      {
        AlignDownHighest(end - size, align, a);
      }
      MaskDownRounds(end - size, align);
      var base: PhysAddr := MaskDown(end - size, align);
      if start == 0 {
        start := PAGE_SIZE;
      }
      while start <= base
        invariant base % align == 0 && base + size <= end
        invariant forall a :: Candidate(start0, end, size, align, a) && Unreserved(res, a, size) ==> a <= base
        decreases base
      {
        var j := reserved.OverlapsRegion(base, size);
        if j < 0 {
          NoOverlapIsUnreserved(res, base, size);
          assert Candidate(start0, end, size, align, base);
          return base;
        }
        assert reserved.regions[j] == res[j];
        SkipIsSafe(res, j, start0, end, base, size, align);
        var resBase := reserved.regions[j].base;
        if resBase < size {
          break;
        }
        MaskDownRounds(resBase - size, align);
        base := MaskDown(resBase - size, align);
      }
      return MEMBLOCK_ERROR;
    }

    /** memblock_find_base */
    method FindBase(size: PhysAddr, align: PhysAddr, start: PhysAddr, end0: PhysAddr) returns (found: PhysAddr)
      requires Valid() && size > 0 && IsAlignment(align)
      ensures HighestSlot(memory.Contents(), reserved.Contents(), start,
                          if end0 == 0 then currentLimit else end0, size, align, found)
    {
      hide Unreserved, Canonical, NoneIn, CandidateIn;
      ghost var mem, res := memory.Contents(), reserved.Contents();
      var end := end0;
      if end == MEMBLOCK_ALLOC_ACCESSIBLE {
        end := currentLimit;
      }
      var i := memory.cnt - 1;
      while i >= 0
        invariant -1 <= i < memory.cnt
        invariant forall k :: i < k < |mem| ==> NoneIn(mem[k], res, start, end, size, align)
      {
        var m := memory.regions[i];
        assert m == mem[i];
        Ordered(mem, i);
        if m.size < size {
          NoneInUnfit(m, res, start, end, size, align);
          i := i - 1;
          continue;
        }
        if m.base + m.size <= start {
          forall k | 0 <= k <= i
            ensures NoneIn(mem[k], res, start, end, size, align)
          {
            NoneInUnfit(mem[k], res, start, end, size, align);
          }
          break;
        }
        var bottom: PhysAddr := if m.base < start then start else m.base;
        var top: PhysAddr := if m.base + m.size < end then m.base + m.size else end;
        if bottom >= top {
          NoneInUnfit(m, res, start, end, size, align);
          i := i - 1;
          continue;
        }
        found := FindRegion(bottom, top, size, align);
        if found != MEMBLOCK_ERROR {
          SlotFoundIn(mem, res, start, end, size, align, i, bottom, top, found);
          return found;
        }
        NothingFoundIn(m, res, start, end, size, align, bottom, top);
        i := i - 1;
      }
      NoSlot(mem, res, start, end, size, align);
      return MEMBLOCK_ERROR;
    }

    /**
      __memblock_alloc_base: the reserved outcome is AllocOutcome, the step used in MemblockRuns. BUG_ON(0 == size)
      of memblock_find_base fires exactly when rounding the size wraps.
     */
    method AllocBase(size0: PhysAddr, align: PhysAddr, maxAddr: PhysAddr, kmallocOk: bool)
        returns (bug: bool, r: PhysAddr)
      requires Valid() && IsAlignment(align) && size0 > 0
      modifies reserved, reserved.regions
      ensures Valid() && (reserved.regions == old(reserved.regions) || fresh(reserved.regions))
      ensures memory.Contents() == old(memory.Contents())
      ensures bug <==> size0 + align - 1 >= ADDRESS_SPACE
      ensures bug ==> reserved.Contents() == old(reserved.Contents())
      ensures !bug ==> AllocOutcome(memory.Contents(), old(reserved.Contents()), reserved.Contents(),
                                    AlignUp(size0, align), align, if maxAddr == 0 then currentLimit else maxAddr, r)
      ensures !bug ==>
        (r == 0 <==>
          var limit := if maxAddr == 0 then currentLimit else maxAddr;
          || NoFreeSlot(memory.Contents(), old(reserved.Contents()), 0, limit, AlignUp(size0, align), align)
          || (old(reserved.cnt) + 1 == old(reserved.max) && !(canResize && kmallocOk)
              && HighestSlotIsApart(memory.Contents(), old(reserved.Contents()), AlignUp(size0, align), align, limit)))
      ensures !bug && r != 0 && old(reserved.cnt) + 1 == old(reserved.max)
              && HighestSlotIsApart(memory.Contents(), old(reserved.Contents()), AlignUp(size0, align), align,
                                    if maxAddr == 0 then currentLimit else maxAddr) ==>
        reserved.max == 2 * old(reserved.max)
    {
      assert align > 0;
      hide NoFreeSlot, HighestSlot, HighestSlotIsApart, Canonical, Addresses, Isolated, MaskUp, IsAlignment;
      MaskUpZero(size0, align);
      MaskUpFits(size0, align);
      var size: PhysAddr := MaskUp(size0, align);
      if size == 0 {
        return true, 0;
      }
      bug := false;
      r := AllocRounded(size0, size, align, maxAddr, kmallocOk);
    }

    /** The search and the reservation, once the size is rounded. */
    method AllocRounded(ghost size0: PhysAddr, size: PhysAddr, align: PhysAddr, maxAddr: PhysAddr, kmallocOk: bool)
        returns (r: PhysAddr)
      requires Valid() && IsAlignment(align) && size0 > 0
      requires size0 + align - 1 < ADDRESS_SPACE && size == MaskUp(size0, align)
      modifies reserved, reserved.regions
      ensures Valid() && (reserved.regions == old(reserved.regions) || fresh(reserved.regions))
      ensures memory.Contents() == old(memory.Contents()) && size == AlignUp(size0, align)
      ensures AllocOutcome(memory.Contents(), old(reserved.Contents()), reserved.Contents(),
                           size, align, if maxAddr == 0 then currentLimit else maxAddr, r)
      ensures r == 0 <==>
        var limit := if maxAddr == 0 then currentLimit else maxAddr;
        || NoFreeSlot(memory.Contents(), old(reserved.Contents()), 0, limit, size, align)
        || (old(reserved.cnt) + 1 == old(reserved.max) && !(canResize && kmallocOk)
            && HighestSlotIsApart(memory.Contents(), old(reserved.Contents()), size, align, limit))
      ensures r != 0 && old(reserved.cnt) + 1 == old(reserved.max)
              && HighestSlotIsApart(memory.Contents(), old(reserved.Contents()), size, align,
                                    if maxAddr == 0 then currentLimit else maxAddr) ==>
        reserved.max == 2 * old(reserved.max)
    {
      assert align > 0;
      hide NoFreeSlot, HighestSlot, HighestSlotIsApart, Canonical, Addresses, Isolated, MaskUp, IsAlignment;
      ghost var mem, res := memory.Contents(), reserved.Contents();
      AlignUpLowest(size0, align);
      MaskUpRounds(size0, align);
      var found := FindBase(size, align, 0, maxAddr);
      ghost var limit := if maxAddr == 0 then currentLimit else maxAddr;
      HighestSlotFits(mem, res, 0, limit, size, align, found);
      if found != MEMBLOCK_ERROR {
        OnlyHighestSlot(mem, res, size, align, limit, found);
        var failed := reserved.AddRegion(found, size, canResize, kmallocOk);
        if failed == 0 {
          return found;
        }
      }
      return 0;
    }

    /** memblock_add */
    method Add(base: PhysAddr, size: PhysAddr, kmallocOk: bool) returns (r: int)
      requires Valid() && size > 0 && base + size < ADDRESS_SPACE
      modifies memory, memory.regions
      ensures Valid() && (memory.regions == old(memory.regions) || fresh(memory.regions))
      ensures reserved.Contents() == old(reserved.Contents())
      ensures AddOutcome(old(memory.Contents()), memory.Contents(), base, size, r)
      ensures r == -1 <==>
        && old(memory.cnt) + 1 == old(memory.max) && !(canResize && kmallocOk)
        && old(memory.Contents()) != [FILLER] && Isolated(old(memory.Contents()), base, base + size)
      ensures memory.max ==
        if && old(memory.cnt) + 1 == old(memory.max) && canResize && kmallocOk
           && old(memory.Contents()) != [FILLER] && Isolated(old(memory.Contents()), base, base + size)
        then 2 * old(memory.max) else old(memory.max)
    {
      r := memory.AddRegion(base, size, canResize, kmallocOk);
    }

    /** memblock_reserve */
    method Reserve(base: PhysAddr, size: PhysAddr, kmallocOk: bool) returns (r: int)
      requires Valid() && size > 0 && base + size < ADDRESS_SPACE
      modifies reserved, reserved.regions
      ensures Valid() && (reserved.regions == old(reserved.regions) || fresh(reserved.regions))
      ensures memory.Contents() == old(memory.Contents())
      ensures AddOutcome(old(reserved.Contents()), reserved.Contents(), base, size, r)
      ensures r == -1 <==>
        && old(reserved.cnt) + 1 == old(reserved.max) && !(canResize && kmallocOk)
        && old(reserved.Contents()) != [FILLER] && Isolated(old(reserved.Contents()), base, base + size)
      ensures reserved.max ==
        if old(reserved.cnt) + 1 == old(reserved.max) && canResize && kmallocOk
           && old(reserved.Contents()) != [FILLER] && Isolated(old(reserved.Contents()), base, base + size)
        then 2 * old(reserved.max) else old(reserved.max)
    {
      r := reserved.AddRegion(base, size, canResize, kmallocOk);
    }

    /** memblock_free; it leaves a valid table exactly when no reserved region starts at the end of the range. */
    method Free(base: PhysAddr, size: PhysAddr, kmallocOk: bool) returns (r: int)
      requires Valid() && size > 0 && base + size < ADDRESS_SPACE
      modifies reserved, reserved.regions
      ensures Valid() <==> !StartsAt(old(reserved.Contents()), base + size)
      ensures reserved.cnt <= reserved.regions.Length
      ensures reserved.regions == old(reserved.regions) || fresh(reserved.regions)
      ensures memory.Contents() == old(memory.Contents())
      ensures FreeOutcome(old(reserved.Contents()), reserved.Contents(), base, size, r)
      ensures r == -1 <==>
        && old(reserved.cnt) + 1 == old(reserved.max) && !(canResize && kmallocOk)
        && StrictlyInsideOne(old(reserved.Contents()), base, base + size)
    {
      r := reserved.Remove(base, size, canResize, kmallocOk);
    }

    /** memblock_end_of_DRAM */
    method EndOfDram() returns (end: PhysAddr)
      requires Valid()
      ensures end == DramEnd(memory.Contents())
      ensures forall a :: a in Addresses(memory.Contents()) ==> a < end
      ensures memory.Contents() != [FILLER] ==> end - 1 in Addresses(memory.Contents())
    {
      var idx := memory.cnt - 1;
      assert memory.regions[idx] == memory.Contents()[idx];
      AllBelowEnd(memory.Contents());
      Ordered(memory.Contents(), idx);
      assert Within(DramEnd(memory.Contents()) - 1, memory.regions[idx].base, memory.regions[idx].size)
        <==> memory.regions[idx].size > 0;
      return memory.regions[idx].base + memory.regions[idx].size;
    }

    /** memblock_analyze: memory_size is the number of bytes of memory; from here on tables may grow. */
    method Analyze()
      requires Valid()
      modifies this`memorySize, this`canResize
      ensures Valid() && canResize
      ensures memorySize == TotalSize(memory.Contents())
      ensures forall all: set<int> ::
        (forall a :: a in all <==> a in Addresses(memory.Contents())) ==> memorySize == |all|
    {
      ghost var rs := memory.Contents();
      memorySize := 0;
      var i := 0;
      assert rs[..0] == [];
      while i < memory.cnt
        invariant 0 <= i <= memory.cnt
        invariant memorySize == TotalSize(rs[..i])
      {
        assert memory.regions[i] == rs[i];
        assert rs[..i + 1] == rs[..i] + [rs[i]];
        TotalSizeSnoc(rs[..i], rs[i]);
        PrefixSizeFits(rs, i + 1);
        memorySize := memorySize + memory.regions[i].size;
        i := i + 1;
      }
      assert rs[..i] == rs;
      canResize := true;
      forall all: set<int> | forall a :: a in all <==> a in Addresses(rs)
        ensures memorySize == |all|
      {
        SizeCounts(rs, all);
      }
    }

    /** memblock_is_memory and memblock_is_reserved */
    method IsMemory(addr: PhysAddr) returns (b: bool)
      requires Valid()
      ensures b <==> addr in Addresses(memory.Contents())
    {
      var idx := memory.Search(addr);
      b := idx != -1;
    }

    method IsReserved(addr: PhysAddr) returns (b: bool)
      requires Valid()
      ensures b <==> addr in Addresses(reserved.Contents())
    {
      var idx := reserved.Search(addr);
      b := idx != -1;
    }

    /** memblock_is_region_memory: exact because adjacent regions are always merged into one. */
    method IsRegionMemory(base: PhysAddr, size: PhysAddr) returns (b: bool)
      requires Valid() && base + size < ADDRESS_SPACE
      ensures b <==> base in Addresses(memory.Contents()) && Span(base, size) <= Addresses(memory.Contents())
    {
      var idx := memory.Search(base);
      if idx == -1 {
        return false;
      }
      assert memory.regions[idx] == memory.Contents()[idx];
      OneRegionHoldsAll(memory.Contents(), idx, base, size);
      return memory.regions[idx].base <= base && memory.regions[idx].base + memory.regions[idx].size >= base + size;
    }

    /** memblock_is_region_reserved */
    method IsRegionReserved(base: PhysAddr, size: PhysAddr) returns (b: bool)
      requires Valid() && size > 0 && base + size < ADDRESS_SPACE
      ensures b <==> !Unreserved(reserved.Contents(), base, size)
    {
      var j := reserved.OverlapsRegion(base, size);
      ghost var res := reserved.Contents();
      if j >= 0 {
        assert reserved.regions[j] == res[j];
        OverlapMeets(res, j, base, size);
      } else {
        assert forall k :: 0 <= k < |res| ==> reserved.regions[k] == res[k];
        NoOverlapIsUnreserved(res, base, size);
      }
      return j >= 0;
    }

    /** The first loop of memblock_enforce_memory_limit. */
    method TruncateMemory(memoryLimit: PhysAddr)
      requires Valid() && memoryLimit > 0
      modifies memory`cnt, memory.regions
      ensures Valid()
      ensures memory.Contents() == Truncated(old(memory.Contents()), memoryLimit)
    {
      hide Truncated, Canonical;
      ghost var rs := memory.Contents();
      var limit: PhysAddr := memoryLimit;
      var i := 0;
      TruncatedStart(rs, memoryLimit);
      while i < memory.cnt
        invariant 0 <= i <= memory.cnt && memory.cnt == |rs| && limit > 0
        invariant memory.Contents() == rs
        invariant TruncatedFrom(rs, memoryLimit, i, limit)
      {
        assert memory.regions[i] == rs[i];
        TruncatedStep(rs, memoryLimit, i, limit);
        if limit > memory.regions[i].size {
          limit := limit - memory.regions[i].size;
          i := i + 1;
          continue;
        }
        memory.regions[i] := Region(memory.regions[i].base, limit);
        memory.cnt := i + 1;
        assert memory.Contents() == rs[..i] + [Region(rs[i].base, limit)];
        TruncatedCanonical(rs, memoryLimit);
        return;
      }
      TruncatedEnd(rs, memoryLimit, limit);
      TruncatedCanonical(rs, memoryLimit);
    }

    /** The second loop of memblock_enforce_memory_limit, each iteration one ClipStep. */
    method ClipReserved(end: PhysAddr)
      requires Valid() && SomeSurvives(reserved.Contents(), end)
      modifies reserved`cnt, reserved.regions
      ensures Valid()
      ensures Addresses(reserved.Contents()) == Addresses(old(reserved.Contents())) * Below(end)
    {
      hide Addresses, Clipping, ClipRun, Canonical;
      ghost var rs0 := reserved.Contents();
      ghost var rs := rs0;
      ghost var n := 0;
      ClipStart(rs0, end);
      ClipRunStart(rs0, end);
      var i := 0;
      while i < reserved.cnt
        modifies reserved`cnt, reserved.regions
        invariant 0 <= i <= reserved.cnt <= |rs0| && reserved.cnt < reserved.max
        invariant rs == reserved.Contents()
        invariant ClipRun(rs0, end, n) == (rs, i)
        invariant Clipping(rs0, rs, end, i)
        decreases reserved.cnt - i
      {
        ClipStepKeeps(rs0, rs, end, i);
        ClipRunNext(rs0, end, n, rs, i);
        var p := reserved.regions[i];
        assert p == rs[i];
        if p.base > end {
          p := Region(p.base, 0);
        } else if p.base + p.size > end {
          p := Region(p.base, end - p.base);
        }
        reserved.regions[i] := p;
        rs := rs[i := p];
        n := n + 1;
        if p.size == 0 {
          reserved.RemoveRegion(i);
          rs := Removed(rs, i);
        } else {
          i := i + 1;
        }
      }
      ClipDone(rs0, rs, end);
    }

    /**
      memblock_enforce_memory_limit. The reserved loop stops only when some reserved region starts below
      the new end of DRAM: ClipHaltsExactly shows that the last precondition is the exact condition.
     */
    method EnforceMemoryLimit(memoryLimit: PhysAddr)
      requires Valid()
      requires memoryLimit != 0 ==>
        SomeSurvives(reserved.Contents(), DramEnd(Truncated(memory.Contents(), memoryLimit)))
      modifies memory`cnt, memory.regions, reserved`cnt, reserved.regions
      ensures Valid()
      ensures memoryLimit == 0 ==>
        memory.Contents() == old(memory.Contents()) && reserved.Contents() == old(reserved.Contents())
      ensures memoryLimit != 0 ==>
        && memory.Contents() == Truncated(old(memory.Contents()), memoryLimit)
        && Addresses(reserved.Contents()) == Addresses(old(reserved.Contents())) * Below(DramEnd(memory.Contents()))
    {
      if memoryLimit == 0 {
        return;
      }
      TruncateMemory(memoryLimit);
      var end := EndOfDram();
      ClipReserved(end);
    }
  }

  /** Limit, then analyze: memory_size is the smaller of the limit and what there was. */
  method LimitAndAnalyze(mb: Memblock, memoryLimit: PhysAddr)
    requires mb.Valid() && memoryLimit > 0
    requires SomeSurvives(mb.reserved.Contents(), DramEnd(Truncated(mb.memory.Contents(), memoryLimit)))
    modifies mb, mb.memory`cnt, mb.memory.regions, mb.reserved`cnt, mb.reserved.regions
    ensures mb.Valid()
    ensures mb.memorySize == var total := TotalSize(old(mb.memory.Contents()));
      if memoryLimit < total then memoryLimit else total
  {
    TruncatedSize(mb.memory.Contents(), memoryLimit);
    mb.EnforceMemoryLimit(memoryLimit);
    mb.Analyze();
  }
}
