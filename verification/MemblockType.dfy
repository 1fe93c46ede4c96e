/**
  One memblock table (struct memblock_type): a region array edited in place.
  Every operation is an exact set operation on the addresses the table denotes,
  and leaves the table in the unique canonical form of that set.
 */
module MemblockTables {
  import opened Regions
  import opened RegionLoops

  const INIT_MEMBLOCK_REGIONS: nat := 128

  class MemblockType {
    var regions: array<Region>
    var cnt: nat
    var max: nat

    /** Between calls there is always room for one more region: cnt < max. */
    ghost predicate Valid()
      reads this, regions
    {
      && 1 <= cnt < max <= regions.Length
      && Canonical(regions[..cnt])
    }

    ghost function Contents(): (rs: seq<Region>)
      requires cnt <= regions.Length
      reads this, regions
    {
      regions[..cnt]
    }

    /** The table as memblock_init sets it up. */
    constructor ()
      ensures Valid() && fresh(regions)
      ensures max == INIT_MEMBLOCK_REGIONS && Contents() == [FILLER]
    {
      regions := new Region[INIT_MEMBLOCK_REGIONS + 1](_ => FILLER);
      cnt, max := 1, INIT_MEMBLOCK_REGIONS;
      new;
      assert regions[..cnt] == [FILLER];
    }

    /** memblock_overlaps_region: the lowest index that overlaps, or -1. */
    method OverlapsRegion(base: PhysAddr, size: PhysAddr) returns (j: int)
      requires cnt <= regions.Length
      ensures -1 <= j < cnt
      ensures j >= 0 ==> AddrsOverlap(base, size, regions[j].base, regions[j].size)
      ensures forall k :: 0 <= k < (if j < 0 then cnt else j) ==>
        !AddrsOverlap(base, size, regions[k].base, regions[k].size)
    {
      var i := 0;
      while i < cnt
        invariant 0 <= i <= cnt
        invariant forall k :: 0 <= k < i ==> !AddrsOverlap(base, size, regions[k].base, regions[k].size)
      {
        if AddrsOverlap(base, size, regions[i].base, regions[i].size) {
          break;
        }
        i := i + 1;
      }
      j := if i < cnt then i else -1;
    }

    /** memblock_remove_region: shift the tail down; an emptied table gets the filler back. */
    method RemoveRegion(r: nat)
      requires r < cnt <= max <= regions.Length
      modifies this`cnt, regions
      ensures 1 <= cnt <= old(cnt) && (old(cnt) > 1 ==> cnt == old(cnt) - 1)
      ensures Contents() == Removed(old(Contents()), r)
    {
      ghost var rs := regions[..cnt];
      var i := r;
      while i < cnt - 1
        modifies regions
        invariant r <= i <= cnt - 1
        invariant forall k :: 0 <= k < r || i < k < cnt ==> regions[k] == rs[k]
        invariant forall k :: r <= k < i ==> regions[k] == rs[k + 1]
        invariant i == r ==> regions[i] == rs[i]
      {
        regions[i] := regions[i + 1];
        i := i + 1;
      }
      cnt := cnt - 1;
      assert regions[..cnt] == RemoveAt(rs, r);
      if cnt == 0 {
        cnt := 1;
        regions[0] := FILLER;
        assert regions[..cnt] == [FILLER];
      }
    }

    /** memblock_double_array on its slab path: capacity doubles and contents stay, or nothing changes. */
    method DoubleArray(canResize: bool, kmallocOk: bool) returns (failed: bool)
      requires cnt <= max <= regions.Length
      modifies this`regions, this`max
      ensures failed == !(canResize && kmallocOk)
      ensures failed ==> regions == old(regions) && max == old(max)
      ensures !failed ==> fresh(regions) && regions.Length == max == 2 * old(max)
      ensures cnt <= regions.Length && Contents() == old(Contents())
    {
      if !canResize {
        return true;
      }
      if !kmallocOk {
        return true;
      }
      var newArray := new Region[2 * max](_ => FILLER);
      forall k | 0 <= k < max {
        newArray[k] := regions[k];
      }
      regions := newArray;
      max := 2 * max;
      return false;
    }

    /** The insertion loop: shift every region above base up by one and put the new one in the gap. */
    method ShiftIn(base: PhysAddr, size: PhysAddr, ghost at: nat) returns (slot: int)
      requires 1 <= cnt < regions.Length && at <= cnt
      requires forall k :: 0 <= k < at ==> regions[k].base <= base
      requires forall k :: at <= k < cnt ==> base < regions[k].base
      modifies regions
      ensures slot == at
      ensures regions[..cnt + 1] == InsertAt(old(Contents()), at, Region(base, size))
    {
      ghost var rs := regions[..cnt];
      slot := -1;
      var i := cnt - 1;
      while i >= 0
        invariant -1 <= i < cnt
        invariant at <= i + 1
        invariant forall k :: 0 <= k <= i ==> regions[k] == rs[k]
        invariant i + 1 < cnt ==> regions[i + 1] == rs[i + 1]
        invariant forall k :: i + 2 <= k <= cnt ==> regions[k] == rs[k - 1]
      {
        if base < regions[i].base {
          regions[i + 1] := regions[i];
        } else {
          regions[i + 1] := Region(base, size);
          slot := i + 1;
          break;
        }
        i := i - 1;
      }
      if base < regions[0].base {
        regions[0] := Region(base, size);
        slot := 0;
      }
      ghost var t := InsertAt(rs, at, Region(base, size));
      assert forall k :: 0 <= k <= |rs| ==> regions[k] == t[k];
    }

    /** The new_block tail of memblock_add_region: sorted insertion, growth, and undo when growth fails. */
    method NewBlock(base: PhysAddr, size: PhysAddr, canResize: bool, kmallocOk: bool, ghost at: nat) returns (r: int)
      requires Valid() && Contents() != [FILLER]
      requires size > 0 && base + size < ADDRESS_SPACE
      requires at <= cnt
      requires forall k :: 0 <= k < at ==> regions[k].base + regions[k].size < base
      requires forall k :: at <= k < cnt ==> base + size < regions[k].base
      modifies this, regions
      ensures Valid()
      ensures regions == old(regions) || fresh(regions)
      ensures r == 0 || r == -1
      ensures r == -1 <==> old(cnt) + 1 == old(max) && !(canResize && kmallocOk)
      ensures r == 0 ==> cnt == old(cnt) + 1
      ensures max == if old(cnt) + 1 == old(max) && canResize && kmallocOk then 2 * old(max) else old(max)
      ensures r == 0 ==> Contents() == InsertAt(old(Contents()), at, Region(base, size))
      ensures r == -1 ==> Contents() == old(Contents()) && max == old(max) && regions == old(regions)
    {
      ghost var rs := regions[..cnt];
      ghost var grown := InsertAt(rs, at, Region(base, size));
      CanonicalInsert(rs, at, Region(base, size));
      // cnt < max holds between calls, so this return of the source is never taken
      if cnt >= max {
        return -1;
      }
      var slot := ShiftIn(base, size, at);
      cnt := cnt + 1;
      assert Contents() == grown;
      if cnt == max {
        var failed := DoubleArray(canResize, kmallocOk);
        if failed {
          assert Removed(grown, at) == rs;
          RemoveRegion(slot);
          return -1;
        }
      }
      return 0;
    }

    /**
      The coalescing loop of memblock_add_region. Either the range ends up inside one region (done),
      or every region it touched has been removed and its extent folded into [base, base + size).
     */
    method Coalesce(base0: PhysAddr, size0: PhysAddr)
        returns (done: bool, base: PhysAddr, size: PhysAddr, ghost at: nat)
      requires Valid()
      requires size0 > 0 && base0 + size0 < ADDRESS_SPACE
      modifies this`cnt, regions
      ensures Valid()
      ensures done ==> Addresses(Contents()) == Addresses(old(Contents())) + Span(base0, size0)
      ensures done ==> !Isolated(old(Contents()), base0, base0 + size0)
      ensures !done ==> Merging(old(Contents()), base0, size0, Contents(), base, size, at)
      ensures !done && at < cnt && Contents() != [FILLER] ==> base + size < regions[at].base
    {
      hide Addresses, Span, Isolated, Canonical, Merging;
      ghost var rs0 := Contents();
      ghost var rs := rs0;
      base, size, at, done := base0, size0, 0, true;
      var end: PhysAddr := base + size;
      var i := 0;
      MergeStart(rs0, base0, size0);
      while i < cnt
        modifies this`cnt, regions
        invariant 0 <= i <= cnt <= old(cnt) < max <= regions.Length && 1 <= cnt
        invariant base + size == end
        invariant rs == Contents()
        invariant Merging(rs0, base0, size0, rs, base, size, i)
        decreases cnt - i, if rs == [FILLER] then 0 else 1
      {
        ghost var prior, was, wasSize := rs, base, size;
        var rgn := regions[i];
        assert rgn == rs[i];
        MergeBounds(rs0, base0, size0, rs, base, size, i);
        var rend: PhysAddr := rgn.base + rgn.size;
        if rgn.base > end || rgn.size == 0 {
          break;
        }
        if rgn.base <= base && rend >= end {
          MergeEnclosed(rs0, base0, size0, rs, base, size, i);
          return;
        }
        if base < rgn.base && end >= rgn.base {
          ghost var wider := Region(base, rend - base);
          regions[i] := Region(base, rend - base);
          rs := rs[i := wider];
          if rend >= end {
            MergeExtended(rs0, base0, size0, prior, base, size, i, wider);
            return;
          }
          base := rend;
          size := end - base;
        }
        if base <= rend && end >= rend {
          size := size + (base - regions[i].base);
          base := regions[i].base;
          assert base == (if was < rgn.base then was else rgn.base) && base + size == was + wasSize;
          MergeAbsorbed(rs0, base0, size0, prior, was, wasSize, i, base, size);
          RemoveRegion(i);
          rs := Removed(prior, i);
          i := i - 1;
        } else {
          MergeSkip(rs0, base0, size0, rs, base, size, i);
        }
        i := i + 1;
      }
      done, at := false, i;
      MergeCanonical(rs0, base0, size0, rs, base, size, i);
    }

    /**
      memblock_add_region: the table denotes exactly its old addresses plus [base, base + size). A range
      that touches no region needs an entry of its own; the first one reuses the filler's.
     */
    method AddRegion(base0: PhysAddr, size0: PhysAddr, canResize: bool, kmallocOk: bool) returns (r: int)
      requires Valid()
      requires size0 > 0 && base0 + size0 < ADDRESS_SPACE
      modifies this, regions
      ensures Valid()
      ensures regions == old(regions) || fresh(regions)
      ensures r == 0 || r == -1
      ensures r == 0 ==> Addresses(Contents()) == Addresses(old(Contents())) + Span(base0, size0)
      ensures r == -1 ==> Contents() == old(Contents()) && max == old(max) && regions == old(regions)
      ensures r == -1 <==>
        && old(cnt) + 1 == old(max) && !(canResize && kmallocOk)
        && old(Contents()) != [FILLER] && Isolated(old(Contents()), base0, base0 + size0)
      ensures max ==
        if && old(cnt) + 1 == old(max) && canResize && kmallocOk
           && old(Contents()) != [FILLER] && Isolated(old(Contents()), base0, base0 + size0)
        then 2 * old(max) else old(max)
    {
      ghost var rs0 := Contents();
      var done, base, size, at := Coalesce(base0, size0);
      if done {
        return 0;
      }
      ghost var rs := Contents();
      if cnt == 1 && regions[0].size == 0 {
        MergeIntoEmpty(rs0, base0, size0, rs, base, size, at);
        regions[0] := Region(base, size);
        assert Contents() == [Region(base, size)];
        return 0;
      }
      ghost var grown := InsertAt(rs, at, Region(base, size));
      assert && (forall k :: at <= k < |rs| ==> base + size < rs[k].base)
             && Addresses(grown) == Addresses(rs0) + Span(base0, size0)
             && (if rs == rs0 then Isolated(rs0, base0, base0 + size0)
                 else |rs| < |rs0| && !Isolated(rs0, base0, base0 + size0)) by {
        MergeDone(rs0, base0, size0, rs, base, size, at);
      }
      assert forall k :: 0 <= k < cnt ==> regions[k] == rs[k];
      r := NewBlock(base, size, canResize, kmallocOk, at);
      if r == 0 {
        assert Contents() == grown;
      }
    }

    /**
      __memblock_remove. The table denotes exactly its old addresses minus [base, base + size) if and
      only if no region starts exactly at base + size: such a region reaches the top trim, whose 32-bit
      subtraction wraps.
     */
    method Remove(base: PhysAddr, size: PhysAddr, canResize: bool, kmallocOk: bool) returns (r: int)
      requires Valid()
      requires size > 0 && base + size < ADDRESS_SPACE
      modifies this, regions
      ensures 1 <= cnt < max <= regions.Length
      ensures regions == old(regions) || fresh(regions)
      ensures r == 0 || r == -1
      ensures Canonical(Contents()) <==> !StartsAt(old(Contents()), base + size)
      ensures r == 0 && !StartsAt(old(Contents()), base + size) ==>
        Addresses(Contents()) == Addresses(old(Contents())) - Span(base, size)
      ensures r == -1 ==> Contents() == old(Contents()) && max == old(max) && regions == old(regions)
      ensures r == -1 <==>
        && old(cnt) + 1 == old(max) && !(canResize && kmallocOk)
        && StrictlyInsideOne(old(Contents()), base, base + size)
      ensures !StartsAt(old(Contents()), base + size) ==>
        max ==
          if old(cnt) + 1 == old(max) && canResize && kmallocOk && StrictlyInsideOne(old(Contents()), base, base + size)
          then 2 * old(max) else old(max)
    {
      hide Addresses, Span, StartsAt, StrictlyInsideOne, Isolated, Canonical, Cutting;
      ghost var rs0 := Contents();
      ghost var rs := rs0;
      var end: PhysAddr := base + size;
      var i := 0;
      CutStart(rs0, base, size);
      while i < cnt
        invariant regions == old(regions) && max == old(max)
        invariant 0 <= i <= cnt <= old(cnt) < max <= regions.Length && 1 <= cnt
        invariant rs == Contents()
        invariant Cutting(rs0, rs, base, size, i)
        decreases cnt - i, if rs == [FILLER] then 0 else 1
      {
        ghost var prior := rs;
        var rgn := regions[i];
        assert rgn == rs[i];
        CutBounds(rs0, rs, base, size, i);
        var rend: PhysAddr := rgn.base + rgn.size;
        if rgn.base > end || rgn.size == 0 {
          break;
        }
        if base <= rgn.base && end >= rend {
          CutDrop(rs0, rs, base, size, i);
          RemoveRegion(i);
          rs := Removed(prior, i);
          continue;
        }
        if base > rgn.base && end < rend {
          ghost var low := Region(rgn.base, base - rgn.base);
          regions[i] := Region(rgn.base, base - rgn.base);
          rs := rs[i := low];
          CutSplit(rs0, prior, base, size, i, low);
          r := AddRegion(end, rend - end, canResize, kmallocOk);
          if r == 0 {
            return;
          }
          assert Contents() == rs;
          assert regions[i] == Contents()[i] == low;
          regions[i] := Region(regions[i].base, rend - regions[i].base);
          assert Contents() == prior;
          return;
        }
        if rgn.base < end && rend > end {
          ghost var high := Region(end, rend - end);
          regions[i] := Region(end, rgn.size - (end - rgn.base));
          CutBottom(rs0, prior, base, size, i, high);
          assert Contents() == prior[i := high];
          return 0;
        }
        if base < rend {
          ghost var low := Region(rgn.base, Sub32(rgn.size, rend - base));
          regions[i] := Region(rgn.base, Sub32(rgn.size, rend - base));
          rs := rs[i := low];
          CutTop(rs0, prior, base, size, i, low);
        } else {
          CutSkip(rs0, rs, base, size, i);
        }
        i := i + 1;
      }
      CutDone(rs0, rs, base, size, i);
      return 0;
    }

    /** memblock_search: binary search, correct because the regions are sorted and disjoint. */
    method Search(addr: PhysAddr) returns (idx: int)
      requires Valid()
      ensures -1 <= idx < cnt
      ensures idx >= 0 ==> Within(addr, Contents()[idx].base, Contents()[idx].size)
      ensures idx == -1 <==> !Covers(Contents(), addr)
    {
      ghost var rs := Contents();
      var left, right := 0, cnt;
      while left < right
        invariant 0 <= left <= right <= cnt
        invariant forall k :: 0 <= k < left ==> rs[k].base + rs[k].size <= addr
        invariant forall k :: right <= k < cnt ==> addr < rs[k].base
      {
        var mid := (right + left) / 2;
        assert regions[mid] == rs[mid];
        Ordered(rs, mid);
        if addr < regions[mid].base {
          right := mid;
        } else if addr >= regions[mid].base + regions[mid].size {
          left := mid + 1;
        } else {
          return mid;
        }
      }
      return -1;
    }
  }

  /** The wrap happens: removing [5, 10) from the one region [10, 15), which it does not even meet, ruins the table. */
  method RemovalRuinsNeighbour() returns (t: MemblockType)
    ensures fresh(t) && t.cnt <= t.regions.Length && !Canonical(t.Contents())
  {
    t := new MemblockType();
    AddressesFiller();
    var r := t.AddRegion(10, 5, false, false);
    ghost var rs := [Region(10, 5)];
    AddressesSingle(Region(10, 5));
    assert Addresses(t.Contents()) == Addresses(rs);
    CanonicalUnique(t.Contents(), rs);
    assert rs[0].size > 0 && rs[0].base == 10;
    r := t.Remove(5, 5, false, false);
  }
}
