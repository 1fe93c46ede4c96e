/**
  Buffers in the tiler heap (modules/ion/gpu/omap/omap_tiler_heap.c): a tiler area backed by carveout pages,
  in one lump or page by page, with a rollback ladder. The tiler itself is a set of areas and a set of pins;
  every call outside this file may fail, and its result is a parameter.
 */
module TilerHeaps {
  import opened Alignment
  import opened Bitmaps
  import opened GenPools
  import opened GenPoolRuns
  import opened PageBits

  const PAGE_SHIFT: nat := 12
  const PAGE_SIZE: nat := 4096
  const EINVAL: int := 22
  const ENOMEM: int := 12
  const ION_CARVEOUT_ALLOCATE_FAIL: int := -1

  /** What a call returning a kernel pointer may hand back. */
  datatype Pointer = Ptr(id: nat) | ErrPtr(code: int) | Null {
    /** PTR_ERR of a pointer that is not valid: the code, and 0 for NULL. */
    function PtrErr(): int {
      if ErrPtr? then code else 0
    }
  }

  /** The request's shape, and what the calls made for it come back with. */
  datatype Request = Request(pageFormat: bool, height: nat, memsizeRet: int, infoOk: bool,
                             area: Pointer, pinRet: int, handle: Pointer)
  {
    /** An error pointer carries an error. */
    predicate Sane() {
      (area.ErrPtr? ==> area.code != 0) && (handle.ErrPtr? ==> handle.code != 0)
    }

    predicate PassesChecks() {
      !(pageFormat && height != 1) && memsizeRet == 0 && infoOk
    }

    /** The first thing that goes wrong decides; `backed` says whether the pool has the pages. */
    function ReturnValue(backed: bool): int {
      if pageFormat && height != 1 then -EINVAL
      else if memsizeRet != 0 then memsizeRet
      else if !infoOk then -ENOMEM
      else if !area.Ptr? then area.PtrErr()
      else if !backed then -ENOMEM
      else if pinRet != 0 then pinRet
      else if !handle.Ptr? then handle.PtrErr()
      else 0
    }

    predicate Succeeds(backed: bool) {
      PassesChecks() && area.Ptr? && backed && pinRet == 0 && handle.Ptr?
    }

    /** The area is NULL, or everything before the handle works and the handle is NULL. */
    predicate FailsSilently(backed: bool) {
      PassesChecks() && (area.Null? || (area.Ptr? && backed && pinRet == 0 && handle.Null?))
    }
  }

  /** The value 0 without a buffer: exactly the silent failures. */
  lemma ReturnsZeroWithoutBuffer(q: Request, backed: bool)
    requires q.Sane()
    ensures q.ReturnValue(backed) == 0 && !q.Succeeds(backed) <==> q.FailsSilently(backed)
  {
  }

  /** A request that is right in everything but the handle of ion_alloc, which is NULL, reports success. */
  lemma NullHandleReportsSuccess()
    ensures var q := Request(false, 480, 0, true, Ptr(7), 0, Null);
      q.Sane() && q.ReturnValue(true) == 0 && !q.Succeeds(true)
  {
  }

  function BlockSize(lump: bool, nPhysPages: nat): nat {
    if lump then nPhysPages * PAGE_SIZE else PAGE_SIZE
  }

  ghost predicate BackedAt(starts: seq<nat>, view: seq<seq<bool>>, addr: int, b: Block, size: SizeT) {
    && |starts| == |view| && InBounds(view, b)
    && b.n == BitsFor(size, PAGE_SHIFT) > 0
    && addr == starts[b.chunk] + b.first * PAGE_SIZE
  }

  /**
    The bits in `where` back the first |where| entries of addrs, `size` bytes each. They were all free in
    `before` and are exactly what `view` has set on top of it.
   */
  ghost predicate Backed(starts: seq<nat>, before: seq<seq<bool>>, view: seq<seq<bool>>,
                         addrs: seq<nat>, where: seq<Block>, size: SizeT) {
    && SameShape(before, view) && |starts| == |view|
    && |where| <= |addrs|
    && (forall k :: 0 <= k < |where| ==> BackedAt(starts, view, addrs[k], where[k], size))
    && PairwiseDisjoint(where)
    && LiveSlots(where) !! Busy(before)
    && Busy(view) == Busy(before) + LiveSlots(where)
  }

  /** The bitmaps of the pool, and the areas and pins of the tiler. */
  datatype Space = Space(view: seq<seq<bool>>, areas: set<nat>, pins: set<nat>)

  /** A buffer's area, its page addresses, the pool bits behind them, and the size of the pieces: one lump, or pages. */
  datatype Buffer = Buffer(area: nat, addrs: seq<nat>, where: seq<Block>, size: nat)

  /** The outcome of a successful omap_tiler_alloc. */
  ghost predicate BufferTaken(starts: seq<nat>, s: Space, b: Buffer, s': Space) {
    && b.size < 0x1_0000_0000 && Backed(starts, s.view, s'.view, b.addrs, b.where, b.size)
    && b.area !in s.areas && s'.areas == s.areas + {b.area} && s'.pins == s.pins + {b.area}
  }

  /** The outcome of omap_tiler_heap_free. */
  ghost predicate BufferReturned(s: Space, b: Buffer, s': Space) {
    && SameShape(s.view, s'.view) && Busy(s'.view) == Busy(s.view) - LiveSlots(b.where)
    && s'.areas == s.areas - {b.area} && s'.pins == s.pins - {b.area}
  }

  /** struct omap_tiler_info. `where` records which pool bits back the buffer. */
  class TilerInfo {
    var tilerHandle: nat
    var lump: bool
    var nPhysPages: nat
    const physAddrs: array<nat>
    ghost var where: seq<Block>

    /** The buffer's addresses and pool bits agree, one block in lump mode, one per page otherwise. */
    ghost predicate Stands(starts: seq<nat>, view: seq<seq<bool>>)
      reads this, physAddrs
    {
      && nPhysPages == physAddrs.Length
      && BlockSize(lump, nPhysPages) < 0x1_0000_0000
      && |where| == (if lump then 1 else nPhysPages) <= nPhysPages
      && forall k :: 0 <= k < |where| ==> BackedAt(starts, view, physAddrs[k], where[k], BlockSize(lump, nPhysPages))
    }

    ghost function AsBuffer(): Buffer
      reads this, physAddrs
    {
      Buffer(tilerHandle, physAddrs[..], where, BlockSize(lump, nPhysPages))
    }

    /** The buffer stands, its pages are consecutive in lump mode, and its bits are what `view` adds to `before`. */
    ghost predicate Holds(starts: seq<nat>, before: seq<seq<bool>>, view: seq<seq<bool>>)
      reads this, physAddrs
    {
      && Stands(starts, view)
      && (lump ==> forall k :: 0 <= k < nPhysPages ==> physAddrs[k] == physAddrs[0] + k * PAGE_SIZE)
      && Backed(starts, before, view, physAddrs[..], where, BlockSize(lump, nPhysPages))
    }

    constructor (pages: nat)
      ensures nPhysPages == pages == physAddrs.Length && !lump && where == [] && fresh(physAddrs)
    {
      tilerHandle, lump, nPhysPages, where := 0, false, pages, [];
      physAddrs := new nat[pages](_ => 0);
    }
  }

  function Min(a: nat, b: nat): nat {
    if a < b then a else b
  }

  class TilerHeap {
    const pool: Pool
    var areas: set<nat>
    var pins: set<nat>

    constructor (carveout: Pool)
      requires carveout.Valid() && carveout.RangesDisjoint() && carveout.order == PAGE_SHIFT
      requires forall c :: 0 <= c < |carveout.chunks| ==> carveout.chunks[c].startAddr > 0 && carveout.Straight(c)
      ensures Valid() && pool == carveout && areas == pins == {}
    {
      pool, areas, pins := carveout, {}, {};
    }

    ghost predicate Valid()
      reads this, pool, pool.Bitmaps()
    {
      && pool.Valid() && |pool.starts| == |pool.view| && pool.RangesDisjoint() && pool.order == PAGE_SHIFT
      && (forall c :: 0 <= c < |pool.chunks| ==> pool.chunks[c].startAddr > 0 && pool.Straight(c))
      && pins <= areas
    }

    ghost function View(): Space
      reads this, pool
    {
      Space(pool.view, areas, pins)
    }

    /** ion_carveout_allocate */
    method CarveoutAllocate(size: SizeT) returns (addr: int, ghost b: Block)
      requires Valid() && 0 < size && size + PAGE_SIZE <= 0x1_0000_0000
      modifies pool.Bitmaps(), pool`view
      ensures Valid() && pool.chunks == old(pool.chunks) && pool.starts == old(pool.starts)
      ensures areas == old(areas) && pins == old(pins)
      ensures SameShape(old(pool.view), pool.view)
      ensures addr == ION_CARVEOUT_ALLOCATE_FAIL ==> pool.view == old(pool.view)
      ensures addr == ION_CARVEOUT_ALLOCATE_FAIL <==> NoRoomFor(old(pool.view), BitsFor(size, PAGE_SHIFT))
      ensures addr != ION_CARVEOUT_ALLOCATE_FAIL ==>
        FirstFit(old(pool.view), b) && pool.view == Marked(old(pool.view), b, true)
      ensures addr != ION_CARVEOUT_ALLOCATE_FAIL ==>
        && addr > 0 && BackedAt(pool.starts, pool.view, addr, b, size)
        && Slots(b) !! Busy(old(pool.view)) && Busy(pool.view) == Busy(old(pool.view)) + Slots(b)
    {
      ghost var v := pool.view;
      ghost var found;
      addr, b, found := pool.Alloc(size);
      Pow2Twelve();
      BitsUnwrapped(size, PAGE_SHIFT);
      if found {
        MarkSets(v, b);
        FitIsFree(v, b);
      }
      if addr == 0 {
        addr := ION_CARVEOUT_ALLOCATE_FAIL;
      }
    }

    /** ion_carveout_free of one block. */
    method CarveoutFree(addr: nat, size: SizeT, ghost b: Block)
      requires Valid() && 0 < size && size + PAGE_SIZE <= 0x1_0000_0000
      requires BackedAt(pool.starts, pool.view, addr, b, size)
      modifies pool.Bitmaps(), pool`view
      ensures Valid() && pool.chunks == old(pool.chunks) && pool.starts == old(pool.starts)
      ensures areas == old(areas) && pins == old(pins)
      ensures SameShape(old(pool.view), pool.view)
      ensures Busy(pool.view) == Busy(old(pool.view)) - Slots(b)
    {
      Pow2Twelve();
      MarkClears(pool.view, b);
      pool.BlockIsFreed(b, addr, size);
      var bug, c := pool.Free(addr, size);
      assert !bug && c == b.chunk;
    }

    /** The page-by-page fallback: as many pages as are asked for, or all that can be had. */
    method AllocatePages(info: TilerInfo) returns (got: nat)
      requires Valid() && info.where == [] && info.physAddrs.Length == info.nPhysPages
      requires info.physAddrs !in pool.Bitmaps()
      modifies pool.Bitmaps(), pool`view, info.physAddrs, info`where
      ensures Valid() && pool.chunks == old(pool.chunks) && pool.starts == old(pool.starts)
      ensures |info.where| == got == Min(info.nPhysPages, UsablePages(old(pool.view)))
      ensures Backed(pool.starts, old(pool.view), pool.view, info.physAddrs[..], info.where, PAGE_SIZE)
    {
      hide Backed, Busy, Slots, SameShape, InBounds, Pool.Valid, Pool.RangesDisjoint, NoRoomFor, UsablePages;
      hide FirstFit, Marked;
      ghost var before, starts := pool.view, pool.starts;
      BitsOfPages(1);
      BackedNone(starts, before, info.physAddrs[..], PAGE_SIZE);
      var i := 0;
      while i < info.nPhysPages
        invariant Valid() && pool.chunks == old(pool.chunks) && pool.starts == old(pool.starts)
        invariant info.physAddrs !in pool.Bitmaps()
        invariant 0 <= i <= info.nPhysPages && |info.where| == i && UsablePages(pool.view) + i == UsablePages(before)
        invariant Backed(starts, before, pool.view, info.physAddrs[..], info.where, PAGE_SIZE)
      {
        ghost var view, addrs := pool.view, info.physAddrs[..];
        RoomWhileUsable(view);
        var addr, b := CarveoutAllocate(PAGE_SIZE);
        if addr == ION_CARVEOUT_ALLOCATE_FAIL {
          return i;
        }
        PageTakesOne(view, b);
        assert pool.Valid() && info.physAddrs !in pool.Bitmaps();
        info.physAddrs[i] := addr;
        assert pool.Valid();
        assert info.physAddrs[..] == addrs[i := addr];
        BackedPush(starts, before, view, pool.view, addrs, addr, info.where, b, PAGE_SIZE);
        info.where := info.where + [b];
        i := i + 1;
      }
      return i;
    }

    /** The page loop of the rollback ladder: from the last page taken down to the first. */
    method ReleasePages(info: TilerInfo, count: nat, ghost before: seq<seq<bool>>)
      requires Valid() && count == |info.where|
      requires Backed(pool.starts, before, pool.view, info.physAddrs[..], info.where, PAGE_SIZE)
      requires info.physAddrs !in pool.Bitmaps()
      modifies pool.Bitmaps(), pool`view
      ensures Valid() && pool.chunks == old(pool.chunks) && pool.starts == old(pool.starts)
      ensures pool.view == before
    {
      hide Backed, BackedAt, Busy, Slots, SameShape, InBounds, Pool.Valid, Pool.RangesDisjoint;
      ghost var addrs, where := info.physAddrs[..], info.where;
      var i := count - 1;
      assert where[..i + 1] == where;
      while i >= 0
        invariant -1 <= i < count
        invariant Valid() && pool.chunks == old(pool.chunks) && pool.starts == old(pool.starts)
        invariant info.physAddrs[..] == addrs
        invariant Backed(pool.starts, before, pool.view, addrs, where[..i + 1], PAGE_SIZE)
      {
        ghost var view := pool.view;
        BackedEntry(pool.starts, before, view, addrs, where[..i + 1], i, PAGE_SIZE);
        assert info.physAddrs[i] == addrs[i];
        CarveoutFree(info.physAddrs[i], PAGE_SIZE, where[i]);
        BackedPop(pool.starts, before, view, pool.view, addrs, where[..i + 1], PAGE_SIZE);
        assert where[..i + 1][..i] == where[..i];
        i := i - 1;
      }
      assert where[..0] == [];
      BackedByNothing(pool.starts, before, pool.view, addrs, PAGE_SIZE);
    }

    /** The lump attempt and the page-by-page fallback, into info. */
    method AllocatePhys(info: TilerInfo) returns (failed: bool, got: nat)
      requires Valid() && info.where == [] && !info.lump && info.physAddrs.Length == info.nPhysPages
      requires 0 < info.nPhysPages && info.nPhysPages * PAGE_SIZE + PAGE_SIZE <= 0x1_0000_0000
      requires info.physAddrs !in pool.Bitmaps()
      modifies pool.Bitmaps(), pool`view, info.physAddrs, info`where, info`lump
      ensures Valid() && pool.chunks == old(pool.chunks) && pool.starts == old(pool.starts)
      ensures Backed(pool.starts, old(pool.view), pool.view, info.physAddrs[..], info.where,
        BlockSize(info.lump, info.nPhysPages))
      ensures info.lump <==> !NoRoomFor(old(pool.view), info.nPhysPages)
      ensures info.lump ==> !failed && |info.where| == 1 && forall k :: 0 <= k < info.nPhysPages ==>
        info.physAddrs[k] == info.physAddrs[0] + k * PAGE_SIZE
      ensures !info.lump ==> |info.where| == got && (failed <==> got < info.nPhysPages)
      ensures failed <==>
        NoRoomFor(old(pool.view), info.nPhysPages) && UsablePages(old(pool.view)) < info.nPhysPages
    {
      hide Backed, BackedAt, Busy, Slots, SameShape, InBounds, Pool.Valid, Pool.RangesDisjoint, NoRoomFor, UsablePages;
      ghost var before := pool.view;
      BitsOfPages(info.nPhysPages);
      var addr, b := CarveoutAllocate(info.nPhysPages * PAGE_SIZE);
      if addr == ION_CARVEOUT_ALLOCATE_FAIL {
        got := AllocatePages(info);
        return got < info.nPhysPages, got;
      }
      info.lump := true;
      var i := 0;
      while i < info.nPhysPages
        modifies info.physAddrs
        invariant 0 <= i <= info.nPhysPages
        invariant forall k :: 0 <= k < i ==> info.physAddrs[k] == addr + k * PAGE_SIZE
      {
        info.physAddrs[i] := addr + i * PAGE_SIZE;
        i := i + 1;
      }
      BackedLump(pool.starts, before, pool.view, info.physAddrs[..], b, info.nPhysPages * PAGE_SIZE);
      info.where := [b];
      return false, 0;
    }

    /**
      omap_tiler_alloc. Whatever fails -- the area, the k-th page, the pin, the handle -- the pool bitmaps,
      the areas and the pins are afterwards what they were, and the first failure is the one reported. A NULL
      from the tiler or from ion_alloc is a failure that is reported as 0. The breaks are the gotos of the source.
     */
    method Alloc(q: Request, nPhysPages: nat) returns (ret: int, result: TilerInfo?)
      requires Valid() && q.Sane() && (q.area.Ptr? ==> q.area.id !in areas)
      requires 0 < nPhysPages && nPhysPages * PAGE_SIZE + PAGE_SIZE <= 0x1_0000_0000
      modifies this`areas, this`pins, pool.Bitmaps(), pool`view
      ensures Valid() && pool.chunks == old(pool.chunks) && pool.starts == old(pool.starts)
      // a buffer if and only if every stage succeeds
      ensures result != null <==>
        && (q.pageFormat ==> q.height == 1) && q.memsizeRet == 0 && q.infoOk && q.area.Ptr?
        && (!NoRoomFor(old(pool.view), nPhysPages) || UsablePages(old(pool.view)) >= nPhysPages)
        && q.pinRet == 0 && q.handle.Ptr?
      ensures result != null ==> ret == 0
      // and otherwise the value of the first stage that fails
      ensures q.pageFormat && q.height != 1 ==> ret == -22
      ensures (q.pageFormat ==> q.height == 1) ==>
        && (q.memsizeRet != 0 ==> ret == q.memsizeRet)
        && (q.memsizeRet == 0 && !q.infoOk ==> ret == -12)
      ensures (q.pageFormat ==> q.height == 1) && q.memsizeRet == 0 && q.infoOk ==>
        && (q.area.ErrPtr? ==> ret == q.area.code)
        && (q.area.Null? ==> ret == 0)
        && (q.area.Ptr? && NoRoomFor(old(pool.view), nPhysPages) && UsablePages(old(pool.view)) < nPhysPages ==>
              ret == -12)
      ensures (q.pageFormat ==> q.height == 1) && q.memsizeRet == 0 && q.infoOk && q.area.Ptr?
              && (!NoRoomFor(old(pool.view), nPhysPages) || UsablePages(old(pool.view)) >= nPhysPages) ==>
        && (q.pinRet != 0 ==> ret == q.pinRet)
        && (q.pinRet == 0 && q.handle.ErrPtr? ==> ret == q.handle.code)
        && (q.pinRet == 0 && q.handle.Null? ==> ret == 0)
      // which is what the functions of Request say
      ensures var backed := CanBack(old(pool.view), nPhysPages);
        && ret == q.ReturnValue(backed) && (result != null <==> q.Succeeds(backed))
        && (ret == 0 && result == null <==> q.FailsSilently(backed))
      ensures result == null ==> View() == old(View())
      ensures result != null ==>
        && fresh(result) && fresh(result.physAddrs) && q.area == Ptr(result.tilerHandle)
        && result.nPhysPages == nPhysPages
        && BufferTaken(pool.starts, old(View()), result.AsBuffer(), View())
        && result.Holds(pool.starts, old(pool.view), pool.view)
        && (result.lump <==> !NoRoomFor(old(pool.view), nPhysPages))
    {
      hide Backed, BackedAt, Busy, Slots, SameShape, InBounds, Pool.Valid, Pool.RangesDisjoint, NoRoomFor, UsablePages;
      ReturnsZeroWithoutBuffer(q, CanBack(pool.view, nPhysPages));
      result := null;
      if q.pageFormat && q.height != 1 {
        return -EINVAL, null;
      }
      if q.memsizeRet != 0 {
        return q.memsizeRet, null;
      }
      if !q.infoOk {
        return -ENOMEM, null;
      }
      ghost var before := pool.view;
      var info := new TilerInfo(nPhysPages);
      label errNomem: {
        if !q.area.Ptr? {
          ret := q.area.PtrErr();
          break errNomem;
        }
        info.tilerHandle := q.area.id;
        areas := areas + {q.area.id};
        var failed, got := AllocatePhys(info);
        label errAlloc: {
          if failed {
            ret := -ENOMEM;
            break errAlloc;
          }
          if q.pinRet != 0 {
            ret := q.pinRet;
            break errAlloc;
          }
          pins := pins + {q.area.id};
          if q.handle.Ptr? {
            BackedStands(pool.starts, before, pool.view, info.physAddrs[..], info.where,
              BlockSize(info.lump, nPhysPages));
            return 0, info;
          }
          ret := q.handle.PtrErr();
          pins := pins - {q.area.id};
        }
        areas := areas - {q.area.id};
        Release(info, got, before);
      }
    }

    /** The carveout part of the rollback ladder. */
    method Release(info: TilerInfo, count: nat, ghost before: seq<seq<bool>>)
      requires Valid() && 0 < info.nPhysPages == info.physAddrs.Length && info.physAddrs !in pool.Bitmaps()
      requires info.nPhysPages * PAGE_SIZE + PAGE_SIZE <= 0x1_0000_0000
      requires |info.where| == if info.lump then 1 else count
      requires Backed(pool.starts, before, pool.view, info.physAddrs[..], info.where,
        BlockSize(info.lump, info.nPhysPages))
      modifies pool.Bitmaps(), pool`view
      ensures Valid() && pool.chunks == old(pool.chunks) && pool.starts == old(pool.starts)
      ensures pool.view == before
    {
      hide Backed, Pool.Valid, Pool.RangesDisjoint;
      if info.lump {
        ReleaseLump(info, before);
      } else {
        ReleasePages(info, count, before);
      }
    }

    /** The lump branch of the rollback ladder. */
    method ReleaseLump(info: TilerInfo, ghost before: seq<seq<bool>>)
      requires Valid() && |info.where| == 1 && 0 < info.nPhysPages == info.physAddrs.Length
      requires info.nPhysPages * PAGE_SIZE + PAGE_SIZE <= 0x1_0000_0000
      requires Backed(pool.starts, before, pool.view, info.physAddrs[..], info.where, info.nPhysPages * PAGE_SIZE)
      modifies pool.Bitmaps(), pool`view
      ensures Valid() && pool.chunks == old(pool.chunks) && pool.starts == old(pool.starts)
      ensures pool.view == before
    {
      hide Backed, BackedAt, Busy, Slots, SameShape, InBounds, Pool.Valid, Pool.RangesDisjoint;
      ghost var view, addrs, where, size := pool.view, info.physAddrs[..], info.where, info.nPhysPages * PAGE_SIZE;
      BackedEntry(pool.starts, before, view, addrs, where, 0, size);
      CarveoutFree(info.physAddrs[0], info.nPhysPages * PAGE_SIZE, where[0]);
      BackedPop(pool.starts, before, view, pool.view, addrs, where, size);
      assert where[..0] == [];
      BackedByNothing(pool.starts, before, pool.view, addrs, size);
    }

    /** omap_tiler_heap_free: exactly the bits behind the buffer are cleared, its area and pin go away. */
    method Free(info: TilerInfo)
      requires Valid() && info.tilerHandle in pins
      requires 0 < info.nPhysPages && info.nPhysPages * PAGE_SIZE + PAGE_SIZE <= 0x1_0000_0000
      requires info.Stands(pool.starts, pool.view)
      requires info.physAddrs !in pool.Bitmaps()
      modifies this`areas, this`pins, pool.Bitmaps(), pool`view
      ensures Valid() && pool.chunks == old(pool.chunks) && pool.starts == old(pool.starts)
      ensures BufferReturned(old(View()), info.AsBuffer(), View())
    {
      hide BackedAt, Busy, Slots, LiveSlots, SameShape, InBounds, Pool.Valid, Pool.RangesDisjoint;
      ghost var before, where := pool.view, info.where;
      pins := pins - {info.tilerHandle};
      areas := areas - {info.tilerHandle};
      if info.lump {
        CarveoutFree(info.physAddrs[0], info.nPhysPages * PAGE_SIZE, where[0]);
        LiveSingle(where[0]);
        assert where == [where[0]];
      } else {
        ghost var addrs := info.physAddrs[..];
        ShapeRefl(before);
        NothingReleased(before, where);
        var i := 0;
        while i < info.nPhysPages
          modifies pool.Bitmaps(), pool`view
          invariant 0 <= i <= info.nPhysPages
          invariant Valid() && pool.chunks == old(pool.chunks) && pool.starts == old(pool.starts)
          invariant info.physAddrs[..] == addrs
          invariant SameShape(before, pool.view)
          invariant Busy(pool.view) == Busy(before) - LiveSlots(where[..i])
        {
          ghost var view := pool.view;
          assert info.physAddrs[i] == addrs[i];
          StandsInShape(pool.starts, before, view, addrs[i], where[i], PAGE_SIZE);
          CarveoutFree(info.physAddrs[i], PAGE_SIZE, where[i]);
          ShapeTrans(before, view, pool.view);
          ReleasedOneMore(where, i);
          i := i + 1;
        }
        assert where[..i] == where;
      }
    }
  }

  lemma BackedEntry(starts: seq<nat>, before: seq<seq<bool>>, view: seq<seq<bool>>, addrs: seq<nat>,
                    where: seq<Block>, k: nat, size: SizeT)
    requires Backed(starts, before, view, addrs, where, size) && k < |where|
    ensures k < |addrs| && BackedAt(starts, view, addrs[k], where[k], size)
  {
  }

  lemma BackedStands(starts: seq<nat>, before: seq<seq<bool>>, view: seq<seq<bool>>, addrs: seq<nat>,
                     where: seq<Block>, size: SizeT)
    requires Backed(starts, before, view, addrs, where, size)
    ensures |where| <= |addrs| && forall k :: 0 <= k < |where| ==> BackedAt(starts, view, addrs[k], where[k], size)
  {
  }

  lemma BackedLump(starts: seq<nat>, before: seq<seq<bool>>, view: seq<seq<bool>>, addrs: seq<nat>, b: Block,
                   size: SizeT)
    requires SameShape(before, view) && addrs != [] && BackedAt(starts, view, addrs[0], b, size)
    requires Slots(b) !! Busy(before) && Busy(view) == Busy(before) + Slots(b)
    ensures Backed(starts, before, view, addrs, [b], size)
  {
    LiveSingle(b);
  }

  lemma ShapeRefl(v: seq<seq<bool>>)
    ensures SameShape(v, v)
  {
  }

  lemma ShapeTrans(u: seq<seq<bool>>, v: seq<seq<bool>>, w: seq<seq<bool>>)
    requires SameShape(u, v) && SameShape(v, w)
    ensures SameShape(u, w)
  {
  }

  lemma NothingReleased(view: seq<seq<bool>>, where: seq<Block>)
    ensures Busy(view) == Busy(view) - LiveSlots(where[..0])
  {
  }

  lemma StandsInShape(starts: seq<nat>, before: seq<seq<bool>>, view: seq<seq<bool>>, addr: int, b: Block, size: SizeT)
    requires SameShape(before, view) && BackedAt(starts, before, addr, b, size)
    ensures BackedAt(starts, view, addr, b, size)
  {
  }

  lemma ReleasedOneMore(where: seq<Block>, i: nat)
    requires i < |where|
    ensures LiveSlots(where[..i + 1]) == LiveSlots(where[..i]) + Slots(where[i])
  {
    assert where[..i + 1] == where[..i] + [where[i]];
    LiveConcat(where[..i], [where[i]]);
    LiveSingle(where[i]);
  }

  /** A buffer freed right after its allocation: its bits come back and no others. TilerRuns has whole runs. */
  lemma AllocThenFreeRestores(starts: seq<nat>, before: seq<seq<bool>>, during: seq<seq<bool>>, after: seq<seq<bool>>,
                              addrs: seq<nat>, where: seq<Block>, size: SizeT)
    requires Backed(starts, before, during, addrs, where, size)
    requires SameShape(during, after) && Busy(after) == Busy(during) - LiveSlots(where)
    ensures after == before
  {
    hide Busy, LiveSlots;
    ShapeTrans(before, during, after);
    BusyDetermines(before, after);
  }

  lemma BackedNone(starts: seq<nat>, view: seq<seq<bool>>, addrs: seq<nat>, size: SizeT)
    requires |starts| == |view|
    ensures Backed(starts, view, view, addrs, [], size)
  {
  }

  lemma BackedPush(starts: seq<nat>, before: seq<seq<bool>>, view: seq<seq<bool>>, view': seq<seq<bool>>,
                   addrs: seq<nat>, addr: nat, where: seq<Block>, b: Block, size: SizeT)
    requires Backed(starts, before, view, addrs, where, size) && |where| < |addrs|
    requires SameShape(view, view') && BackedAt(starts, view', addr, b, size)
    requires Slots(b) !! Busy(view) && Busy(view') == Busy(view) + Slots(b)
    ensures Backed(starts, before, view', addrs[|where| := addr], where + [b], size)
  {
    hide Busy, Slots, LiveSlots;
    PushKeepsDisjoint(where, b);
  }

  /** Giving back the last block. */
  lemma BackedPop(starts: seq<nat>, before: seq<seq<bool>>, view: seq<seq<bool>>, view': seq<seq<bool>>,
                  addrs: seq<nat>, where: seq<Block>, size: SizeT)
    requires Backed(starts, before, view, addrs, where, size) && where != []
    requires SameShape(view, view') && Busy(view') == Busy(view) - Slots(where[|where| - 1])
    ensures Backed(starts, before, view', addrs, where[..|where| - 1], size)
  {
    hide Busy, Slots, LiveSlots, PairwiseDisjoint;
    var n := |where| - 1;
    LiveWithout(where, n);
    LiveMember(where, n);
    assert where[..n] + where[n + 1..] == where[..n];
  }

  /** With every block given back, the bitmaps are those of before. */
  lemma BackedByNothing(starts: seq<nat>, before: seq<seq<bool>>, view: seq<seq<bool>>, addrs: seq<nat>, size: SizeT)
    requires Backed(starts, before, view, addrs, [], size)
    ensures view == before
  {
    assert LiveSlots([]) == iset{};
    BusyDetermines(before, view);
  }

  lemma PushKeepsDisjoint(where: seq<Block>, b: Block)
    requires PairwiseDisjoint(where) && Slots(b) !! LiveSlots(where)
    ensures PairwiseDisjoint(where + [b]) && LiveSlots(where + [b]) == LiveSlots(where) + Slots(b)
  {
    hide Slots, LiveSlots;
    LiveConcat(where, [b]);
    LiveSingle(b);
    forall i | 0 <= i < |where|
      ensures Slots(where[i]) !! Slots(b)
    {
      LiveMember(where, i);
    }
  }

  lemma Pow2Twelve()
    ensures Pow2(PAGE_SHIFT) == PAGE_SIZE
  {
    assert Pow2(4) == 16;
    assert Pow2(8) == 256;
  }

  /** Whole pages need as many bits as there are pages. */
  lemma BitsOfPages(n: nat)
    requires 0 < n && n * PAGE_SIZE + PAGE_SIZE <= 0x1_0000_0000
    ensures BitsFor(n * PAGE_SIZE, PAGE_SHIFT) == n
  {
    hide BitsFor;
    Pow2Twelve();
    BitsUnwrapped(n * PAGE_SIZE, PAGE_SHIFT);
  }

  lemma FitIsFree(view: seq<seq<bool>>, b: Block)
    requires FirstFit(view, b) && b.n > 0
    ensures Slots(b) !! Busy(view)
  {
    FreeBlockIsClear(view, b);
  }
}
