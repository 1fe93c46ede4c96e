/**
  Whole runs of the allocator. A run interleaves allocations, reservations and frees; each step is one of
  the outcomes that the methods of class Memblock guarantee, with the memory list fixed.
 */
module MemblockRuns {
  import opened Regions
  import opened RegionLoops
  import opened FreeSlots
  import opened Memblocks
  import opened Alignment

  datatype Block = Block(base: nat, size: nat, align: nat)

  datatype Op =
    | Alloc(size: nat, align: nat, limit: nat, at: nat)
    | Reserve(base: nat, size: nat, ret: int)
    | Free(block: Block, ret: int)

  /**
    The reserved table, the addresses reserved by memblock_reserve, and the blocks handed out and not yet
    returned. A reservation may overlap a live block; freeing the block then takes the overlap along.
   */
  datatype State = State(reserved: seq<Region>, fixed: iset<int>, blocks: set<Block>)

  predicate InBlock(b: Block, a: int) {
    Within(a, b.base, b.size)
  }

  ghost predicate InSomeBlock(blocks: set<Block>, a: int) {
    exists b :: b in blocks && InBlock(b, a)
  }

  ghost function BlockAddresses(blocks: set<Block>): iset<int> {
    iset a | InSomeBlock(blocks, a)
  }

  ghost predicate Step(mem: seq<Region>, s: State, op: Op, s': State) {
    match op
    case Alloc(size, align, limit, ret) =>
      && size > 0 && align > 0
      && AllocOutcome(mem, s.reserved, s'.reserved, size, align, limit, ret)
      && s'.fixed == s.fixed
      && s'.blocks == if ret == 0 then s.blocks else s.blocks + {Block(ret, size, align)}
    case Reserve(base, size, ret) =>
      && AddOutcome(s.reserved, s'.reserved, base, size, ret)
      && s'.fixed == (if ret == 0 then s.fixed + Span(base, size) else s.fixed)
      && s'.blocks == s.blocks
    case Free(b, ret) =>
      && b in s.blocks
      && FreeOutcome(s.reserved, s'.reserved, b.base, b.size, ret)
      && s'.fixed == (if ret == 0 then s.fixed - Span(b.base, b.size) else s.fixed)
      && s'.blocks == if ret == 0 then s.blocks - {b} else s.blocks
  }

  ghost predicate GoodBlock(mem: seq<Region>, b: Block) {
    && b.size > 0 && b.align > 0 && b.base % b.align == 0
    && Span(b.base, b.size) <= Addresses(mem)
  }

  ghost predicate Disjoint(blocks: set<Block>) {
    forall b, c :: b in blocks && c in blocks && b != c ==> Span(b.base, b.size) !! Span(c.base, c.size)
  }

  /**
    Live blocks are aligned, inside memory and clear of each other, and the reserved table denotes exactly the
    reservations plus the live blocks.
   */
  ghost predicate Inv(mem: seq<Region>, s: State) {
    && Canonical(mem) && Canonical(s.reserved)
    && Addresses(s.reserved) == s.fixed + BlockAddresses(s.blocks)
    && (forall b :: b in s.blocks ==> GoodBlock(mem, b))
    && Disjoint(s.blocks)
  }

  /** A range that is wholly reserved never has a region starting at its end: coalescing would have merged it. */
  lemma ReservedRangeHasNoSuccessor(rs: seq<Region>, base: int, size: int)
    requires Canonical(rs) && size > 0 && Span(base, size) <= Addresses(rs)
    ensures !StartsAt(rs, base + size)
  {
    var last := base + size - 1;
    assert last in Span(base, size);
    var i :| 0 <= i < |rs| && Within(last, rs[i].base, rs[i].size);
    NoneStartsWithin(rs, i, base + size);
  }

  lemma BlockAddressesAdd(blocks: set<Block>, b: Block)
    ensures BlockAddresses(blocks + {b}) == BlockAddresses(blocks) + Span(b.base, b.size)
  {
    forall a | a in BlockAddresses(blocks) + Span(b.base, b.size)
      ensures a in BlockAddresses(blocks + {b})
    {
      if a in Span(b.base, b.size) {
        assert InBlock(b, a);
      } else {
        var c :| c in blocks && InBlock(c, a);
        assert c in blocks + {b};
      }
    }
  }

  lemma BlockAddressesRemove(blocks: set<Block>, b: Block)
    requires b in blocks && Disjoint(blocks)
    ensures BlockAddresses(blocks - {b}) == BlockAddresses(blocks) - Span(b.base, b.size)
  {
    BlockAddressesAdd(blocks - {b}, b);
    assert (blocks - {b}) + {b} == blocks;
    forall a | a in BlockAddresses(blocks - {b})
      ensures a !in Span(b.base, b.size)
    {
      var c :| c in blocks - {b} && InBlock(c, a);
      assert a in Span(c.base, c.size);
    }
  }

  lemma BlockInside(blocks: set<Block>, b: Block)
    requires b in blocks
    ensures Span(b.base, b.size) <= BlockAddresses(blocks)
  {
    forall a | a in Span(b.base, b.size)
      ensures a in BlockAddresses(blocks)
    {
      assert InBlock(b, a);
    }
  }

  lemma AllocKeeps(mem: seq<Region>, s: State, op: Op, s': State)
    requires Inv(mem, s) && op.Alloc? && Step(mem, s, op, s')
    ensures Inv(mem, s')
  {
    hide Addresses, Canonical, HighestSlot;
    if op.at != 0 {
      var b := Block(op.at, op.size, op.align);
      HighestSlotFits(mem, s.reserved, 0, op.limit, op.size, op.align, op.at);
      SlotIsFree(mem, s.reserved, op.limit, op.size, op.align, op.at);
      BlockAddressesAdd(s.blocks, b);
      assert forall c :: c in s.blocks ==> Span(c.base, c.size) !! Span(b.base, b.size) by {
        forall c | c in s.blocks
          ensures Span(c.base, c.size) !! Span(b.base, b.size)
        {
          BlockInside(s.blocks, c);
        }
      }
    }
  }

  lemma SlotIsFree(mem: seq<Region>, res: seq<Region>, limit: nat, size: nat, align: nat, ret: nat)
    requires align > 0 && ret != 0 && HighestSlot(mem, res, 0, limit, size, align, ret)
    ensures Addresses(res) !! Span(ret, size)
  {
  }

  lemma FreeKeeps(mem: seq<Region>, s: State, op: Op, s': State)
    requires Inv(mem, s) && op.Free? && Step(mem, s, op, s')
    ensures Inv(mem, s') && !StartsAt(s.reserved, op.block.base + op.block.size)
  {
    hide Addresses, Canonical, StartsAt, BlockAddresses;
    var b := op.block;
    BlockInside(s.blocks, b);
    assert GoodBlock(mem, b);
    ReservedRangeHasNoSuccessor(s.reserved, b.base, b.size);
    BlockAddressesRemove(s.blocks, b);
  }

  lemma ReserveKeeps(mem: seq<Region>, s: State, op: Op, s': State)
    requires Inv(mem, s) && op.Reserve? && Step(mem, s, op, s')
    ensures Inv(mem, s')
  {
    hide Addresses, Canonical, BlockAddresses;
  }

  /** One step of any kind. */
  lemma StepKeeps(mem: seq<Region>, s: State, op: Op, s': State)
    requires Inv(mem, s) && Step(mem, s, op, s')
    ensures Inv(mem, s')
  {
    hide Inv, Step;
    match op
    case Alloc(_, _, _, _) => AllocKeeps(mem, s, op, s');
    case Free(_, _) => FreeKeeps(mem, s, op, s');
    case Reserve(_, _, _) => ReserveKeeps(mem, s, op, s');
  }

  ghost predicate IsRun(mem: seq<Region>, states: seq<State>, ops: seq<Op>) {
    |states| == |ops| + 1 && forall i :: 0 <= i < |ops| ==> Step(mem, states[i], ops[i], states[i + 1])
  }

  /** Safety of every run, of any length and any mix of operations. */
  lemma {:induction false} RunSafe(mem: seq<Region>, states: seq<State>, ops: seq<Op>, n: nat)
    requires IsRun(mem, states, ops) && Inv(mem, states[0]) && n <= |ops|
    ensures Inv(mem, states[n])
  {
    hide Inv, Step;
    if n > 0 {
      RunSafe(mem, states, ops, n - 1);
      StepKeeps(mem, states[n - 1], ops[n - 1], states[n]);
    }
  }

  // ----- reservations that overlap live blocks -----

  /** The live blocks are clear of the reservations. */
  ghost predicate Clear(s: State) {
    s.fixed !! BlockAddresses(s.blocks)
  }

  /** The step makes no reservation inside a live block. */
  ghost predicate Avoids(s: State, op: Op) {
    op.Reserve? && op.ret == 0 ==> Span(op.base, op.size) !! BlockAddresses(s.blocks)
  }

  lemma StepClearIff(mem: seq<Region>, s: State, op: Op, s': State)
    requires Inv(mem, s) && Clear(s) && Step(mem, s, op, s')
    ensures Clear(s') <==> Avoids(s, op)
    ensures Avoids(s, op) && !op.Reserve? ==> s'.fixed == s.fixed
  {
    hide Addresses, Canonical, StartsAt, BlockAddresses, HighestSlot, AddOutcome, FreeOutcome;
    match op
    case Alloc(size, align, limit, ret) =>
      if ret != 0 {
        SlotIsFree(mem, s.reserved, limit, size, align, ret);
        BlockAddressesAdd(s.blocks, Block(ret, size, align));
      }
    case Free(b, _) =>
      BlockInside(s.blocks, b);
      BlockAddressesRemove(s.blocks, b);
    case Reserve(_, _, _) =>
  }

  /** Over every run: blocks and reservations stay apart if and only if no reservation is made inside a live block. */
  lemma {:induction false} ClearIffAvoided(mem: seq<Region>, states: seq<State>, ops: seq<Op>, n: nat)
    requires IsRun(mem, states, ops) && Inv(mem, states[0]) && Clear(states[0]) && n <= |ops|
    ensures (forall i :: 0 <= i <= n ==> Clear(states[i])) <==> (forall i :: 0 <= i < n ==> Avoids(states[i], ops[i]))
  {
    hide Inv, Step, Clear, Avoids;
    if n > 0 {
      ClearIffAvoided(mem, states, ops, n - 1);
      if Clear(states[n - 1]) {
        RunSafe(mem, states, ops, n - 1);
        StepClearIff(mem, states[n - 1], ops[n - 1], states[n]);
      }
    }
  }

  /** In a safe run every free meets the condition under which memblock_free is exact. */
  lemma FreesAreExact(mem: seq<Region>, states: seq<State>, ops: seq<Op>, n: nat)
    requires IsRun(mem, states, ops) && Inv(mem, states[0]) && n < |ops| && ops[n].Free?
    ensures !StartsAt(states[n].reserved, ops[n].block.base + ops[n].block.size)
  {
    RunSafe(mem, states, ops, n);
    assert Step(mem, states[n], ops[n], states[n + 1]);
    FreeKeeps(mem, states[n], ops[n], states[n + 1]);
  }

  /** A run that returns every block it took, with no new reservation, restores the reserved array itself. */
  lemma BalancedRunRestores(mem: seq<Region>, states: seq<State>, ops: seq<Op>, n: nat)
    requires IsRun(mem, states, ops) && Inv(mem, states[0]) && n <= |ops|
    requires states[n].blocks == states[0].blocks && states[n].fixed == states[0].fixed
    ensures states[n].reserved == states[0].reserved
  {
    RunSafe(mem, states, ops, n);
    CanonicalUnique(states[n].reserved, states[0].reserved);
  }

  /**
    Allocating size0 bytes and freeing size0 bytes leaves the very same array, whatever the block was coalesced
    with meanwhile, if and only if size0 is a multiple of the alignment: the allocation reserves the rounded size.
   */
  lemma AllocFreeRestores(mem: seq<Region>, res: seq<Region>, res1: seq<Region>, res2: seq<Region>,
                          size0: nat, align: nat, limit: nat, ret: nat)
    requires Canonical(mem) && Canonical(res) && size0 > 0 && align > 0 && ret != 0
    requires AllocOutcome(mem, res, res1, AlignUp(size0, align), align, limit, ret)
    requires FreeOutcome(res1, res2, ret, size0, 0)
    ensures res2 == res <==> AlignUp(size0, align) == size0
  {
    hide HighestSlot, Canonical, Addresses, StartsAt, AlignUp;
    var size := AlignUp(size0, align);
    AlignUpLowest(size0, align);
    SlotIsFree(mem, res, limit, size, align, ret);
    assert Span(ret, size0) <= Span(ret, size);
    ReservedRangeHasNoSuccessor(res1, ret, size0);
    if size == size0 {
      assert Addresses(res2) == Addresses(res);
      CanonicalUnique(res2, res);
    } else {
      assert ret + size0 in Span(ret, size) && ret + size0 in Addresses(res2) && ret + size0 !in Addresses(res);
    }
  }

  /** The order of successful reservations does not matter, not even for the array contents. */
  lemma ReserveOrderIrrelevant(rs: seq<Region>, x1: seq<Region>, x2: seq<Region>, y1: seq<Region>, y2: seq<Region>,
                               b1: nat, s1: nat, b2: nat, s2: nat)
    requires AddOutcome(rs, x1, b1, s1, 0) && AddOutcome(x1, x2, b2, s2, 0)
    requires AddOutcome(rs, y1, b2, s2, 0) && AddOutcome(y1, y2, b1, s1, 0)
    ensures x2 == y2
  {
    hide Canonical, Addresses, Span;
    assert Addresses(x2) == Addresses(y2);
    CanonicalUnique(x2, y2);
  }
}
