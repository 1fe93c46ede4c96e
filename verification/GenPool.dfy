/** The multi-chunk first-fit bitmap allocator of modules/ion/genalloc.c. */
module GenPools {
  import opened Alignment
  import opened Bitmaps

  /** size_t on this 32-bit target. */
  type SizeT = n: nat | n < 0x1_0000_0000

  function Wrap32(x: nat): SizeT {
    x % 0x1_0000_0000
  }

  /** The difference of two addresses, in 32-bit arithmetic. */
  function Minus32(x: SizeT, y: SizeT): SizeT {
    Wrap32(0x1_0000_0000 + x - y)
  }

  class Chunk {
    const startAddr: SizeT
    const endAddr: SizeT
    const bits: array<bool>

    constructor (addr: SizeT, size: SizeT, nbits: nat)
      ensures startAddr == addr && endAddr == Wrap32(addr + size)
      ensures fresh(bits) && bits[..] == seq(nbits, _ => false)
    {
      startAddr, endAddr := addr, Wrap32(addr + size);
      bits := new bool[nbits](_ => false);
    }

    predicate Holds(addr: nat) {
      startAddr <= addr < endAddr
    }

    /** The search of gen_pool_alloc inside one chunk: the first fitting start bit, or -1. */
    method FindRun(nbits: nat) returns (startBit: int)
      ensures startBit == -1 <==> NoFit(bits[..], nbits)
      ensures startBit != -1 ==> LowestFit(bits[..], startBit, nbits)
      ensures forall s {:trigger FitsAt(bits[..], s, nbits)} :: s < startBit ==> !FitsAt(bits[..], s, nbits)
    {
      ghost var bs := bits[..];
      var endBit := bits.Length - (nbits + 1);
      var bit := -1;
      while bit + 1 < endBit
        invariant -1 <= bit
        invariant forall s :: s <= bit ==> !FitsAt(bs, s, nbits)
      {
        var prior := bit;
        bit := NextZero(bits[..], endBit, bit + 1);
        if bit >= endBit {
          SkipSet(bs, nbits, prior + 1, bit);
          return -1;
        }
        startBit := bit;
        if nbits > 1 {
          bit := NextSet(bits[..], bit + nbits, bit + 1);
          if bit - startBit < nbits {
            SkipSet(bs, nbits, prior + 1, startBit);
            SkipBlocked(bs, nbits, startBit, bit);
            continue;
          }
        }
        SkipSet(bs, nbits, prior + 1, startBit);
        assert FitsAt(bs, startBit, nbits);
        return;
      }
      return -1;
    }

    /** The loops of __set_bit and __clear_bit calls. */
    method Fill(first: nat, nbits: nat, v: bool)
      requires first + nbits <= bits.Length
      modifies bits
      ensures bits[..] == Filled(old(bits[..]), first, nbits, v)
    {
      var bit, left := first, nbits;
      while left > 0
        invariant 0 <= left <= nbits && bit + left == first + nbits
        invariant forall k :: 0 <= k < bits.Length ==> bits[k] == if first <= k < bit then v else old(bits[k])
      {
        left := left - 1;
        bits[bit] := v;
        bit := bit + 1;
      }
    }
  }

  /** Start bits that hold a set bit do not fit. */
  lemma SkipSet(bits: seq<bool>, n: nat, lo: nat, hi: nat)
    requires lo <= hi <= |bits| && forall k :: lo <= k < hi ==> bits[k]
    ensures forall s :: lo <= s < hi ==> !FitsAt(bits, s, n)
  {
    forall s | lo <= s < hi
      ensures !FitsAt(bits, s, n)
    {
      assert bits[s];
    }
  }

  /** A set bit less than n above a start bit blocks every start up to and including itself. */
  lemma SkipBlocked(bits: seq<bool>, n: nat, start: nat, bit: nat)
    requires start <= bit < |bits| && bit < start + n && bits[bit]
    ensures forall s :: start <= s <= bit ==> !FitsAt(bits, s, n)
  {
  }

  lemma MinusUndoes(addr: SizeT, size: SizeT)
    ensures Minus32(Wrap32(addr + size), addr) == size
    ensures addr <= Wrap32(addr + size) <==> addr + size < 0x1_0000_0000
  {
    Wrap32Below(addr + size);
    Wrap32Below(0x1_0000_0000 + Wrap32(addr + size) - addr);
  }

  lemma MinusStraight(x: SizeT, y: SizeT)
    requires y <= x
    ensures Minus32(x, y) == x - y
  {
    Wrap32Below(0x1_0000_0000 + x - y);
  }

  lemma Wrap32Below(x: nat)
    ensures x < 0x1_0000_0000 ==> Wrap32(x) == x
    ensures 0x1_0000_0000 <= x < 0x2_0000_0000 ==> Wrap32(x) == x - 0x1_0000_0000
  {
  }

  /** (size + (1UL << order) - 1) >> order, in 32-bit arithmetic: the sum may wrap. */
  function BitsFor(size: SizeT, order: nat): nat {
    var sum := Wrap32(size + Pow2(order) - 1);
    DivNonNegative(sum, Pow2(order));
    sum / Pow2(order)
  }

  /** The bits computed for a request cover it if and only if rounding it up to whole bits does not wrap. */
  lemma BitsCoverExactly(size: SizeT, order: nat)
    requires size > 0 && Pow2(order) < 0x1_0000_0000
    ensures BitsFor(size, order) * Pow2(order) >= size <==> size + Pow2(order) <= 0x1_0000_0000
    ensures BitsFor(size, order) > 0 ==> (BitsFor(size, order) - 1) * Pow2(order) < size
    ensures size + Pow2(order) <= 0x1_0000_0000 ==> BitsFor(size, order) > 0
    ensures size + Pow2(order) > 0x1_0000_0000 ==> BitsFor(size, order) == 0
  {
    BitsForBounds(size, order, Pow2(order));
  }

  /** In pages of 4 KiB, a request for all but one byte of 4 GiB gets no bits. */
  lemma RoundingWraps()
    ensures BitsFor(0xFFFF_FFFF, 12) == 0
  {
    assert Pow2(4) == 16 && Pow2(8) == 256;
    assert Pow2(12) == 4096;
  }

  lemma BitsForBounds(size: SizeT, order: nat, unit: nat)
    requires size > 0 && unit == Pow2(order) < 0x1_0000_0000
    ensures BitsFor(size, order) * unit >= size <==> size + unit <= 0x1_0000_0000
    ensures BitsFor(size, order) > 0 ==> (BitsFor(size, order) - 1) * unit < size
    ensures size + unit <= 0x1_0000_0000 ==> BitsFor(size, order) > 0
    ensures size + unit > 0x1_0000_0000 ==> BitsFor(size, order) == 0
  {
    hide Wrap32, Pow2;
    Wrap32Below(size + unit - 1);
    var sum := Wrap32(size + unit - 1);
    DivBounds(sum, unit);
    if size + unit <= 0x1_0000_0000 {
      DivPositive(sum, unit);
    } else {
      DivSmall(sum, unit);
    }
  }

  lemma DivBounds(a: nat, b: nat)
    requires b > 0
    ensures (a / b) * b <= a < (a / b) * b + b
  {
  }

  lemma BitsUnwrapped(size: SizeT, order: nat)
    requires 0 < size && size + Pow2(order) <= 0x1_0000_0000
    ensures BitsFor(size, order) == (size + Pow2(order) - 1) / Pow2(order) > 0
  {
    hide Wrap32;
    Wrap32Below(size + Pow2(order) - 1);
    DivPositive(size + Pow2(order) - 1, Pow2(order));
  }

  lemma DivPositive(a: nat, b: nat)
    requires 0 < b <= a
    ensures a / b > 0
  {
  }

  lemma DivSmall(a: nat, b: nat)
    requires a < b
    ensures a / b == 0
  {
  }

  lemma DivideBack(bit: nat, unit: nat)
    requires unit > 0
    ensures (bit * unit) / unit == bit
  {
    var d := (bit * unit) / unit;
    QuotientTimes(bit, unit);
    assert d * unit == bit * unit;
    MultiplesOrdered(d, bit, unit);
    MultiplesOrdered(bit, d, unit);
    assert (bit + 1) * unit == bit * unit + unit && (d + 1) * unit == d * unit + unit;
  }

  /** size >> order */
  function BitCount(size: nat, order: nat): nat {
    DivNonNegative(size, Pow2(order));
    size / Pow2(order)
  }

  class Pool {
    const order: nat
    var chunks: seq<Chunk>
    /** The bitmaps of the chunks, in list order. */
    ghost var view: seq<seq<bool>>
    /** Their start addresses. */
    ghost var starts: seq<nat>

    ghost function Bitmaps(): set<object>
      reads this`chunks
    {
      set c | c in chunks :: c.bits
    }

    ghost predicate Valid()
      reads this, Bitmaps()
    {
      && |view| == |chunks| == |starts|
      && (forall i :: 0 <= i < |chunks| ==> view[i] == chunks[i].bits[..] && starts[i] == chunks[i].startAddr)
      && (forall i, j :: 0 <= i < j < |chunks| ==> chunks[i].bits != chunks[j].bits)
      && (forall i :: 0 <= i < |chunks| ==>
            |view[i]| == BitCount(Minus32(chunks[i].endAddr, chunks[i].startAddr), order))
    }

    /** The end of the chunk did not wrap when it was added. */
    predicate Straight(c: nat)
      requires c < |chunks|
      reads this`chunks
    {
      chunks[c].startAddr <= chunks[c].endAddr
    }

    /** gen_pool_create */
    constructor (minAllocOrder: nat)
      ensures Valid() && order == minAllocOrder && chunks == []
    {
      order := minAllocOrder;
      chunks := [];
      view, starts := [], [];
    }

    /** The address that bit `first` of chunk c stands for. */
    ghost function AddrOf(c: nat, first: nat): nat
      requires c < |starts|
      reads this
    {
      starts[c] + first * Pow2(order)
    }

    /** gen_pool_add: the new chunk, all clear, goes to the head of the list. Its end may wrap. */
    method Add(addr: SizeT, size: SizeT, kmallocOk: bool) returns (r: int)
      requires Valid()
      modifies this
      ensures Valid()
      ensures r == if kmallocOk then 0 else -1
      ensures !kmallocOk ==> view == old(view) && chunks == old(chunks) && starts == old(starts)
      ensures kmallocOk ==>
        && |chunks| > 0 && chunks[1..] == old(chunks)
        && chunks[0].startAddr == addr && chunks[0].endAddr == Wrap32(addr + size)
        && (Straight(0) <==> addr + size < 0x1_0000_0000)
        && view == [seq(BitCount(size, order), _ => false)] + old(view) && starts == [addr] + old(starts)
    {
      hide BitCount, Minus32;
      if !kmallocOk {
        return -1;
      }
      MinusUndoes(addr, size);
      var chunk := new Chunk(addr, size, BitCount(size, order));
      chunks := [chunk] + chunks;
      view, starts := [chunk.bits[..]] + view, [addr] + starts;
      return 0;
    }

    /** Set or clear the bits of a run, in its chunk and in the view. */
    method Mark(c: nat, first: nat, nbits: nat, v: bool)
      requires Valid() && InBounds(view, Block(c, first, nbits))
      modifies Bitmaps(), this`view
      ensures Valid() && view == Marked(old(view), Block(c, first, nbits), v)
    {
      hide BitCount;
      chunks[c].Fill(first, nbits, v);
      view := Marked(view, Block(c, first, nbits), v);
    }

    /**
      gen_pool_alloc. When some chunk has a fitting run, the lowest one of the first such chunk is marked
      and its address returned; otherwise nothing changes and the result is 0.
     */
    method Alloc(size: SizeT) returns (addr: nat, ghost b: Block, ghost found: bool)
      requires Valid()
      modifies Bitmaps(), this`view
      ensures Valid() && chunks == old(chunks)
      ensures found <==> size > 0 && !NoRoomFor(old(view), BitsFor(size, order))
      ensures found ==> BlockTaken(old(view), BitsFor(size, order), b, view) && addr == AddrOf(b.chunk, b.first)
      ensures found ==> forall c :: 0 <= c < b.chunk < |old(view)| ==> NoFit(old(view)[c], BitsFor(size, order))
      ensures !found ==> addr == 0 && view == old(view)
    {
      hide NoFit, LowestFit, BitsFor, Pow2, BitCount, Marked;
      b, found := Block(0, 0, 0), false;
      if size == 0 {
        return 0, b, found;
      }
      var nbits := BitsFor(size, order);
      var c, startBit := FirstFitting(nbits);
      if startBit == -1 {
        return 0, b, found;
      }
      FitIsInside(view[c], startBit, nbits);
      b, found := Block(c, startBit, nbits), true;
      ProductNonNegative(startBit, Pow2(order));
      addr := chunks[c].startAddr + startBit * Pow2(order);
      Mark(c, startBit, nbits, true);
    }

    /** The walk of gen_pool_alloc to the first chunk with a fitting run, and the run's first bit. */
    method FirstFitting(nbits: nat) returns (c: nat, startBit: int)
      requires Valid()
      ensures startBit == -1 ==> NoRoomFor(view, nbits)
      ensures startBit != -1 ==>
        && c < |chunks| && LowestFit(view[c], startBit, nbits) && forall k :: 0 <= k < c ==> NoFit(view[k], nbits)
    {
      hide NoFit, LowestFit, BitCount;
      c, startBit := 0, -1;
      while c < |chunks|
        invariant 0 <= c <= |chunks| && startBit == -1
        invariant forall k :: 0 <= k < c ==> NoFit(view[k], nbits)
      {
        assert view[c] == chunks[c].bits[..];
        startBit := chunks[c].FindRun(nbits);
        if startBit != -1 {
          return;
        }
        c := c + 1;
      }
    }

    /** The bits that free computes for a range in chunk c. */
    function RangeBits(c: nat, addr: nat, size: SizeT): Block
      requires c < |chunks| && chunks[c].Holds(addr)
      reads this`chunks
    {
      DivNonNegative(addr - chunks[c].startAddr, Pow2(order));
      Block(c, (addr - chunks[c].startAddr) / Pow2(order), BitsFor(size, order))
    }

    /** addr + size lies behind the chunk, in 32-bit arithmetic. */
    predicate RunsPast(c: nat, addr: nat, size: SizeT)
      requires c < |chunks|
      reads this`chunks
    {
      Wrap32(addr + size) > chunks[c].endAddr
    }

    /** The bits of a range that ends inside its chunk are bits of the chunk: it does not run on into part of a unit. */
    ghost predicate OnBitmap(addr: nat, size: SizeT)
      requires Valid()
      reads this, Bitmaps()
    {
      forall c: nat :: c < |chunks| && chunks[c].Holds(addr) && !RunsPast(c, addr, size) ==>
        InBounds(view, RangeBits(c, addr, size))
    }

    /**
      gen_pool_free of any range: c is the first chunk that holds addr, if there is one. A BUG_ON fires exactly
      when the range runs past that chunk, or when there is none and the range has bits; otherwise the bits
      of the range and no others are cleared.
     */
    method Free(addr: nat, size: SizeT) returns (bug: bool, c: nat)
      requires Valid() && OnBitmap(addr, size)
      modifies Bitmaps(), this`view
      ensures Valid() && chunks == old(chunks)
      ensures c <= |chunks| && (forall i :: 0 <= i < c ==> !chunks[i].Holds(addr))
      ensures c < |chunks| ==> chunks[c].Holds(addr)
      ensures bug <==> if c < |chunks| then RunsPast(c, addr, size) else BitsFor(size, order) > 0
      ensures forall i :: 0 <= i < c ==> !(chunks[i].startAddr <= addr < chunks[i].endAddr)
      ensures c < |chunks| ==> chunks[c].startAddr <= addr < chunks[c].endAddr
      ensures c < |chunks| ==> (bug <==> (addr + size) % 0x1_0000_0000 > chunks[c].endAddr)
      ensures bug || c == |chunks| ==> view == old(view)
      ensures !bug && c < |chunks| ==>
        BlockReturned(old(view), RangeBits(c, addr, size), view)
    {
      hide Pow2, BitsFor, Marked, BitCount;
      var nbits: int := BitsFor(size, order);
      c := FirstHolding(addr);
      if c < |chunks| {
        if RunsPast(c, addr, size) {
          return true, c;
        }
        DivNonNegative(addr - chunks[c].startAddr, Pow2(order));
        Mark(c, (addr - chunks[c].startAddr) / Pow2(order), nbits, false);
        nbits := -1;
      }
      bug := nbits > 0;
    }

    /** The walk of the list to the chunk that holds addr. */
    method FirstHolding(addr: nat) returns (c: nat)
      ensures c <= |chunks| && (forall i :: 0 <= i < c ==> !chunks[i].Holds(addr))
      ensures c < |chunks| ==> chunks[c].Holds(addr)
    {
      c := 0;
      while c < |chunks| && !chunks[c].Holds(addr)
        invariant 0 <= c <= |chunks| && forall i :: 0 <= i < c ==> !chunks[i].Holds(addr)
      {
        c := c + 1;
      }
    }

    /** In chunks of whole units no range below 4 GiB can run off the bitmap. */
    lemma WholeUnitsOnBitmap(addr: nat, size: SizeT)
      requires Valid() && size > 0 && Pow2(order) < 0x1_0000_0000 && addr + size < 0x1_0000_0000
      requires forall c :: 0 <= c < |chunks| ==> (chunks[c].endAddr - chunks[c].startAddr) % Pow2(order) == 0
      ensures OnBitmap(addr, size)
    {
      hide Pow2, BitsFor;
      forall c: nat | c < |chunks| && chunks[c].Holds(addr) && !RunsPast(c, addr, size)
        ensures InBounds(view, RangeBits(c, addr, size))
      {
        Wrap32Below(addr + size);
        MinusStraight(chunks[c].endAddr, chunks[c].startAddr);
        BitsAtMost(size, order);
        RangeInside(addr - chunks[c].startAddr, size, BitsFor(size, order), Pow2(order),
                    chunks[c].endAddr - chunks[c].startAddr);
      }
    }

    /** A block handed out before meets no BUG_ON, and it is its bits that free clears. */
    lemma BlockIsFreed(b: Block, addr: nat, size: SizeT)
      requires Valid() && RangesDisjoint() && 0 < size && size + Pow2(order) <= 0x1_0000_0000
      requires InBounds(view, b) && b.n == BitsFor(size, order) && addr == AddrOf(b.chunk, b.first)
      requires Straight(b.chunk)
      ensures forall c: nat :: c < |chunks| ==> (chunks[c].Holds(addr) <==> c == b.chunk)
      ensures !RunsPast(b.chunk, addr, size) && OnBitmap(addr, size)
      ensures b == RangeBits(b.chunk, addr, size)
    {
      hide Pow2, BitsFor, BitCount;
      BlockInChunk(b, addr, size);
      DivideBack(b.first, Pow2(order));
    }

    /** A block without bits, handed out for a size whose rounding wraps, meets no BUG_ON either. */
    lemma EmptyBlockIsFreed(c: nat, addr: nat, size: SizeT)
      requires Valid() && c < |chunks| && chunks[c].Holds(addr)
      requires size > 0 && Pow2(order) < 0x1_0000_0000 < size + Pow2(order) && Pow2(order) <= addr < 0x1_0000_0000
      ensures !RunsPast(c, addr, size) && OnBitmap(addr, size) && RangeBits(c, addr, size).n == 0
    {
      hide Pow2, BitsFor;
      Wrap32Below(addr + size);
      BitsCoverExactly(size, order);
      forall d: nat | d < |chunks| && chunks[d].Holds(addr)
        ensures InBounds(view, RangeBits(d, addr, size))
      {
        MinusStraight(chunks[d].endAddr, chunks[d].startAddr);
        QuotientsOrdered(addr - chunks[d].startAddr, chunks[d].endAddr - chunks[d].startAddr, Pow2(order));
      }
    }

    ghost predicate RangesDisjoint()
      reads this`chunks
    {
      forall i, j :: 0 <= i < |chunks| && 0 <= j < |chunks| && i != j ==>
        chunks[i].endAddr <= chunks[j].startAddr || chunks[j].endAddr <= chunks[i].startAddr
    }

    lemma BlockInChunk(b: Block, addr: nat, size: SizeT)
      requires Valid() && 0 < size && size + Pow2(order) <= 0x1_0000_0000
      requires InBounds(view, b) && b.n == BitsFor(size, order) && addr == AddrOf(b.chunk, b.first)
      requires Straight(b.chunk)
      ensures chunks[b.chunk].startAddr <= addr < chunks[b.chunk].endAddr
      ensures addr + size <= chunks[b.chunk].endAddr
    {
      BitsUnwrapped(size, order);
      MinusStraight(chunks[b.chunk].endAddr, chunks[b.chunk].startAddr);
      BitsEndInside(b.first, b.n, size, Pow2(order), chunks[b.chunk].endAddr - chunks[b.chunk].startAddr);
    }

    /** gen_pool_destroy: the BUG_ON fires exactly when some bit is still set. */
    method Destroy() returns (bug: bool)
      requires Valid()
      modifies this
      ensures bug <==> old(Busy(view)) != iset{}
      ensures !bug ==> chunks == []
    {
      hide Busy, AllClear;
      ghost var v, all := view, chunks;
      ghost var n := 0;
      while chunks != []
        modifies this`chunks
        invariant 0 <= n <= |v| && chunks == all[n..]
        invariant forall i :: 0 <= i < |all| ==> all[i].bits[..] == v[i]
        invariant forall c :: 0 <= c < n ==> AllClear(v[c])
        decreases |v| - n
      {
        var chunk := chunks[0];
        assert chunk == all[n];
        chunks := chunks[1..];
        var endBit := chunk.bits.Length;
        var bit := NextSet(chunk.bits[..], endBit, 0);
        if bit < endBit {
          SetBitIsBusy(v, n, bit);
          return true;
        }
        assert AllClear(v[n]) by {
          NothingSet(v[n]);
        }
        n := n + 1;
      }
      AllClearNotBusy(v);
      return false;
    }
  }

  /** n bits of `unit` bytes from bit `first` on lie within the chunk, and so do the bytes they were taken for. */
  lemma BitsEndInside(first: nat, n: nat, size: nat, unit: nat, length: nat)
    requires unit > 0 && n == (size + unit - 1) / unit > 0 && first + n <= length / unit
    ensures first * unit < length && first * unit + size <= length
  {
    var q, r := length / unit, length % unit;
    assert length == q * unit + r;
    var p := (size + unit - 1) % unit;
    assert size + unit - 1 == n * unit + p;
    assert (first + n) * unit == first * unit + n * unit;
    assert (q - first - n) * unit == q * unit - (first + n) * unit;
    assert (q - first - n) * unit >= 0;
    assert (n - 1) * unit == n * unit - unit;
    assert (n - 1) * unit >= 0;
  }

  lemma BitsAtMost(size: SizeT, order: nat)
    requires size > 0 && Pow2(order) < 0x1_0000_0000
    ensures BitsFor(size, order) * Pow2(order) <= size + Pow2(order) - 1
  {
    BitsCoverExactly(size, order);
    if size + Pow2(order) <= 0x1_0000_0000 {
      BitsUnwrapped(size, order);
      DivBounds(size + Pow2(order) - 1, Pow2(order));
    }
  }

  lemma RangeInside(x: nat, size: nat, n: nat, unit: nat, length: nat)
    requires unit > 0 && n * unit <= size + unit - 1 && x + size <= length && length % unit == 0
    ensures x / unit + n <= length / unit
  {
    var a, k := x / unit, length / unit;
    DivBounds(x, unit);
    assert length == k * unit;
    assert (a + n) * unit == a * unit + n * unit && (k + 1) * unit == k * unit + unit;
    MultiplesOrdered(a + n, k, unit);
  }

  lemma QuotientsOrdered(x: nat, y: nat, unit: nat)
    requires unit > 0 && x <= y
    ensures x / unit <= y / unit
  {
    var a, b := x / unit, y / unit;
    DivBounds(x, unit);
    DivBounds(y, unit);
    assert (b + 1) * unit == b * unit + unit;
    MultiplesOrdered(a, b, unit);
  }

  lemma DivNonNegative(a: nat, b: nat)
    requires b > 0
    ensures a / b >= 0
  {
  }
}
