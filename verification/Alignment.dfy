/** memblock_align_down and memblock_align_up for power-of-two alignments. */
module Alignment {

  function Pow2(k: nat): (p: nat)
    ensures p > 0
  {
    if k == 0 then 1 else 2 * Pow2(k - 1)
  }

  /** The masks of memblock.c round only for powers of two; nothing else is a legal alignment. */
  ghost predicate IsAlignment(align: int) {
    align > 0 && exists k :: 0 <= k < 32 && align == Pow2(k)
  }

  /** addr & ~(align - 1) */
  function AlignDown(addr: nat, align: nat): nat
    requires align > 0
  {
    addr - addr % align
  }

  /** (addr + (align - 1)) & ~(align - 1) */
  function AlignUp(addr: nat, align: nat): nat
    requires align > 0
  {
    AlignDown(addr + (align - 1), align)
  }

  lemma ProductNonNegative(a: nat, b: nat)
    ensures a * b >= 0
  {
  }

  lemma MultiplesOrdered(p: int, q: int, align: nat)
    requires align > 0
    ensures p > q <==> p * align >= (q + 1) * align
  {
    if p > q {
      ProductNonNegative(p - q - 1, align);
      assert p * align == (q + 1) * align + (p - q - 1) * align;
    } else {
      ProductNonNegative(q - p, align);
      assert (q + 1) * align == p * align + (q - p) * align + align;
    }
  }

  lemma MultipleBelow(m: nat, q: nat, r: nat, align: nat)
    requires align > 0 && r < align && m % align == 0 && m <= q * align + r
    ensures m <= q * align
  {
    var p := m / align;
    assert m == p * align;
    MultiplesOrdered(p, q, align);
    assert (q + 1) * align == q * align + align;
    MultiplesOrdered(q, p - 1, align);
  }

  lemma QuotientTimes(q: int, align: nat)
    requires align > 0
    ensures (q * align) % align == 0
  {
    var d, r := (q * align) / align, (q * align) % align;
    assert q * align == d * align + r;
    assert (q - d) * align == r;
    MultiplesOrdered(q, d, align);
    assert (d + 1) * align == d * align + align;
    MultiplesOrdered(d, q, align);
    assert (q + 1) * align == q * align + align;
  }

  /** Rounding down yields a multiple of align ... */
  lemma AlignDownMultiple(addr: nat, align: nat)
    requires align > 0
    ensures AlignDown(addr, align) <= addr && AlignDown(addr, align) % align == 0
  {
    QuotientTimes(addr / align, align);
  }

  /** ... and the highest one that is not above addr. */
  lemma AlignDownHighest(addr: nat, align: nat, m: nat)
    requires align > 0 && m <= addr && m % align == 0
    ensures m <= AlignDown(addr, align)
  {
    var q, r := addr / align, addr % align;
    assert addr == q * align + r;
    MultipleBelow(m, q, r, align);
  }

  /** Rounding up yields the lowest multiple of align that is not below addr. */
  lemma AlignUpLowest(addr: nat, align: nat)
    requires align > 0
    ensures addr <= AlignUp(addr, align) < addr + align && AlignUp(addr, align) % align == 0
  {
    AlignDownMultiple(addr + (align - 1), align);
  }
}
