/** The masks memblock.c rounds with, on 32-bit words bit by bit, and that they round for powers of two. */
module Masks {
  import opened Alignment

  const WORD: nat := 32

  /** a & b on the lowest n bits. */
  function And(n: nat, a: nat, b: nat): nat {
    if n == 0 then 0 else 2 * And(n - 1, a / 2, b / 2) + (if a % 2 == 1 && b % 2 == 1 then 1 else 0)
  }

  /** ~a on n bits: every bit flipped. */
  function Not(n: nat, a: nat): nat {
    if n == 0 then 0 else 2 * Not(n - 1, a / 2) + (1 - a % 2)
  }

  /** addr & ~(align - 1), as memblock_align_down writes it. */
  function MaskDown(addr: nat, align: nat): nat
    requires align > 0
  {
    And(WORD, addr, Not(WORD, align - 1))
  }

  /** (addr + (align - 1)) & ~(align - 1), as memblock_align_up does. */
  function MaskUp(addr: nat, align: nat): nat
    requires align > 0
  {
    And(WORD, addr + (align - 1), Not(WORD, align - 1))
  }

  lemma {:induction false} AndNotZero(n: nat, a: nat)
    requires a < Pow2(n)
    ensures And(n, a, Not(n, 0)) == a
  {
    if n > 0 {
      AndNotZero(n - 1, a / 2);
    }
  }

  lemma HalfRemainder(a: nat, p: nat)
    requires p > 0
    ensures a % (2 * p) == 2 * ((a / 2) % p) + a % 2
  {
    var q, r := (a / 2) / p, (a / 2) % p;
    assert a / 2 == q * p + r;
    assert a == q * (2 * p) + (2 * r + a % 2);
    RemainderIs(a, q, 2 * p, 2 * r + a % 2);
  }

  lemma RemainderIs(a: nat, q: nat, p: nat, r: nat)
    requires p > 0 && r < p && a == q * p + r
    ensures a % p == r
  {
    var d := a / p;
    assert a == d * p + a % p;
    MultiplesOrdered(d, q, p);
    MultiplesOrdered(q, d, p);
    assert (d + 1) * p == d * p + p && (q + 1) * p == q * p + p;
  }

  /** Half of a power of two less one, and of its complement. */
  lemma HalfOfOnes(n: nat, k: nat)
    requires 0 < k <= n
    ensures (Pow2(k) - 1) / 2 == Pow2(k - 1) - 1 && (Pow2(k) - 1) % 2 == 1
    ensures Not(n, Pow2(k) - 1) == 2 * Not(n - 1, Pow2(k - 1) - 1)
  {
  }

  lemma AndDoubled(n: nat, a: nat, m: nat)
    requires n > 0
    ensures And(n, a, 2 * m) == 2 * And(n - 1, a / 2, m)
  {
    assert (2 * m) / 2 == m && (2 * m) % 2 == 0;
  }

  /** The half with its low bits cleared, doubled. */
  lemma Recombined(a: nat, p: nat, x: nat)
    requires p > 0 && x == a / 2 - (a / 2) % p
    ensures 2 * x == a - a % (2 * p)
  {
    HalfRemainder(a, p);
  }

  lemma PowDoubles(k: nat)
    requires k > 0
    ensures Pow2(k) == 2 * Pow2(k - 1)
  {
  }

  /** a & ~(2^k - 1) is a less its remainder modulo 2^k. */
  predicate Cleared(n: nat, k: nat, a: nat) {
    And(n, a, Not(n, Pow2(k) - 1)) == a - a % Pow2(k)
  }

  lemma PowZero()
    ensures Pow2(0) == 1
  {
  }

  lemma ClearingNone(n: nat, a: nat)
    requires a < Pow2(n)
    ensures Cleared(n, 0, a)
  {
    hide And, Not, Pow2;
    PowZero();
    AndNotZero(n, a);
    RemainderIs(a, a, 1, 0);
  }

  lemma ClearingOneMore(n: nat, k: nat, a: nat)
    requires 0 < k <= n && Cleared(n - 1, k - 1, a / 2)
    ensures Cleared(n, k, a)
  {
    hide And, Not, Pow2;
    HalfOfOnes(n, k);
    PowDoubles(k);
    var p, m := Pow2(k - 1), Not(n - 1, Pow2(k - 1) - 1);
    AndDoubled(n, a, m);
    Recombined(a, p, And(n - 1, a / 2, m));
  }

  /** Clearing the lowest k bits subtracts the remainder. */
  lemma {:induction false} ClearingLowBits(n: nat, k: nat, a: nat)
    requires k <= n && a < Pow2(n)
    ensures Cleared(n, k, a)
  {
    hide Cleared, Pow2;
    if k == 0 {
      ClearingNone(n, a);
    } else {
      PowDoubles(n);
      ClearingLowBits(n - 1, k - 1, a / 2);
      ClearingOneMore(n, k, a);
    }
  }

  lemma {:induction false} AndBelow(n: nat, a: nat, b: nat)
    ensures And(n, a, b) < Pow2(n)
  {
    if n > 0 {
      AndBelow(n - 1, a / 2, b / 2);
    }
  }

  lemma {:induction false} WordIsMultiple(n: nat, k: nat)
    requires k <= n
    ensures Pow2(n) % Pow2(k) == 0
  {
    if k < n {
      WordIsMultiple(n - 1, k);
      assert Pow2(n) == 2 * Pow2(n - 1);
      hide Pow2;
      MultipleDoubled(Pow2(n - 1), Pow2(k));
    } else {
      QuotientTimes(1, Pow2(k));
    }
  }

  lemma MultipleDoubled(a: nat, p: nat)
    requires p > 0 && a % p == 0
    ensures (2 * a) % p == 0
  {
    var q := a / p;
    assert a == q * p;
    assert 2 * a == (2 * q) * p;
    QuotientTimes(2 * q, p);
  }

  lemma WordFits()
    ensures Pow2(WORD) == 0x1_0000_0000
  {
    assert Pow2(8) == 0x100;
    assert Pow2(16) == 0x1_0000;
    assert Pow2(24) == 0x100_0000;
  }

  /** memblock_align_down rounds down to a multiple, for every legal alignment. */
  lemma MaskDownRounds(addr: nat, align: nat)
    requires IsAlignment(align) && addr < 0x1_0000_0000
    ensures MaskDown(addr, align) == AlignDown(addr, align)
  {
    var k :| 0 <= k < 32 && align == Pow2(k);
    WordFits();
    hide And, Not, Pow2;
    ClearingLowBits(WORD, k, addr);
  }

  /** A sum that does not fit wraps below 4 GiB, while the multiple asked for does not lie there. */
  lemma MaskUpWraps(sum: nat, align: nat, k: nat)
    requires k < 32 && align == Pow2(k) && sum >= 0x1_0000_0000
    ensures And(WORD, sum, Not(WORD, align - 1)) < 0x1_0000_0000 <= AlignDown(sum, align)
  {
    WordFits();
    hide And, Not, Pow2, AlignDown;
    AndBelow(WORD, sum, Not(WORD, align - 1));
    WordIsMultiple(WORD, k);
    AlignDownHighest(sum, align, Pow2(WORD));
  }

  /** memblock_align_up rounds up to a multiple if and only if its sum fits in 32 bits. */
  lemma MaskUpRounds(addr: nat, align: nat)
    requires IsAlignment(align)
    ensures MaskUp(addr, align) == AlignUp(addr, align) <==> addr + (align - 1) < 0x1_0000_0000
  {
    var k :| 0 <= k < 32 && align == Pow2(k);
    hide And, Not, Pow2, IsAlignment, AlignDown;
    if addr + (align - 1) < 0x1_0000_0000 {
      MaskDownRounds(addr + (align - 1), align);
    } else {
      MaskUpWraps(addr + (align - 1), align, k);
    }
  }

  /** Bits above the word do not matter. */
  lemma {:induction false} AndOfLow(n: nat, a: nat, b: nat)
    ensures And(n, a + Pow2(n), b) == And(n, a, b)
  {
    if n > 0 {
      AndOfLow(n - 1, a / 2, b / 2);
      assert (a + Pow2(n)) / 2 == a / 2 + Pow2(n - 1) && (a + Pow2(n)) % 2 == a % 2;
    }
  }

  /** The result of the mask is a word. */
  lemma MaskUpFits(addr: nat, align: nat)
    requires align > 0
    ensures MaskUp(addr, align) < 0x1_0000_0000
  {
    WordFits();
    hide And, Not, Pow2;
    AndBelow(WORD, addr + (align - 1), Not(WORD, align - 1));
  }

  /** A positive size is rounded to 0 if and only if its rounding wraps. */
  lemma MaskUpZero(size: nat, align: nat)
    requires IsAlignment(align) && 0 < size < 0x1_0000_0000
    ensures MaskUp(size, align) == 0 <==> size + (align - 1) >= 0x1_0000_0000
  {
    var k :| 0 <= k < 32 && align == Pow2(k);
    hide And, Not, AlignDown, Pow2, IsAlignment;
    var sum := size + (align - 1);
    if sum < 0x1_0000_0000 {
      MaskUpRounds(size, align);
      AlignUpLowest(size, align);
    } else {
      WordFits();
      WrappedToZero(sum - Pow2(WORD), align, k);
    }
  }

  lemma WrappedToZero(low: nat, align: nat, k: nat)
    requires k < 32 && align == Pow2(k) && low < align
    ensures And(WORD, low + Pow2(WORD), Not(WORD, align - 1)) == 0
  {
    hide And, Not, Pow2, Cleared;
    PowsOrdered(k, WORD);
    AndOfLow(WORD, low, Not(WORD, align - 1));
    ClearingLowBits(WORD, k, low);
    NothingCleared(WORD, k, low);
  }

  lemma NothingCleared(n: nat, k: nat, a: nat)
    requires Cleared(n, k, a) && a < Pow2(k)
    ensures And(n, a, Not(n, Pow2(k) - 1)) == 0
  {
    hide And, Not, Pow2;
    RemainderIs(a, 0, Pow2(k), a);
  }

  lemma {:induction false} PowsOrdered(k: nat, n: nat)
    requires k <= n
    ensures Pow2(k) <= Pow2(n)
  {
    if k < n {
      PowsOrdered(k, n - 1);
    }
  }
}
