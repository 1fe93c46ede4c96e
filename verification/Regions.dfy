/**
  Address ranges as kept by memblock: a region list, the set of addresses it
  denotes, and the canonical form in which every such set has exactly one list.
 */
module Regions {

  const ADDRESS_SPACE: nat := 0x1_0000_0000

  /** phys_addr_t on this 32-bit target. Storing a value in a PhysAddr is a proof that it did not wrap. */
  type PhysAddr = a: nat | a < ADDRESS_SPACE

  datatype Region = Region(base: PhysAddr, size: PhysAddr)

  /** The zero-size entry that stands for the empty list. */
  const FILLER: Region := Region(0, 0)

  predicate Within(a: int, base: int, size: int) {
    base <= a < base + size
  }

  /** The addresses base, base + 1, ..., base + size - 1. */
  ghost function Span(base: int, size: int): iset<int> {
    iset a | Within(a, base, size)
  }

  ghost predicate Covers(rs: seq<Region>, a: int) {
    exists i :: 0 <= i < |rs| && Within(a, rs[i].base, rs[i].size)
  }

  /** The set of addresses a region list denotes. */
  ghost function Addresses(rs: seq<Region>): iset<int> {
    iset a | Covers(rs, a)
  }

  ghost predicate Proper(rs: seq<Region>) {
    forall i :: 0 <= i < |rs| ==> rs[i].size > 0 && rs[i].base + rs[i].size < ADDRESS_SPACE
  }

  /** Sorted, disjoint and never adjacent: between two regions there is always a gap. */
  ghost predicate Separated(rs: seq<Region>) {
    forall i, j :: 0 <= i < j < |rs| ==> rs[i].base + rs[i].size < rs[j].base
  }

  ghost predicate Canonical(rs: seq<Region>) {
    rs == [FILLER] || (|rs| > 0 && Proper(rs) && Separated(rs))
  }

  function RemoveAt(rs: seq<Region>, i: nat): seq<Region>
    requires i < |rs|
  {
    rs[..i] + rs[i + 1..]
  }

  function InsertAt(rs: seq<Region>, i: nat, r: Region): seq<Region>
    requires i <= |rs|
  {
    rs[..i] + [r] + rs[i..]
  }

  /** What memblock_remove_region leaves: an emptied list becomes the filler. */
  function Removed(rs: seq<Region>, i: nat): seq<Region>
    requires i < |rs|
  {
    if |rs| == 1 then [FILLER] else RemoveAt(rs, i)
  }

  /** Region r touches [base, end): they overlap or are adjacent. */
  predicate Touches(r: Region, base: int, end: int) {
    r.base <= end && base <= r.base + r.size
  }

  ghost predicate Isolated(rs: seq<Region>, base: int, end: int) {
    forall i :: 0 <= i < |rs| ==> !Touches(rs[i], base, end)
  }

  ghost predicate StartsAt(rs: seq<Region>, a: int) {
    exists i :: 0 <= i < |rs| && rs[i].size > 0 && rs[i].base == a
  }

  ghost predicate StrictlyInsideOne(rs: seq<Region>, base: int, end: int) {
    exists i :: 0 <= i < |rs| && rs[i].base < base && end < rs[i].base + rs[i].size
  }

  function TotalSize(rs: seq<Region>): nat {
    if rs == [] then 0 else rs[0].size + TotalSize(rs[1..])
  }

  // ----- the denotation is compositional -----

  lemma AddressesConcat(a: seq<Region>, b: seq<Region>)
    ensures Addresses(a + b) == Addresses(a) + Addresses(b)
  {
    forall x | x in Addresses(a) + Addresses(b)
      ensures x in Addresses(a + b)
    {
      if x in Addresses(a) {
        var i :| 0 <= i < |a| && Within(x, a[i].base, a[i].size);
        assert (a + b)[i] == a[i];
      } else {
        var i :| 0 <= i < |b| && Within(x, b[i].base, b[i].size);
        assert (a + b)[|a| + i] == b[i];
      }
    }
  }

  lemma AddressesSingle(r: Region)
    ensures Addresses([r]) == Span(r.base, r.size)
  {
    forall x | x in Span(r.base, r.size)
      ensures x in Addresses([r])
    {
      assert Within(x, [r][0].base, [r][0].size);
    }
  }

  lemma AddressesSplit(rs: seq<Region>, i: nat)
    requires i < |rs|
    ensures Addresses(rs) == Addresses(rs[..i]) + Span(rs[i].base, rs[i].size) + Addresses(rs[i + 1..])
  {
    assert rs == rs[..i] + [rs[i]] + rs[i + 1..];
    AddressesConcat(rs[..i] + [rs[i]], rs[i + 1..]);
    AddressesConcat(rs[..i], [rs[i]]);
    AddressesSingle(rs[i]);
  }

  lemma AddressesFiller()
    ensures Addresses([FILLER]) == iset{}
  {
    AddressesSingle(FILLER);
  }

  lemma AddressesUpdate(rs: seq<Region>, i: nat, r: Region)
    requires i < |rs|
    ensures Addresses(rs[i := r]) == Addresses(rs[..i]) + Span(r.base, r.size) + Addresses(rs[i + 1..])
  {
    AddressesSplit(rs[i := r], i);
    assert rs[i := r][..i] == rs[..i];
    assert rs[i := r][i + 1..] == rs[i + 1..];
  }

  lemma AddressesInsert(rs: seq<Region>, i: nat, r: Region)
    requires i <= |rs|
    ensures Addresses(InsertAt(rs, i, r)) == Addresses(rs) + Span(r.base, r.size)
  {
    var t := InsertAt(rs, i, r);
    AddressesSplit(t, i);
    assert t[..i] == rs[..i] && t[i + 1..] == rs[i..];
    AddressesConcat(rs[..i], rs[i..]);
    assert rs == rs[..i] + rs[i..];
  }

  lemma AddressesRemoved(rs: seq<Region>, i: nat)
    requires i < |rs|
    ensures Addresses(Removed(rs, i)) == Addresses(rs[..i]) + Addresses(rs[i + 1..])
    ensures Addresses(rs) == Addresses(Removed(rs, i)) + Span(rs[i].base, rs[i].size)
  {
    AddressesSplit(rs, i);
    AddressesConcat(rs[..i], rs[i + 1..]);
    if |rs| == 1 {
      AddressesFiller();
      assert Addresses(rs[..i]) == iset{} && Addresses(rs[i + 1..]) == iset{};
    }
  }

  /** Absorbing region i, which the range touches and reaches past, into the range. */
  lemma Absorb(rs: seq<Region>, i: nat, base: int, end: int, base': int)
    requires i < |rs| && Touches(rs[i], base, end) && base < end && rs[i].base + rs[i].size <= end
    requires base' == if base < rs[i].base then base else rs[i].base
    ensures Addresses(rs) + Span(base, end - base) == Addresses(Removed(rs, i)) + Span(base', end - base')
  {
    AddressesRemoved(rs, i);
  }

  /** Extending region i down to base, when the range ends inside it. */
  lemma ExtendDown(rs: seq<Region>, i: nat, base: PhysAddr, end: int)
    requires i < |rs| && base < rs[i].base <= end <= rs[i].base + rs[i].size < ADDRESS_SPACE
    ensures Addresses(rs[i := Region(base, rs[i].base + rs[i].size - base)]) == Addresses(rs) + Span(base, end - base)
  {
    AddressesSplit(rs, i);
    AddressesUpdate(rs, i, Region(base, rs[i].base + rs[i].size - base));
  }

  lemma EnclosedIn(rs: seq<Region>, i: nat, base: int, end: int)
    requires i < |rs| && rs[i].base <= base && end <= rs[i].base + rs[i].size
    ensures Span(base, end - base) <= Addresses(rs)
  {
    AddressesSplit(rs, i);
  }

  // ----- the canonical form is preserved -----

  lemma Ordered(rs: seq<Region>, i: nat)
    requires Canonical(rs) && i < |rs|
    ensures forall k :: 0 <= k < i ==> rs[k].base + rs[k].size < rs[i].base
    ensures forall k :: i < k < |rs| ==> rs[i].base + rs[i].size < rs[k].base
    ensures rs[i].base + rs[i].size < ADDRESS_SPACE
    ensures rs != [FILLER] ==> rs[i].size > 0
  {
  }

  lemma CanonicalRemoved(rs: seq<Region>, i: nat)
    requires Canonical(rs) && i < |rs|
    ensures Canonical(Removed(rs, i))
  {
  }

  lemma CanonicalUpdate(rs: seq<Region>, i: nat, r: Region)
    requires Canonical(rs) && rs != [FILLER] && i < |rs|
    requires r.size > 0 && r.base + r.size < ADDRESS_SPACE
    requires i > 0 ==> rs[i - 1].base + rs[i - 1].size < r.base
    requires i + 1 < |rs| ==> r.base + r.size < rs[i + 1].base
    ensures Canonical(rs[i := r])
  {
  }

  lemma CanonicalInsert(rs: seq<Region>, i: nat, r: Region)
    requires Canonical(rs) && rs != [FILLER] && i <= |rs|
    requires r.size > 0 && r.base + r.size < ADDRESS_SPACE
    requires forall k :: 0 <= k < i ==> rs[k].base + rs[k].size < r.base
    requires forall k :: i <= k < |rs| ==> r.base + r.size < rs[k].base
    ensures Canonical(InsertAt(rs, i, r))
  {
    var t := InsertAt(rs, i, r);
    assert t[i] == r;
    assert forall k :: 0 <= k < i ==> t[k] == rs[k];
    assert forall k :: i < k < |t| ==> t[k] == rs[k - 1];
    assert Proper(t);
    forall j, k | 0 <= j < k < |t|
      ensures t[j].base + t[j].size < t[k].base
    {
      var j', k' := if j < i then j else j - 1, if k < i then k else k - 1;
      if j != i && k != i {
        assert rs[j'].base + rs[j'].size < rs[k'].base;
      }
    }
  }

  // ----- one canonical list per address set -----

  lemma FirstAddress(rs: seq<Region>)
    requires Proper(rs) && Separated(rs) && rs != []
    ensures rs[0].base in Addresses(rs)
    ensures forall a :: a in Addresses(rs) ==> rs[0].base <= a
    ensures rs[0].base + rs[0].size !in Addresses(rs)
    ensures Span(rs[0].base, rs[0].size) <= Addresses(rs)
  {
    assert Within(rs[0].base, rs[0].base, rs[0].size);
    AddressesSplit(rs, 0);
  }

  lemma TailAddresses(rs: seq<Region>)
    requires Proper(rs) && Separated(rs) && rs != []
    ensures Addresses(rs[1..]) == Addresses(rs) - Span(rs[0].base, rs[0].size)
  {
    AddressesSplit(rs, 0);
    assert rs[..0] == [];
  }

  /** Two sorted gap-separated lists that denote the same set are the same list. */
  lemma {:induction false} SeparatedUnique(a: seq<Region>, b: seq<Region>)
    requires Proper(a) && Separated(a) && Proper(b) && Separated(b)
    requires Addresses(a) == Addresses(b)
    ensures a == b
  {
    if a == [] || b == [] {
      if a != [] { FirstAddress(a); }
      if b != [] { FirstAddress(b); }
    } else {
      FirstAddress(a);
      FirstAddress(b);
      assert a[0].base == b[0].base;
      assert a[0].base + a[0].size !in Span(b[0].base, b[0].size)
        && b[0].base + b[0].size !in Span(a[0].base, a[0].size);
      assert a[0] == b[0];
      TailAddresses(a);
      TailAddresses(b);
      SeparatedUnique(a[1..], b[1..]);
      assert a == [a[0]] + a[1..] && b == [b[0]] + b[1..];
    }
  }

  /** The canonical form is unique: an address set determines the array contents. */
  lemma CanonicalUnique(a: seq<Region>, b: seq<Region>)
    requires Canonical(a) && Canonical(b)
    requires Addresses(a) == Addresses(b)
    ensures a == b
  {
    AddressesFiller();
    if a == [FILLER] {
      if b != [FILLER] { FirstAddress(b); }
    } else if b == [FILLER] {
      FirstAddress(a);
    } else {
      SeparatedUnique(a, b);
    }
  }

  // ----- total size -----

  lemma {:induction false} TotalSizeSnoc(rs: seq<Region>, r: Region)
    ensures TotalSize(rs + [r]) == TotalSize(rs) + r.size
  {
    if rs != [] {
      TotalSizeSnoc(rs[1..], r);
      assert (rs + [r])[1..] == rs[1..] + [r];
    } else {
      assert rs + [r] == [r] && [r][1..] == [];
    }
  }

  /** A prefix of a canonical list sums to at most the end of its last region, so the C sum cannot wrap. */
  lemma {:induction false} PrefixSizeFits(rs: seq<Region>, n: nat)
    requires Canonical(rs) && 0 < n <= |rs|
    ensures TotalSize(rs[..n]) <= rs[n - 1].base + rs[n - 1].size < ADDRESS_SPACE
  {
    hide Canonical;
    Ordered(rs, n - 1);
    assert rs[..n] == rs[..n - 1] + [rs[n - 1]];
    TotalSizeSnoc(rs[..n - 1], rs[n - 1]);
    if n > 1 {
      PrefixSizeFits(rs, n - 1);
    } else {
      assert rs[..0] == [];
    }
  }

  // ----- touching and splitting, address by address -----

  /** A range is isolated exactly when neither it nor either neighbouring address is in the set. */
  lemma IsolatedExactly(rs: seq<Region>, base: int, end: int)
    requires Canonical(rs) && base < end && rs != [FILLER]
    ensures Isolated(rs, base, end) <==> forall a :: base - 1 <= a <= end ==> a !in Addresses(rs)
  {
    if Isolated(rs, base, end) {
      forall a | base - 1 <= a <= end
        ensures a !in Addresses(rs)
      {
      }
    } else {
      var i :| 0 <= i < |rs| && Touches(rs[i], base, end);
      var a := if rs[i].base < base - 1 then base - 1 else rs[i].base;
      assert Within(a, rs[i].base, rs[i].size);
      assert a in Addresses(rs);
    }
  }

  lemma NothingBehind(rs: seq<Region>, i: nat)
    requires Canonical(rs) && i < |rs|
    ensures rs[i].base + rs[i].size !in Addresses(rs)
  {
  }

  lemma InsideIsIn(rs: seq<Region>, base: int, end: int)
    requires StrictlyInsideOne(rs, base, end)
    ensures forall a :: base - 1 <= a <= end ==> a in Addresses(rs)
  {
    var i :| 0 <= i < |rs| && rs[i].base < base && end < rs[i].base + rs[i].size;
    forall a | base - 1 <= a <= end
      ensures a in Addresses(rs)
    {
      assert Within(a, rs[i].base, rs[i].size);
    }
  }

  lemma InIsInside(rs: seq<Region>, base: int, end: int)
    requires Canonical(rs) && base < end && forall a :: base - 1 <= a <= end ==> a in Addresses(rs)
    ensures StrictlyInsideOne(rs, base, end)
  {
    assert base - 1 in Addresses(rs);
    var i :| 0 <= i < |rs| && Within(base - 1, rs[i].base, rs[i].size);
    NothingBehind(rs, i);
  }

  /** A range lies strictly inside one region exactly when it and both neighbouring addresses are in the set. */
  lemma StrictlyInsideExactly(rs: seq<Region>, base: int, end: int)
    requires Canonical(rs) && base < end
    ensures StrictlyInsideOne(rs, base, end) <==> forall a :: base - 1 <= a <= end ==> a in Addresses(rs)
  {
    hide Canonical, StrictlyInsideOne;
    if StrictlyInsideOne(rs, base, end) {
      InsideIsIn(rs, base, end);
    }
    if forall a :: base - 1 <= a <= end ==> a in Addresses(rs) {
      InIsInside(rs, base, end);
    }
  }

  /** A region starts at an address exactly when the address is in the set and the one below is not. */
  lemma StartsAtExactly(rs: seq<Region>, a: int)
    requires Canonical(rs)
    ensures StartsAt(rs, a) <==> a in Addresses(rs) && a - 1 !in Addresses(rs)
  {
    if StartsAt(rs, a) {
      var i :| 0 <= i < |rs| && rs[i].size > 0 && rs[i].base == a;
      assert Within(a, rs[i].base, rs[i].size);
    } else if a in Addresses(rs) {
      var i :| 0 <= i < |rs| && Within(a, rs[i].base, rs[i].size);
      assert Within(a - 1, rs[i].base, rs[i].size);
    }
  }

  // ----- the total size counts addresses -----

  ghost function Bytes(base: int, size: nat): (r: set<int>)
    ensures |r| == size && forall a :: a in r <==> base <= a < base + size
  {
    if size == 0 then {} else Bytes(base, size - 1) + {base + size - 1}
  }

  /** What a list without its first region denotes. */
  lemma WithoutFirst(rs: seq<Region>)
    requires rs != [] && Separated(rs) && Proper(rs)
    ensures Separated(rs[1..]) && Proper(rs[1..])
    ensures forall a ::
      a in Addresses(rs[1..]) <==> a in Addresses(rs) && !(rs[0].base <= a < rs[0].base + rs[0].size)
    ensures forall a :: rs[0].base <= a < rs[0].base + rs[0].size ==> a in Addresses(rs)
  {
    AddressesConcat([rs[0]], rs[1..]);
    AddressesSingle(rs[0]);
    assert rs == [rs[0]] + rs[1..];
  }

  /** The total size of a list of regions is the number of addresses it denotes. */
  lemma {:induction false} TotalSizeCounts(rs: seq<Region>, all: set<int>)
    requires Separated(rs) && Proper(rs) && forall a :: a in all <==> a in Addresses(rs)
    ensures TotalSize(rs) == |all|
  {
    if rs == [] {
      assert forall a :: a !in all;
      assert all == {};
    } else {
      hide Separated, Proper;
      var first := Bytes(rs[0].base, rs[0].size);
      WithoutFirst(rs);
      hide Addresses;
      TotalSizeCounts(rs[1..], all - first);
      assert all == first + (all - first);
    }
  }
}
