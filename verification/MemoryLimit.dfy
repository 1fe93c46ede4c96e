/**
  memblock_enforce_memory_limit as functions of the two region lists: the cut of the memory list,
  and the loop over the reserved list as a step relation, whose termination has an exact condition.
 */
module MemoryLimit {
  import opened Regions

  // ----- the memory side -----

  /** The regions holding the lowest `limit` bytes of memory. */
  function Truncated(rs: seq<Region>, limit: PhysAddr): (r: seq<Region>)
    ensures r == [] <==> rs == []
  {
    if rs == [] then []
    else if limit > rs[0].size then [rs[0]] + Truncated(rs[1..], limit - rs[0].size)
    else [Region(rs[0].base, limit)]
  }

  function DramEnd(rs: seq<Region>): nat
    requires rs != []
  {
    rs[|rs| - 1].base + rs[|rs| - 1].size
  }

  ghost function Below(a: int): iset<int> {
    iset x | Within(x, 0, a)
  }

  lemma {:induction false} TruncatedSize(rs: seq<Region>, limit: PhysAddr)
    ensures TotalSize(Truncated(rs, limit)) == if limit < TotalSize(rs) then limit else TotalSize(rs)
  {
    if rs != [] {
      if limit > rs[0].size {
        TruncatedSize(rs[1..], limit - rs[0].size);
        var t := [rs[0]] + Truncated(rs[1..], limit - rs[0].size);
        assert t[1..] == Truncated(rs[1..], limit - rs[0].size);
      } else {
        assert [Region(rs[0].base, limit)][1..] == [];
      }
    }
  }

  /** Cutting by size keeps exactly the memory below the new end of DRAM. */
  lemma {:induction false} TruncatedAddresses(rs: seq<Region>, limit: PhysAddr)
    requires Proper(rs) && Separated(rs) && rs != [] && limit > 0
    ensures var t := Truncated(rs, limit);
      && t != [] && Proper(t) && Separated(t) && t[0].base == rs[0].base
      && Addresses(t) == Addresses(rs) * Below(DramEnd(t))
  {
    hide Addresses, Span, Below;
    FirstAddress(rs);
    if limit > rs[0].size {
      var u := Truncated(rs[1..], limit - rs[0].size);
      if |rs| == 1 {
        assert rs[1..] == [] && [rs[0]] + u == rs;
        AllBelowEnd(rs);
        MeetAll(rs, DramEnd(rs));
      } else {
        TruncatedAddresses(rs[1..], limit - rs[0].size);
        ConsSeparated(rs[0], u);
        ConsAddresses(rs, u);
      }
    } else {
      CutFirst(rs, Region(rs[0].base, limit));
    }
  }

  lemma TruncatedCanonical(rs: seq<Region>, limit: PhysAddr)
    requires Canonical(rs) && limit > 0
    ensures Canonical(Truncated(rs, limit)) && |Truncated(rs, limit)| <= |rs|
  {
    TruncatedLength(rs, limit);
    if rs == [FILLER] {
      assert rs[1..] == [];
    } else {
      TruncatedAddresses(rs, limit);
    }
  }

  lemma {:induction false} TruncatedLength(rs: seq<Region>, limit: PhysAddr)
    ensures |Truncated(rs, limit)| <= |rs|
  {
    if rs != [] && limit > rs[0].size {
      TruncatedLength(rs[1..], limit - rs[0].size);
    }
  }

  /** The memory loop after i regions: all kept so far, `limit` bytes left for the rest. */
  ghost predicate TruncatedFrom(rs: seq<Region>, memoryLimit: PhysAddr, i: nat, limit: PhysAddr)
    requires i <= |rs|
  {
    Truncated(rs, memoryLimit) == rs[..i] + Truncated(rs[i..], limit)
  }

  lemma TruncatedStart(rs: seq<Region>, memoryLimit: PhysAddr)
    ensures TruncatedFrom(rs, memoryLimit, 0, memoryLimit)
  {
    assert rs[0..] == rs && rs[..0] == [];
  }

  lemma TruncatedStep(rs: seq<Region>, memoryLimit: PhysAddr, i: nat, limit: PhysAddr)
    requires i < |rs| && TruncatedFrom(rs, memoryLimit, i, limit)
    ensures limit > rs[i].size ==> TruncatedFrom(rs, memoryLimit, i + 1, limit - rs[i].size)
    ensures limit <= rs[i].size ==> Truncated(rs, memoryLimit) == rs[..i] + [Region(rs[i].base, limit)]
  {
    assert rs[i..][1..] == rs[i + 1..];
    assert rs[..i + 1] == rs[..i] + [rs[i]];
  }

  lemma TruncatedEnd(rs: seq<Region>, memoryLimit: PhysAddr, limit: PhysAddr)
    requires TruncatedFrom(rs, memoryLimit, |rs|, limit)
    ensures Truncated(rs, memoryLimit) == rs
  {
  }

  lemma MeetAll(rs: seq<Region>, a: int)
    requires Addresses(rs) <= Below(a)
    ensures Addresses(rs) == Addresses(rs) * Below(a)
  {
  }

  lemma ConsAddresses(rs: seq<Region>, u: seq<Region>)
    requires Proper(rs) && Separated(rs) && |rs| > 1
    requires u != [] && Proper(u) && Separated(u) && u[0].base == rs[1].base
    requires Addresses(u) == Addresses(rs[1..]) * Below(DramEnd(u))
    ensures var t := [rs[0]] + u;
      DramEnd(t) == DramEnd(u) && Addresses(t) == Addresses(rs) * Below(DramEnd(t))
  {
    hide Addresses, Separated, Proper;
    assert rs == [rs[0]] + rs[1..];
    AddressesConcat([rs[0]], rs[1..]);
    AddressesConcat([rs[0]], u);
    AddressesSingle(rs[0]);
    LastAbove(u);
    assert rs[0].base + rs[0].size < rs[1].base by {
      GapAfterFirst(rs);
    }
  }

  lemma GapAfterFirst(rs: seq<Region>)
    requires Separated(rs) && |rs| > 1
    ensures rs[0].base + rs[0].size < rs[1].base
  {
  }

  lemma CutFirst(rs: seq<Region>, low: Region)
    requires Proper(rs) && Separated(rs) && rs != []
    requires low.base == rs[0].base && low.size <= rs[0].size
    ensures Addresses([low]) == Addresses(rs) * Below(low.base + low.size)
  {
    hide Addresses;
    assert rs == [rs[0]] + rs[1..];
    AddressesConcat([rs[0]], rs[1..]);
    AddressesSingle(rs[0]);
    AddressesSingle(low);
    FirstGap(rs);
  }

  lemma ConsSeparated(r: Region, u: seq<Region>)
    requires Proper(u) && Separated(u) && u != [] && r.size > 0 && r.base + r.size < u[0].base
    ensures Proper([r] + u) && Separated([r] + u)
  {
    var t := [r] + u;
    assert forall k :: 0 < k < |t| ==> t[k] == u[k - 1];
    forall j, k | 0 <= j < k < |t|
      ensures t[j].base + t[j].size < t[k].base
    {
      if j == 0 && k > 1 {
        assert u[0].base + u[0].size < u[k - 1].base;
      }
    }
  }

  lemma LastAbove(u: seq<Region>)
    requires Proper(u) && Separated(u) && u != []
    ensures u[0].base < DramEnd(u)
  {
  }

  lemma FirstGap(rs: seq<Region>)
    requires Proper(rs) && Separated(rs) && rs != []
    ensures Addresses(rs[1..]) !! Below(rs[0].base + rs[0].size)
  {
  }

  /** The end of DRAM bounds every address of a canonical list. */
  lemma AllBelowEnd(rs: seq<Region>)
    requires Canonical(rs)
    ensures Addresses(rs) <= Below(DramEnd(rs))
  {
    AddressesFiller();
  }

  // ----- the reserved side -----

  /** One iteration of the reserved loop on region i: clip, and remove what is left empty. */
  function ClipStep(rs: seq<Region>, i: nat, end: PhysAddr): (seq<Region>, nat)
    requires i < |rs|
  {
    var p := rs[i];
    var p' :=
      if p.base > end then Region(p.base, 0)
      else if p.base + p.size > end then Region(p.base, end - p.base)
      else p;
    if p'.size == 0 then (Removed(rs[i := p'], i), i) else (rs[i := p'], i + 1)
  }

  /** The state (list, index) after n iterations; the loop stops when the index leaves the list. */
  function ClipRun(rs: seq<Region>, end: PhysAddr, n: nat): (seq<Region>, nat) {
    if n == 0 then (rs, 0)
    else
      var (t, i) := ClipRun(rs, end, n - 1);
      if i < |t| then ClipStep(t, i, end) else (t, i)
  }

  ghost predicate ClipHalts(rs: seq<Region>, end: PhysAddr) {
    exists n: nat :: ClipRun(rs, end, n).1 >= |ClipRun(rs, end, n).0|
  }

  /** Some reserved region starts below the new end of DRAM, so the list never runs empty. */
  predicate SomeSurvives(rs: seq<Region>, end: int)
    requires rs != []
  {
    rs[0].size > 0 && rs[0].base < end
  }

  /** The loop invariant of the reserved loop when a region survives. */
  ghost predicate Clipping(rs0: seq<Region>, rs: seq<Region>, end: PhysAddr, i: int) {
    && Canonical(rs) && rs != [FILLER]
    && 0 <= i <= |rs|
    && SomeSurvives(rs, end)
    && (forall k :: 0 <= k < i ==> rs[k].base + rs[k].size <= end)
    && Addresses(rs) * Below(end) == Addresses(rs0) * Below(end)
  }

  lemma ClipStepKeeps(rs0: seq<Region>, rs: seq<Region>, end: PhysAddr, i: nat)
    requires Clipping(rs0, rs, end, i) && i < |rs|
    ensures var (t, j) := ClipStep(rs, i, end);
      Clipping(rs0, t, end, j) && |t| - j < |rs| - i && |t| <= |rs|
  {
    hide Addresses, Canonical;
    Ordered(rs, i);
    if rs[i].base >= end {
      ClipDrop(rs0, rs, end, i);
    } else if rs[i].base + rs[i].size > end {
      ClipTrim(rs0, rs, end, i, Region(rs[i].base, end - rs[i].base));
    } else {
      assert rs[i := rs[i]] == rs;
    }
  }

  lemma ClipDrop(rs0: seq<Region>, rs: seq<Region>, end: PhysAddr, i: nat)
    requires Clipping(rs0, rs, end, i) && i < |rs| && rs[i].base >= end
    ensures Clipping(rs0, RemoveAt(rs, i), end, i) && |rs| > 1
    ensures Removed(rs[i := Region(rs[i].base, 0)], i) == RemoveAt(rs, i)
  {
    CanonicalRemoved(rs, i);
    AddressesRemoved(rs, i);
  }

  lemma ClipTrim(rs0: seq<Region>, rs: seq<Region>, end: PhysAddr, i: nat, low: Region)
    requires Clipping(rs0, rs, end, i) && i < |rs| && rs[i].base < end < rs[i].base + rs[i].size
    requires low == Region(rs[i].base, end - rs[i].base)
    ensures Clipping(rs0, rs[i := low], end, i + 1)
  {
    hide Addresses;
    Ordered(rs, i);
    CanonicalUpdate(rs, i, low);
    AddressesSplit(rs, i);
    AddressesUpdate(rs, i, low);
  }

  /** At the loop exit the list denotes exactly the reserved addresses below the end. */
  lemma ClipDone(rs0: seq<Region>, rs: seq<Region>, end: PhysAddr)
    requires Clipping(rs0, rs, end, |rs|)
    ensures Canonical(rs) && Addresses(rs) == Addresses(rs0) * Below(end)
  {
  }

  lemma ClipStart(rs: seq<Region>, end: PhysAddr)
    requires Canonical(rs) && SomeSurvives(rs, end)
    ensures Clipping(rs, rs, end, 0)
  {
  }

  lemma ClipRunStart(rs: seq<Region>, end: PhysAddr)
    ensures ClipRun(rs, end, 0) == (rs, 0)
  {
  }

  lemma ClipRunNext(rs0: seq<Region>, end: PhysAddr, n: nat, rs: seq<Region>, i: nat)
    requires ClipRun(rs0, end, n) == (rs, i) && i < |rs|
    ensures ClipRun(rs0, end, n + 1) == ClipStep(rs, i, end)
  {
  }

  // ----- exact termination -----

  lemma ClipWithoutSurvivor(rs: seq<Region>, end: PhysAddr)
    requires Canonical(rs) && !SomeSurvives(rs, end)
    ensures ClipStep(rs, 0, end) == (Removed(rs, 0), 0)
    ensures Canonical(Removed(rs, 0)) && !SomeSurvives(Removed(rs, 0), end)
  {
    CanonicalRemoved(rs, 0);
    assert rs[0].size == 0 ==> rs[0 := rs[0]] == rs;
    assert rs[0 := Region(rs[0].base, 0)][1..] == rs[1..];
  }

  /** With no survivor the loop empties the list and then re-creates and re-removes the filler for ever. */
  lemma {:induction false} ClipDiverges(rs: seq<Region>, end: PhysAddr, n: nat)
    requires Canonical(rs) && !SomeSurvives(rs, end)
    ensures var (t, i) := ClipRun(rs, end, n);
      i == 0 && Canonical(t) && !SomeSurvives(t, end)
  {
    hide Canonical;
    if n > 0 {
      ClipDiverges(rs, end, n - 1);
      ClipWithoutSurvivor(ClipRun(rs, end, n - 1).0, end);
    }
  }

  lemma {:induction false} ClipProgress(rs: seq<Region>, end: PhysAddr, n: nat)
    requires Canonical(rs) && SomeSurvives(rs, end)
    ensures var (t, i) := ClipRun(rs, end, n);
      Clipping(rs, t, end, i) && (i < |t| ==> |t| - i + n <= |rs|)
  {
    if n == 0 {
      ClipStart(rs, end);
    } else {
      ClipProgress(rs, end, n - 1);
      var (t, i) := ClipRun(rs, end, n - 1);
      if i < |t| {
        ClipStepKeeps(rs, t, end, i);
      }
    }
  }

  /** The reserved loop terminates if and only if some reserved region starts below the new end of DRAM. */
  lemma ClipHaltsExactly(rs: seq<Region>, end: PhysAddr)
    requires Canonical(rs)
    ensures ClipHalts(rs, end) <==> SomeSurvives(rs, end)
  {
    if SomeSurvives(rs, end) {
      ClipProgress(rs, end, |rs|);
      assert ClipRun(rs, end, |rs|).1 >= |ClipRun(rs, end, |rs|).0|;
    } else {
      forall n: nat
        ensures ClipRun(rs, end, n).1 < |ClipRun(rs, end, n).0|
      {
        ClipDiverges(rs, end, n);
      }
    }
  }

  /** One reserved region, at the new end of DRAM, makes the loop run for ever. */
  lemma ClipLoops()
    ensures Canonical([Region(10, 5)]) && !ClipHalts([Region(10, 5)], 10)
  {
    hide ClipHalts;
    ClipHaltsExactly([Region(10, 5)], 10);
  }
}
