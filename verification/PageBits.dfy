/** How many single pages a pool can still hand out, and that page allocations use up exactly that many. */
module PageBits {
  import opened Bitmaps
  import opened GenPoolRuns

  /** The clear bits among the start bits that gen_pool_alloc tries for a run of one bit. */
  function Usable(bits: seq<bool>): nat {
    if |bits| < 2 then 0
    else
      CountBounded(bits[..|bits| - 2]);
      |bits| - 2 - CountSet(bits[..|bits| - 2])
  }

  function UsablePages(view: seq<seq<bool>>): nat {
    if view == [] then 0 else Usable(view[0]) + UsablePages(view[1..])
  }

  lemma {:induction false} CountBounded(bits: seq<bool>)
    ensures CountSet(bits) <= |bits|
    ensures CountSet(bits) == |bits| <==> forall k :: 0 <= k < |bits| ==> bits[k]
  {
    if bits != [] {
      CountBounded(bits[1..]);
      assert forall k :: 0 < k < |bits| ==> bits[k] == bits[1..][k - 1];
      assert forall k :: 0 <= k < |bits| - 1 ==> bits[1..][k] == bits[k + 1];
    }
  }

  lemma NoneUsable(bits: seq<bool>)
    ensures NoFit(bits, 1) <==> Usable(bits) == 0
  {
    if |bits| >= 2 {
      var w := bits[..|bits| - 2];
      CountBounded(w);
      if NoFit(bits, 1) {
        forall k | 0 <= k < |w|
          ensures w[k]
        {
          assert !FitsAt(bits, k, 1);
        }
      } else {
        var s :| FitsAt(bits, s, 1);
        assert !w[s];
      }
    }
  }

  /** A page can be had exactly while some usable bit is left. */
  lemma {:induction false} RoomWhileUsable(view: seq<seq<bool>>)
    ensures NoRoomFor(view, 1) <==> UsablePages(view) == 0
  {
    hide NoFit, Usable;
    if view != [] {
      NoneUsable(view[0]);
      RoomWhileUsable(view[1..]);
      assert forall c :: 0 < c < |view| ==> view[c] == view[1..][c - 1];
      assert forall c :: 0 <= c < |view| - 1 ==> view[1..][c] == view[c + 1];
      assert NoRoomFor(view, 1) <==> NoFit(view[0], 1) && NoRoomFor(view[1..], 1);
    }
  }

  lemma UsableTaken(bits: seq<bool>, s: nat)
    requires FitsAt(bits, s, 1)
    ensures Usable(Filled(bits, s, 1, true)) == Usable(bits) - 1
  {
    var n := |bits| - 2;
    CountUpdate(bits[..n], s, true);
    assert Filled(bits, s, 1, true)[..n] == bits[..n][s := true];
  }

  lemma {:induction false} UsableUpdate(view: seq<seq<bool>>, c: nat, bits: seq<bool>)
    requires c < |view|
    ensures UsablePages(view[c := bits]) == UsablePages(view) - Usable(view[c]) + Usable(bits)
  {
    hide Usable;
    if c > 0 {
      UsableUpdate(view[1..], c - 1, bits);
      assert view[c := bits][1..] == view[1..][c - 1 := bits];
    } else {
      assert view[c := bits][1..] == view[1..];
    }
  }

  /** Handing out one page uses up exactly one usable bit. */
  lemma PageTakesOne(view: seq<seq<bool>>, b: Block)
    requires FirstFit(view, b) && b.n == 1
    ensures UsablePages(Marked(view, b, true)) == UsablePages(view) - 1
  {
    UsableTaken(view[b.chunk], b.first);
    UsableUpdate(view, b.chunk, Filled(view[b.chunk], b.first, 1, true));
  }

  /** The pool can back n pages: in one run, or one by one. */
  ghost predicate CanBack(view: seq<seq<bool>>, n: nat) {
    !NoRoomFor(view, n) || UsablePages(view) >= n
  }
}
