/**
  The search for a heap in ion_alloc (modules/ion/gpu/ion.c). Masks are sets of bit numbers, the heaps come in the
  order of the walk, and created[i] is what ion_buffer_create returns for heaps[i] if it is called.
 */
module IonHeaps {
  import opened TilerHeaps

  datatype Heap = Heap(id: nat, kind: nat)

  const OMAP_ION_HEAP_TILER: nat := 1

  /** There is no heap whose type the client supports and whose id the caller specified. */
  ghost predicate NoneMatches(heaps: seq<Heap>, mask: set<nat>, flags: set<nat>) {
    forall i :: 0 <= i < |heaps| ==> !(heaps[i].kind in mask && heaps[i].id in flags)
  }

  /** Neither ion_buffer_create nor ion_handle_create returns NULL: a failure comes with its error. */
  predicate Made(p: Pointer) {
    p.Ptr? || (p.ErrPtr? && p.code != 0)
  }

  ghost predicate AllMade(created: seq<Pointer>) {
    forall i :: 0 <= i < |created| ==> Made(created[i])
  }

  /** The i-th heap is the first that matches and makes a buffer. */
  ghost predicate FirstToMake(heaps: seq<Heap>, created: seq<Pointer>, mask: set<nat>, flags: set<nat>, i: int)
    requires |created| == |heaps|
  {
    && 0 <= i < |heaps| && heaps[i].kind in mask && heaps[i].id in flags && created[i].Ptr?
    && forall k :: 0 <= k < i ==> !(heaps[k].kind in mask && heaps[k].id in flags && created[k].Ptr?)
  }

  ghost predicate LastToMatch(heaps: seq<Heap>, mask: set<nat>, flags: set<nat>, i: int) {
    && 0 <= i < |heaps| && heaps[i].kind in mask && heaps[i].id in flags
    && forall k :: i < k < |heaps| ==> !(heaps[k].kind in mask && heaps[k].id in flags)
  }

  /** The outcome of the search: a buffer of the first heap that makes one, or the last error, or NULL. */
  ghost predicate Searched(heaps: seq<Heap>, created: seq<Pointer>, mask: set<nat>, flags: set<nat>, buffer: Pointer)
    requires |created| == |heaps|
  {
    match buffer
    case Ptr(_) => exists i :: FirstToMake(heaps, created, mask, flags, i) && buffer == created[i]
    case ErrPtr(_) =>
      && (forall i :: !FirstToMake(heaps, created, mask, flags, i))
      && exists i :: LastToMatch(heaps, mask, flags, i) && buffer == created[i]
    case Null => NoneMatches(heaps, mask, flags)
  }

  /** ion_alloc; `handle` is what ion_handle_create returns if it is called. */
  method AllocFrom(heaps: seq<Heap>, created: seq<Pointer>, mask: set<nat>, flags: set<nat>, handle: Pointer)
      returns (buffer: Pointer, r: Pointer)
    requires |created| == |heaps| && AllMade(created) && Made(handle)
    ensures Searched(heaps, created, mask, flags, buffer)
    ensures r == if buffer.Ptr? then handle else buffer
    ensures r.Null? <==> NoneMatches(heaps, mask, flags)
    ensures r.Null? <==> forall i :: 0 <= i < |heaps| ==> heaps[i].kind !in mask || heaps[i].id !in flags
  {
    buffer := Null;
    ghost var last := -1;
    var n := 0;
    while n < |heaps|
      invariant 0 <= n <= |heaps| && !buffer.Ptr? && (last == -1 <==> buffer.Null?)
      invariant forall k :: 0 <= k < n && heaps[k].kind in mask && heaps[k].id in flags ==>
        k <= last && !created[k].Ptr?
      invariant last != -1 ==>
        0 <= last < n && heaps[last].kind in mask && heaps[last].id in flags && buffer == created[last]
    {
      if heaps[n].kind in mask && heaps[n].id in flags {
        buffer, last := created[n], n;
        if buffer.Ptr? {
          assert FirstToMake(heaps, created, mask, flags, n);
          return buffer, handle;
        }
      }
      n := n + 1;
    }
    assert last != -1 ==> LastToMatch(heaps, mask, flags, last);
    return buffer, buffer;
  }

  /**
    omap_tiler_alloc asks ion_alloc for its own heap. With the handle it gets, the silent failure depends on
    nothing but the area, the pool, the pin, and on whether the client and the device have that heap at all.
   */
  lemma TilerFailsSilentlyExactly(q: Request, backed: bool, heaps: seq<Heap>, created: seq<Pointer>, mask: set<nat>,
                                  buffer: Pointer, handle: Pointer)
    requires |created| == |heaps| && AllMade(created) && Made(handle)
    requires Searched(heaps, created, mask, {OMAP_ION_HEAP_TILER}, buffer)
    requires q.handle == if buffer.Ptr? then handle else buffer
    ensures q.FailsSilently(backed) <==>
      q.PassesChecks() &&
      (q.area.Null? || (q.area.Ptr? && backed && q.pinRet == 0 && NoneMatches(heaps, mask, {OMAP_ION_HEAP_TILER})))
  {
    if i :| LastToMatch(heaps, mask, {OMAP_ION_HEAP_TILER}, i) && buffer == created[i] {
      assert Made(created[i]) && heaps[i].kind in mask && heaps[i].id in {OMAP_ION_HEAP_TILER};
    }
  }
}
