/** The bitmap of one gen_pool chunk as a sequence, and what first fit means on it. */
module Bitmaps {

  /** One bit of the pool: chunk index and bit index. */
  type Slot = (nat, nat)

  /** A run of n bits of chunk c, from bit first on. */
  datatype Block = Block(chunk: nat, first: nat, n: nat)

  /** find_next_zero_bit */
  function NextZero(bits: seq<bool>, size: nat, from: nat): (r: nat)
    requires size <= |bits| && from <= size
    ensures from <= r <= size && (r < size ==> !bits[r])
    ensures forall k :: from <= k < r ==> bits[k]
    decreases size - from
  {
    if from == size || !bits[from] then from else NextZero(bits, size, from + 1)
  }

  /** find_next_bit */
  function NextSet(bits: seq<bool>, size: nat, from: nat): (r: nat)
    requires size <= |bits| && from <= size
    ensures from <= r <= size && (r < size ==> bits[r])
    ensures forall k :: from <= k < r ==> !bits[k]
    decreases size - from
  {
    if from == size || bits[from] then from else NextSet(bits, size, from + 1)
  }

  ghost predicate ClearRun(bits: seq<bool>, s: int, n: nat) {
    0 <= s && s + n <= |bits| && forall k :: s <= k < s + n ==> !bits[k]
  }

  /**
    A start bit gen_pool_alloc accepts for a run of n bits: its window ends n + 1 bits before the end of
    the chunk, and even a run of no bits needs its start bit clear.
   */
  ghost predicate FitsAt(bits: seq<bool>, s: int, n: nat) {
    s < |bits| - (n + 1) && ClearRun(bits, s, if n == 0 then 1 else n)
  }

  /** First fit inside one chunk. */
  ghost predicate LowestFit(bits: seq<bool>, s: int, n: nat) {
    FitsAt(bits, s, n) && forall t :: FitsAt(bits, t, n) ==> s <= t
  }

  ghost predicate NoFit(bits: seq<bool>, n: nat) {
    forall s :: !FitsAt(bits, s, n)
  }

  /** No chunk has a fitting run of n bits. */
  ghost predicate NoRoomFor(view: seq<seq<bool>>, n: nat) {
    forall c :: 0 <= c < |view| ==> NoFit(view[c], n)
  }

  lemma FitIsInside(bits: seq<bool>, s: int, n: nat)
    requires LowestFit(bits, s, n)
    ensures 0 <= s && s + n <= |bits| && !NoFit(bits, n)
  {
  }

  /** A clear run at the end of a chunk is never found ... */
  lemma TailIsNotSearched()
    ensures ClearRun([false, false], 0, 1) && NoFit([false, false], 1)
  {
  }

  /** ... exactly: the search fails, though there are clear runs, if and only if the lowest starts behind the window. */
  lemma LateRunIsMissed(bits: seq<bool>, n: nat, s: int)
    requires n > 0 && ClearRun(bits, s, n) && forall t :: ClearRun(bits, t, n) ==> s <= t
    ensures NoFit(bits, n) <==> s >= |bits| - (n + 1)
  {
    if s < |bits| - (n + 1) {
      assert FitsAt(bits, s, n);
    }
  }

  function Filled(bits: seq<bool>, s: nat, n: nat, v: bool): (r: seq<bool>)
    requires s + n <= |bits|
    ensures |r| == |bits|
    ensures forall k :: 0 <= k < |bits| ==> r[k] == if s <= k < s + n then v else bits[k]
  {
    seq(|bits|, k requires 0 <= k < |bits| => if s <= k < s + n then v else bits[k])
  }

  // ----- the whole pool -----

  ghost predicate InBounds(view: seq<seq<bool>>, b: Block) {
    b.chunk < |view| && b.first + b.n <= |view[b.chunk]|
  }

  ghost predicate IsBusy(view: seq<seq<bool>>, x: Slot) {
    x.0 < |view| && x.1 < |view[x.0]| && view[x.0][x.1]
  }

  ghost function Busy(view: seq<seq<bool>>): iset<Slot> {
    iset x: Slot | IsBusy(view, x)
  }

  ghost predicate AllClear(bits: seq<bool>) {
    forall k :: 0 <= k < |bits| ==> !bits[k]
  }

  lemma NothingSet(bits: seq<bool>)
    requires NextSet(bits, |bits|, 0) == |bits|
    ensures AllClear(bits)
  {
  }

  lemma SetBitIsBusy(view: seq<seq<bool>>, c: nat, k: nat)
    requires c < |view| && k < |view[c]| && view[c][k]
    ensures Busy(view) != iset{}
  {
    var x: Slot := (c, k);
    assert x in Busy(view);
  }

  lemma AllClearNotBusy(view: seq<seq<bool>>)
    requires forall c :: 0 <= c < |view| ==> AllClear(view[c])
    ensures Busy(view) == iset{}
  {
  }

  predicate InBlock(b: Block, x: Slot) {
    x.0 == b.chunk && b.first <= x.1 < b.first + b.n
  }

  ghost function Slots(b: Block): iset<Slot> {
    iset x: Slot | InBlock(b, x)
  }

  function Marked(view: seq<seq<bool>>, b: Block, v: bool): (r: seq<seq<bool>>)
    requires b.chunk < |view| && b.first + b.n <= |view[b.chunk]|
    ensures |r| == |view|
    ensures forall c :: 0 <= c < |view| ==> |r[c]| == |view[c]|
  {
    view[b.chunk := Filled(view[b.chunk], b.first, b.n, v)]
  }

  lemma MarkSets(view: seq<seq<bool>>, b: Block)
    requires InBounds(view, b)
    ensures Busy(Marked(view, b, true)) == Busy(view) + Slots(b)
  {
  }

  lemma MarkClears(view: seq<seq<bool>>, b: Block)
    requires InBounds(view, b)
    ensures Busy(Marked(view, b, false)) == Busy(view) - Slots(b)
  {
  }

  lemma FreeBlockIsClear(view: seq<seq<bool>>, b: Block)
    requires InBounds(view, b)
    ensures ClearRun(view[b.chunk], b.first, b.n) <==> Slots(b) !! Busy(view)
  {
    if Slots(b) !! Busy(view) {
      forall k | b.first <= k < b.first + b.n
        ensures !view[b.chunk][k]
      {
        assert (b.chunk, k) in Slots(b);
      }
    }
  }

  ghost predicate SameShape(v: seq<seq<bool>>, w: seq<seq<bool>>) {
    |v| == |w| && forall c :: 0 <= c < |v| ==> |v[c]| == |w[c]|
  }

  /** The busy set and the shape determine every bitmap. */
  lemma BusyDetermines(v: seq<seq<bool>>, w: seq<seq<bool>>)
    requires SameShape(v, w) && Busy(v) == Busy(w)
    ensures v == w
  {
    forall c | 0 <= c < |v|
      ensures v[c] == w[c]
    {
      forall k | 0 <= k < |v[c]|
        ensures v[c][k] == w[c][k]
      {
        assert IsBusy(v, (c, k)) <==> (c, k) in Busy(v);
        assert IsBusy(w, (c, k)) <==> (c, k) in Busy(w);
      }
    }
  }

  /** The lowest fit of the first chunk that has one. */
  ghost predicate FirstFit(view: seq<seq<bool>>, b: Block) {
    && InBounds(view, b)
    && LowestFit(view[b.chunk], b.first, b.n)
    && forall c :: 0 <= c < b.chunk ==> NoFit(view[c], b.n)
  }

  /** The outcome of a successful gen_pool_alloc of n bits. */
  ghost predicate BlockTaken(view: seq<seq<bool>>, n: nat, b: Block, view': seq<seq<bool>>) {
    b.n == n && FirstFit(view, b) && view' == Marked(view, b, true)
  }

  /** The outcome of gen_pool_free of the block's bits. */
  ghost predicate BlockReturned(view: seq<seq<bool>>, b: Block, view': seq<seq<bool>>) {
    InBounds(view, b) && view' == Marked(view, b, false)
  }
}
