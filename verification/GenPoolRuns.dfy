/**
  Whole runs of a gen_pool on fixed chunks. A step is one of the outcomes that Pool.Alloc and Pool.Free
  guarantee; `live` lists the blocks handed out and not yet freed, oldest first. A block has no bits when the
  rounding of its size wrapped.
 */
module GenPoolRuns {
  import opened Bitmaps

  datatype Op = Alloc(n: nat, block: Block) | NoRoom(n: nat) | Free(which: nat)

  datatype State = State(view: seq<seq<bool>>, live: seq<Block>)

  ghost predicate Step(s: State, op: Op, s': State) {
    match op
    case Alloc(n, b) =>
      BlockTaken(s.view, n, b, s'.view) && s'.live == s.live + [b]
    case NoRoom(n) =>
      NoRoomFor(s.view, n) && s' == s
    case Free(i) =>
      i < |s.live| && BlockReturned(s.view, s.live[i], s'.view) && s'.live == s.live[..i] + s.live[i + 1..]
  }

  ghost predicate IsLive(live: seq<Block>, x: Slot) {
    exists i :: 0 <= i < |live| && InBlock(live[i], x)
  }

  ghost function LiveSlots(live: seq<Block>): iset<Slot> {
    iset x: Slot | IsLive(live, x)
  }

  ghost predicate PairwiseDisjoint(live: seq<Block>) {
    forall i, j :: 0 <= i < j < |live| ==> Slots(live[i]) !! Slots(live[j])
  }

  /** Live blocks are in bounds and disjoint, and the set bits are exactly theirs. */
  ghost predicate Inv(s: State) {
    && (forall i :: 0 <= i < |s.live| ==> InBounds(s.view, s.live[i]))
    && PairwiseDisjoint(s.live)
    && Busy(s.view) == LiveSlots(s.live)
  }

  function Demand(live: seq<Block>): nat {
    if live == [] then 0 else live[0].n + Demand(live[1..])
  }

  lemma LiveConcat(a: seq<Block>, b: seq<Block>)
    ensures LiveSlots(a + b) == LiveSlots(a) + LiveSlots(b)
  {
    forall x | x in LiveSlots(a) + LiveSlots(b)
      ensures x in LiveSlots(a + b)
    {
      if x in LiveSlots(a) {
        var i :| 0 <= i < |a| && InBlock(a[i], x);
        assert (a + b)[i] == a[i];
      } else {
        var i :| 0 <= i < |b| && InBlock(b[i], x);
        assert (a + b)[|a| + i] == b[i];
      }
    }
  }

  lemma LiveSingle(b: Block)
    ensures LiveSlots([b]) == Slots(b)
  {
    forall x | x in Slots(b)
      ensures x in LiveSlots([b])
    {
      assert InBlock([b][0], x);
    }
  }

  lemma LiveWithout(live: seq<Block>, i: nat)
    requires i < |live| && PairwiseDisjoint(live)
    ensures LiveSlots(live[..i] + live[i + 1..]) == LiveSlots(live) - Slots(live[i])
    ensures PairwiseDisjoint(live[..i] + live[i + 1..])
  {
    assert live == live[..i] + [live[i]] + live[i + 1..];
    LiveConcat(live[..i] + [live[i]], live[i + 1..]);
    LiveConcat(live[..i], [live[i]]);
    LiveSingle(live[i]);
    LiveConcat(live[..i], live[i + 1..]);
    forall x | x in LiveSlots(live[..i]) || x in LiveSlots(live[i + 1..])
      ensures x !in Slots(live[i])
    {
      if x in LiveSlots(live[..i]) {
        var k :| 0 <= k < i && InBlock(live[..i][k], x);
        assert x in Slots(live[k]);
      } else {
        var k :| 0 <= k < |live| - i - 1 && InBlock(live[i + 1..][k], x);
        assert x in Slots(live[i + 1 + k]);
      }
    }
  }

  lemma LiveMember(live: seq<Block>, i: nat)
    requires i < |live|
    ensures Slots(live[i]) <= LiveSlots(live)
  {
    forall x | x in Slots(live[i])
      ensures x in LiveSlots(live)
    {
      assert InBlock(live[i], x);
    }
  }

  lemma AllocKeeps(s: State, b: Block)
    requires Inv(s) && FirstFit(s.view, b)
    ensures Inv(State(Marked(s.view, b, true), s.live + [b]))
  {
    hide Busy, LiveSlots, Slots;
    MarkSets(s.view, b);
    FreeBlockIsClear(s.view, b);
    LiveConcat(s.live, [b]);
    LiveSingle(b);
    var live := s.live + [b];
    forall i, j | 0 <= i < j < |live|
      ensures Slots(live[i]) !! Slots(live[j])
    {
      if j == |s.live| {
        LiveMember(s.live, i);
      }
    }
  }

  lemma FreeKeeps(s: State, i: nat)
    requires Inv(s) && i < |s.live|
    ensures Inv(State(Marked(s.view, s.live[i], false), s.live[..i] + s.live[i + 1..]))
  {
    hide Busy, LiveSlots, Slots, PairwiseDisjoint;
    MarkClears(s.view, s.live[i]);
    LiveWithout(s.live, i);
  }

  ghost predicate IsRun(states: seq<State>, ops: seq<Op>) {
    |states| == |ops| + 1 && forall i :: 0 <= i < |ops| ==> Step(states[i], ops[i], states[i + 1])
  }

  /** Every state of every run: blocks disjoint and in bounds, set bits exactly theirs, shape unchanged. */
  lemma {:induction false} RunSafe(states: seq<State>, ops: seq<Op>, n: nat)
    requires IsRun(states, ops) && Inv(states[0]) && n <= |ops|
    ensures Inv(states[n]) && SameShape(states[0].view, states[n].view)
  {
    hide Inv;
    if n > 0 {
      RunSafe(states, ops, n - 1);
      var s := states[n - 1];
      assert Step(s, ops[n - 1], states[n]);
      match ops[n - 1]
      case Alloc(_, b) => AllocKeeps(s, b);
      case NoRoom(_) =>
      case Free(i) => FreeKeeps(s, i);
    }
  }

  /**
    gen_pool_destroy finds a set bit, so that its BUG_ON fires, exactly when a block with bits is still live. It
    stays silent on blocks without bits.
   */
  lemma DestroySilentIffAllFreed(states: seq<State>, ops: seq<Op>, n: nat)
    requires IsRun(states, ops) && Inv(states[0]) && n <= |ops|
    ensures Busy(states[n].view) == iset{} <==> forall i :: 0 <= i < |states[n].live| ==> states[n].live[i].n == 0
  {
    RunSafe(states, ops, n);
    var live := states[n].live;
    if i :| 0 <= i < |live| && live[i].n > 0 {
      LiveMember(live, i);
      var x: Slot := (live[i].chunk, live[i].first);
      assert x in Slots(live[i]);
    }
  }

  /** A run that ends with the blocks it began with ends with the very same bitmaps. */
  lemma BalancedRunRestores(states: seq<State>, ops: seq<Op>, n: nat)
    requires IsRun(states, ops) && Inv(states[0]) && n <= |ops| && states[n].live == states[0].live
    ensures states[n].view == states[0].view
  {
    RunSafe(states, ops, n);
    BusyDetermines(states[0].view, states[n].view);
  }

  /** Freeing a block right after allocating it undoes the allocation bit for bit. */
  lemma FreeUndoesAlloc(view: seq<seq<bool>>, b: Block)
    requires FirstFit(view, b)
    ensures Marked(Marked(view, b, true), b, false) == view
  {
    var v := Marked(Marked(view, b, true), b, false);
    assert v[b.chunk] == view[b.chunk];
  }

  /** Disjoint bits are disjoint bytes, when the chunks' address ranges are disjoint. */
  lemma DisjointInBytes(view: seq<seq<bool>>, starts: seq<nat>, ends: seq<nat>, unit: nat, b: Block, c: Block)
    requires unit > 0 && |starts| == |ends| == |view|
    requires forall i :: 0 <= i < |view| ==> starts[i] <= ends[i] && |view[i]| == (ends[i] - starts[i]) / unit
    requires forall i, j :: 0 <= i < j < |view| ==> ends[i] <= starts[j] || ends[j] <= starts[i]
    requires InBounds(view, b) && InBounds(view, c) && b.n > 0 && c.n > 0 && Slots(b) !! Slots(c)
    ensures var b0, c0 := starts[b.chunk] + b.first * unit, starts[c.chunk] + c.first * unit;
      b0 + b.n * unit <= c0 || c0 + c.n * unit <= b0
  {
    EndsInChunk(ends[b.chunk] - starts[b.chunk], unit, b.first, b.n);
    EndsInChunk(ends[c.chunk] - starts[c.chunk], unit, c.first, c.n);
    if b.chunk == c.chunk {
      var lo := if b.first < c.first then c.first else b.first;
      var x: Slot := (b.chunk, lo);
      assert !(x in Slots(b) && x in Slots(c));
      Scaled(b.first, b.n, c.first, unit);
      Scaled(c.first, c.n, b.first, unit);
    }
  }

  lemma EndsInChunk(length: nat, unit: nat, first: nat, n: nat)
    requires unit > 0 && first + n <= length / unit
    ensures first * unit + n * unit <= length
  {
    var q := length / unit;
    assert length == q * unit + length % unit;
    assert (q - first - n) * unit == q * unit - first * unit - n * unit;
    assert (q - first - n) * unit >= 0;
  }

  lemma Scaled(a: nat, n: nat, b: nat, unit: nat)
    requires unit > 0
    ensures a + n <= b ==> a * unit + n * unit <= b * unit
  {
    assert (b - a - n) * unit == b * unit - a * unit - n * unit;
    assert a + n <= b ==> (b - a - n) * unit >= 0;
  }

  // ----- how many bits are set -----

  function CountSet(bits: seq<bool>): nat {
    if bits == [] then 0 else (if bits[0] then 1 else 0) + CountSet(bits[1..])
  }

  function TotalSet(view: seq<seq<bool>>): nat {
    if view == [] then 0 else CountSet(view[0]) + TotalSet(view[1..])
  }

  lemma {:induction false} CountUpdate(bits: seq<bool>, k: nat, v: bool)
    requires k < |bits| && bits[k] != v
    ensures CountSet(bits[k := v]) == if v then CountSet(bits) + 1 else CountSet(bits) - 1
  {
    if k > 0 {
      CountUpdate(bits[1..], k - 1, v);
      assert bits[k := v][1..] == bits[1..][k - 1 := v];
    } else {
      assert bits[k := v][1..] == bits[1..];
    }
  }

  lemma {:induction false} CountFilled(bits: seq<bool>, s: nat, n: nat, v: bool)
    requires s + n <= |bits| && forall k :: s <= k < s + n ==> bits[k] != v
    ensures CountSet(Filled(bits, s, n, v)) == if v then CountSet(bits) + n else CountSet(bits) - n
  {
    if n == 0 {
      assert Filled(bits, s, n, v) == bits;
    } else {
      CountFilled(bits, s, n - 1, v);
      var t := Filled(bits, s, n - 1, v);
      CountUpdate(t, s + n - 1, v);
      assert Filled(bits, s, n, v) == t[s + n - 1 := v];
    }
  }

  lemma {:induction false} TotalUpdate(view: seq<seq<bool>>, c: nat, bits: seq<bool>)
    requires c < |view|
    ensures TotalSet(view[c := bits]) == TotalSet(view) - CountSet(view[c]) + CountSet(bits)
  {
    if c > 0 {
      TotalUpdate(view[1..], c - 1, bits);
      assert view[c := bits][1..] == view[1..][c - 1 := bits];
    } else {
      assert view[c := bits][1..] == view[1..];
    }
  }

  lemma {:induction false} DemandConcat(a: seq<Block>, b: seq<Block>)
    ensures Demand(a + b) == Demand(a) + Demand(b)
  {
    if a == [] {
      assert a + b == b;
    } else {
      DemandConcat(a[1..], b);
      assert (a + b)[1..] == a[1..] + b;
    }
  }

  lemma DemandWithout(live: seq<Block>, i: nat)
    requires i < |live|
    ensures Demand(live[..i] + live[i + 1..]) == Demand(live) - live[i].n
  {
    assert live == live[..i] + [live[i]] + live[i + 1..];
    DemandConcat(live[..i] + [live[i]], live[i + 1..]);
    DemandConcat(live[..i], [live[i]]);
    DemandConcat(live[..i], live[i + 1..]);
    assert [live[i]][1..] == [];
  }

  lemma LiveBitsAreSet(s: State, i: nat)
    requires Inv(s) && i < |s.live|
    ensures forall k :: s.live[i].first <= k < s.live[i].first + s.live[i].n ==> s.view[s.live[i].chunk][k]
  {
    LiveMember(s.live, i);
    forall k | s.live[i].first <= k < s.live[i].first + s.live[i].n
      ensures s.view[s.live[i].chunk][k]
    {
      var x: Slot := (s.live[i].chunk, k);
      assert x in Slots(s.live[i]);
      assert IsBusy(s.view, x);
    }
  }

  /** Conservation: set bits and the bits of the live blocks stay equal in number throughout every run. */
  lemma {:induction false} RunConserves(states: seq<State>, ops: seq<Op>, n: nat)
    requires IsRun(states, ops) && Inv(states[0]) && n <= |ops|
    requires TotalSet(states[0].view) == Demand(states[0].live)
    ensures TotalSet(states[n].view) == Demand(states[n].live)
  {
    hide Inv;
    if n > 0 {
      RunConserves(states, ops, n - 1);
      RunSafe(states, ops, n - 1);
      var s := states[n - 1];
      assert Step(s, ops[n - 1], states[n]);
      match ops[n - 1]
      case Alloc(_, b) =>
        CountFilled(s.view[b.chunk], b.first, b.n, true);
        TotalUpdate(s.view, b.chunk, Filled(s.view[b.chunk], b.first, b.n, true));
        DemandConcat(s.live, [b]);
        assert [b][1..] == [];
      case NoRoom(_) =>
      case Free(i) =>
        var b := s.live[i];
        LiveBitsAreSet(s, i);
        CountFilled(s.view[b.chunk], b.first, b.n, false);
        TotalUpdate(s.view, b.chunk, Filled(s.view[b.chunk], b.first, b.n, false));
        DemandWithout(s.live, i);
    }
  }
}
