/**
  Whole runs of the tiler heap on one pool. A step is one of the outcomes that TilerHeap.Alloc and TilerHeap.Free
  guarantee; `live` lists the buffers handed out and not yet freed, oldest first.
 */
module TilerRuns {
  import opened Bitmaps
  import opened GenPoolRuns
  import opened TilerHeaps

  datatype Op = Allocate(buffer: Buffer) | Refuse | Release(which: nat)

  datatype State = State(space: Space, live: seq<Buffer>)

  ghost predicate Step(starts: seq<nat>, s: State, op: Op, s': State) {
    match op
    case Allocate(b) =>
      BufferTaken(starts, s.space, b, s'.space) && s'.live == s.live + [b]
    case Refuse => s' == s
    case Release(i) =>
      i < |s.live| && BufferReturned(s.space, s.live[i], s'.space) && s'.live == s.live[..i] + s.live[i + 1..]
  }

  ghost predicate IsOwned(live: seq<Buffer>, x: Slot) {
    exists i :: 0 <= i < |live| && x in LiveSlots(live[i].where)
  }

  /** The bits behind the live buffers. */
  ghost function Owned(live: seq<Buffer>): iset<Slot> {
    iset x: Slot | IsOwned(live, x)
  }

  ghost predicate Apart(live: seq<Buffer>) {
    forall i, j :: 0 <= i < j < |live| ==> LiveSlots(live[i].where) !! LiveSlots(live[j].where)
  }

  /** Every piece of the buffer lies at the address recorded for it, as freeing it requires. */
  ghost predicate Placed(starts: seq<nat>, view: seq<seq<bool>>, b: Buffer) {
    b.size < 0x1_0000_0000 && |b.where| <= |b.addrs| && forall k :: 0 <= k < |b.where| ==>
      BackedAt(starts, view, b.addrs[k], b.where[k], b.size)
  }

  /** Live buffers are disjoint from each other and from what was busy before, and the pool holds exactly both. */
  ghost predicate BitsInv(starts: seq<nat>, before: seq<seq<bool>>, s: State) {
    && SameShape(before, s.space.view)
    && Busy(s.space.view) == Busy(before) + Owned(s.live) && Owned(s.live) !! Busy(before)
    && Apart(s.live)
    && forall i :: 0 <= i < |s.live| ==> Placed(starts, s.space.view, s.live[i])
  }

  function Areas(live: seq<Buffer>): set<nat> {
    set i | 0 <= i < |live| :: live[i].area
  }

  /** Every live buffer has an area of its own, pinned; the tiler holds exactly these and what it held before. */
  ghost predicate AreasInv(before: State, s: State) {
    && s.space.areas == before.space.areas + Areas(s.live) && s.space.pins == before.space.pins + Areas(s.live)
    && before.space.pins <= before.space.areas && Areas(s.live) !! before.space.areas
    && forall i, j :: 0 <= i < j < |s.live| ==> s.live[i].area != s.live[j].area
  }

  ghost predicate Inv(starts: seq<nat>, before: State, s: State) {
    BitsInv(starts, before.space.view, s) && AreasInv(before, s)
  }

  lemma AreasKept(starts: seq<nat>, before: State, s: State, op: Op, s': State)
    requires AreasInv(before, s) && Step(starts, s, op, s')
    ensures AreasInv(before, s')
  {
    hide Backed, Busy, LiveSlots, SameShape;
    match op {
      case Allocate(b) => AreasAdd(s.live, b);
      case Refuse =>
      case Release(i) => AreasWithout(s.live, i);
    }
  }

  lemma AreasAdd(live: seq<Buffer>, b: Buffer)
    ensures Areas(live + [b]) == Areas(live) + {b.area}
  {
    forall x | x in Areas(live) + {b.area}
      ensures x in Areas(live + [b])
    {
      if x in Areas(live) {
        var i :| 0 <= i < |live| && x == live[i].area;
        assert (live + [b])[i] == live[i];
      } else {
        assert (live + [b])[|live|] == b;
      }
    }
  }

  lemma AreasWithout(live: seq<Buffer>, i: nat)
    requires i < |live| && forall j, k :: 0 <= j < k < |live| ==> live[j].area != live[k].area
    ensures Areas(live[..i] + live[i + 1..]) == Areas(live) - {live[i].area}
  {
    var rest := live[..i] + live[i + 1..];
    assert forall k :: 0 <= k < |rest| ==> rest[k] == live[if k < i then k else k + 1];
    forall x | x in Areas(live) - {live[i].area}
      ensures x in Areas(rest)
    {
      var k :| 0 <= k < |live| && x == live[k].area;
      assert live[k] == rest[if k < i then k else k - 1];
    }
  }

  lemma OwnedAdd(live: seq<Buffer>, b: Buffer)
    ensures Owned(live + [b]) == Owned(live) + LiveSlots(b.where)
  {
    hide LiveSlots;
    forall x | x in Owned(live) + LiveSlots(b.where)
      ensures x in Owned(live + [b])
    {
      if x in Owned(live) {
        var i :| 0 <= i < |live| && x in LiveSlots(live[i].where);
        assert (live + [b])[i] == live[i];
      } else {
        assert (live + [b])[|live|] == b;
      }
    }
  }

  lemma OwnedMember(live: seq<Buffer>, i: nat)
    requires i < |live|
    ensures LiveSlots(live[i].where) <= Owned(live)
  {
    hide LiveSlots;
  }

  lemma OwnedWithout(live: seq<Buffer>, i: nat)
    requires i < |live| && Apart(live)
    ensures var rest := live[..i] + live[i + 1..];
      Apart(rest) && Owned(rest) == Owned(live) - LiveSlots(live[i].where)
  {
    hide LiveSlots;
    var rest := live[..i] + live[i + 1..];
    assert forall k :: 0 <= k < |rest| ==> rest[k] == live[if k < i then k else k + 1];
    forall x | x in Owned(live) - LiveSlots(live[i].where)
      ensures x in Owned(rest)
    {
      var k :| 0 <= k < |live| && x in LiveSlots(live[k].where);
      assert live[k] == rest[if k < i then k else k - 1];
    }
    forall x | x in Owned(rest)
      ensures x in Owned(live) - LiveSlots(live[i].where)
    {
      var k :| 0 <= k < |rest| && x in LiveSlots(rest[k].where);
      assert x in LiveSlots(live[if k < i then k else k + 1].where);
    }
  }

  lemma AllocateKeeps(starts: seq<nat>, before: seq<seq<bool>>, s: State, b: Buffer, s': State)
    requires BitsInv(starts, before, s) && Step(starts, s, Allocate(b), s')
    ensures BitsInv(starts, before, s')
  {
    hide LiveSlots, Busy, SameShape, BackedAt, Owned;
    ShapeTrans(before, s.space.view, s'.space.view);
    OwnedAdd(s.live, b);
    forall i, j | 0 <= i < j < |s'.live|
      ensures LiveSlots(s'.live[i].where) !! LiveSlots(s'.live[j].where)
    {
      OwnedMember(s.live, i);
    }
    forall i | 0 <= i < |s'.live|
      ensures Placed(starts, s'.space.view, s'.live[i])
    {
      if i < |s.live| {
        StaysPlaced(starts, s.space.view, s'.space.view, s.live[i]);
      }
    }
  }

  lemma StaysPlaced(starts: seq<nat>, view: seq<seq<bool>>, view': seq<seq<bool>>, b: Buffer)
    requires SameShape(view, view') && Placed(starts, view, b)
    ensures Placed(starts, view', b)
  {
    hide SameShape, BackedAt;
    forall k | 0 <= k < |b.where|
      ensures BackedAt(starts, view', b.addrs[k], b.where[k], b.size)
    {
      StandsInShape(starts, view, view', b.addrs[k], b.where[k], b.size);
    }
  }

  lemma ReleaseKeeps(starts: seq<nat>, before: seq<seq<bool>>, s: State, i: nat, s': State)
    requires BitsInv(starts, before, s) && Step(starts, s, Release(i), s')
    ensures BitsInv(starts, before, s')
  {
    hide LiveSlots, Busy, SameShape, Placed, Owned, Apart;
    ShapeTrans(before, s.space.view, s'.space.view);
    OwnedWithout(s.live, i);
    OwnedMember(s.live, i);
    forall k | 0 <= k < |s'.live|
      ensures Placed(starts, s'.space.view, s'.live[k])
    {
      StaysPlaced(starts, s.space.view, s'.space.view, s.live[if k < i then k else k + 1]);
    }
  }

  ghost predicate IsRun(starts: seq<nat>, states: seq<State>, ops: seq<Op>) {
    |states| == |ops| + 1 && forall i :: 0 <= i < |ops| ==> Step(starts, states[i], ops[i], states[i + 1])
  }

  /**
    Over every mix of tiler allocations and frees, from a heap in any condition: no two live buffers share a bit or
    an area, none has one that was in use before, and what is in use is exactly that and the buffers'.
   */
  lemma {:induction false} RunSafe(starts: seq<nat>, states: seq<State>, ops: seq<Op>, n: nat)
    requires IsRun(starts, states, ops) && states[0].live == []
    requires states[0].space.pins <= states[0].space.areas && n <= |ops|
    ensures Inv(starts, states[0], states[n])
  {
    hide Inv, Step;
    if n == 0 {
      NothingLive(starts, states[0]);
    } else {
      RunSafe(starts, states, ops, n - 1);
      StepKeeps(starts, states[0], states[n - 1], ops[n - 1], states[n]);
    }
  }

  lemma NothingLive(starts: seq<nat>, s: State)
    requires s.live == [] && s.space.pins <= s.space.areas
    ensures Inv(starts, s, s)
  {
  }

  lemma StepKeeps(starts: seq<nat>, before: State, s: State, op: Op, s': State)
    requires Inv(starts, before, s) && Step(starts, s, op, s')
    ensures Inv(starts, before, s')
  {
    hide AreasInv;
    AreasKept(starts, before, s, op, s');
    match op {
      case Allocate(b) => AllocateKeeps(starts, before.space.view, s, b, s');
      case Refuse =>
      case Release(i) => ReleaseKeeps(starts, before.space.view, s, i, s');
    }
  }

  /** When every buffer has been freed, in whatever order, pool and tiler are as they were in the beginning. */
  lemma AllFreedRestores(starts: seq<nat>, states: seq<State>, ops: seq<Op>, n: nat)
    requires IsRun(starts, states, ops) && states[0].space.pins <= states[0].space.areas && n <= |ops|
    requires states[0].live == [] && states[n].live == []
    ensures states[n] == states[0]
  {
    RunSafe(starts, states, ops, n);
    BusyDetermines(states[0].space.view, states[n].space.view);
  }
}
