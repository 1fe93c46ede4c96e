/**
  The two-level map counts of modules/ion/gpu/ion.c, the same for kernel and for dma mappings: a buffer counts
  the handles that map it, a handle counts its own maps, and the heap's map operation is in effect exactly
  while the buffer's count is not zero.
 */
module IonMaps {
  import opened IonRefs

  ghost function Mappers(handles: map<nat, Handle>, b: nat, m: Mode): set<nat> {
    set h | h in handles && handles[h].buffer == b && HandleCnt(handles[h], m) > 0
  }

  /** `live` are the buffers the heap currently keeps mapped. */
  ghost predicate MapsCounted(buffers: map<nat, Buffer>, handles: map<nat, Handle>, m: Mode, live: set<nat>) {
    && (forall b :: b in buffers ==> BufferCnt(buffers[b], m) == |Mappers(handles, b, m)|)
    && (forall b :: b in live <==> b in buffers && BufferCnt(buffers[b], m) > 0)
  }

  // ----- _ion_map and _ion_unmap -----

  /** A handle that maps a buffer makes its count positive: no BUG_ON on the count of a buffer can fire. */
  lemma MappedHandleMeansMappedBuffer(buffers: map<nat, Buffer>, handles: map<nat, Handle>, m: Mode, live: set<nat>,
                                      h: nat)
    requires MapsCounted(buffers, handles, m, live) && h in handles && handles[h].buffer in buffers
    requires HandleCnt(handles[h], m) > 0
    ensures BufferCnt(buffers[handles[h].buffer], m) > 0
  {
    assert h in Mappers(handles, handles[h].buffer, m);
  }

  lemma MappersUpdate(handles: map<nat, Handle>, m: Mode, h: nat, x: Handle, b: nat)
    requires h in handles && x.buffer == handles[h].buffer
    ensures var d := (if HandleCnt(x, m) > 0 then 1 else 0) - (if HandleCnt(handles[h], m) > 0 then 1 else 0);
      |Mappers(handles[h := x], b, m)| == |Mappers(handles, b, m)| + (if b == x.buffer then d else 0)
  {
    var was, now := Mappers(handles, b, m), Mappers(handles[h := x], b, m);
    if b == x.buffer {
      var rest := was - {h};
      assert was == if HandleCnt(handles[h], m) > 0 then rest + {h} else rest;
      assert now == if HandleCnt(x, m) > 0 then rest + {h} else rest;
    } else {
      assert now == was;
    }
  }

  /** Mapping once more through handle h: the heap maps exactly when nobody had the buffer mapped. */
  lemma MapKeeps(buffers: map<nat, Buffer>, handles: map<nat, Handle>, m: Mode, live: set<nat>, h: nat)
    requires MapsCounted(buffers, handles, m, live) && h in handles && handles[h].buffer in buffers
    ensures var b := handles[h].buffer;
      var bc, hc := BufferCnt(buffers[b], m), HandleCnt(handles[h], m);
      MapsCounted(buffers[b := WithBufferCnt(buffers[b], m, if hc == 0 then bc + 1 else bc)],
                  handles[h := WithHandleCnt(handles[h], m, hc + 1)], m, live + {b})
  {
    var b := handles[h].buffer;
    if HandleCnt(handles[h], m) > 0 {
      MappedHandleMeansMappedBuffer(buffers, handles, m, live, h);
    }
    MappersFrame(handles, m, h, WithHandleCnt(handles[h], m, HandleCnt(handles[h], m) + 1));
  }

  lemma MappersFrame(handles: map<nat, Handle>, m: Mode, h: nat, x: Handle)
    requires h in handles && x.buffer == handles[h].buffer
    ensures var d := (if HandleCnt(x, m) > 0 then 1 else 0) - (if HandleCnt(handles[h], m) > 0 then 1 else 0);
      forall b :: |Mappers(handles[h := x], b, m)| == |Mappers(handles, b, m)| + (if b == x.buffer then d else 0)
  {
    forall b: nat
      ensures var d := (if HandleCnt(x, m) > 0 then 1 else 0) - (if HandleCnt(handles[h], m) > 0 then 1 else 0);
        |Mappers(handles[h := x], b, m)| == |Mappers(handles, b, m)| + (if b == x.buffer then d else 0)
    {
      MappersUpdate(handles, m, h, x, b);
    }
  }

  /** Unmapping once: the heap unmaps exactly when the buffer's count returns to zero. */
  lemma UnmapKeeps(buffers: map<nat, Buffer>, handles: map<nat, Handle>, m: Mode, live: set<nat>, h: nat)
    requires MapsCounted(buffers, handles, m, live) && h in handles && handles[h].buffer in buffers
    requires HandleCnt(handles[h], m) > 0
    ensures var b := handles[h].buffer;
      var bc, hc := BufferCnt(buffers[b], m), HandleCnt(handles[h], m);
      bc > 0 &&
      var bc': nat := if hc == 1 then bc - 1 else bc;
      MapsCounted(buffers[b := WithBufferCnt(buffers[b], m, bc')],
        handles[h := WithHandleCnt(handles[h], m, hc - 1)], m,
                  if bc' == 0 then live - {b} else live)
  {
    MappedHandleMeansMappedBuffer(buffers, handles, m, live, h);
    MappersFrame(handles, m, h, WithHandleCnt(handles[h], m, HandleCnt(handles[h], m) - 1));
  }

  // ----- other changes -----

  /** Changes of krefs do not touch the map counts. */
  lemma BufferKrefKeeps(buffers: map<nat, Buffer>, handles: map<nat, Handle>, m: Mode, live: set<nat>, b: nat,
                        x: Buffer)
    requires MapsCounted(buffers, handles, m, live) && b in buffers && BufferCnt(x, m) == BufferCnt(buffers[b], m)
    ensures MapsCounted(buffers[b := x], handles, m, live)
  {
  }

  lemma HandleKrefKeeps(buffers: map<nat, Buffer>, handles: map<nat, Handle>, m: Mode, live: set<nat>, h: nat,
                        x: Handle)
    requires MapsCounted(buffers, handles, m, live) && h in handles
    requires x.buffer == handles[h].buffer && HandleCnt(x, m) == HandleCnt(handles[h], m)
    ensures MapsCounted(buffers, handles[h := x], m, live)
  {
    MappersFrame(handles, m, h, x);
  }

  lemma NewBufferUnmapped(buffers: map<nat, Buffer>, handles: map<nat, Handle>, m: Mode, live: set<nat>, b: nat)
    requires MapsCounted(buffers, handles, m, live) && b !in buffers && forall h :: h in handles ==>
      handles[h].buffer in buffers
    ensures MapsCounted(buffers[b := Buffer(1, 0, 0)], handles, m, live)
  {
    assert Mappers(handles, b, m) == {};
  }

  lemma NewHandleUnmapped(buffers: map<nat, Buffer>, handles: map<nat, Handle>, m: Mode, live: set<nat>, h: nat, c: nat,
                          b: nat)
    requires MapsCounted(buffers, handles, m, live) && h !in handles
    ensures MapsCounted(buffers, handles[h := Handle(1, c, b, 0, 0)], m, live)
  {
    forall x: nat
      ensures Mappers(handles[h := Handle(1, c, b, 0, 0)], x, m) == Mappers(handles, x, m)
    {
    }
  }

  /** A buffer without handles is not mapped, so freeing it leaves no mapping behind. */
  lemma BufferGoneUnmapped(buffers: map<nat, Buffer>, handles: map<nat, Handle>, m: Mode, live: set<nat>, b: nat)
    requires MapsCounted(buffers, handles, m, live) && b in buffers && forall h :: h in handles ==>
      handles[h].buffer != b
    ensures MapsCounted(buffers - {b}, handles, m, live)
  {
    assert Mappers(handles, b, m) == {};
  }

  lemma MappersWithout(handles: map<nat, Handle>, m: Mode, h: nat)
    requires h in handles
    ensures var d := if HandleCnt(handles[h], m) > 0 then 1 else 0;
      forall b :: |Mappers(handles - {h}, b, m)| == |Mappers(handles, b, m)| - (if b == handles[h].buffer then d else 0)
  {
    forall b: nat
      ensures var d := if HandleCnt(handles[h], m) > 0 then 1 else 0;
        |Mappers(handles - {h}, b, m)| == |Mappers(handles, b, m)| - (if b == handles[h].buffer then d else 0)
    {
      if b == handles[h].buffer && HandleCnt(handles[h], m) > 0 {
        assert Mappers(handles, b, m) == Mappers(handles - {h}, b, m) + {h};
      } else {
        assert Mappers(handles - {h}, b, m) == Mappers(handles, b, m);
      }
    }
  }

  lemma UnmappedHandleGone(buffers: map<nat, Buffer>, handles: map<nat, Handle>, m: Mode, live: set<nat>, h: nat)
    requires MapsCounted(buffers, handles, m, live) && h in handles && HandleCnt(handles[h], m) == 0
    ensures MapsCounted(buffers, handles - {h}, m, live)
  {
    hide Mappers;
    MappersWithout(handles, m, h);
  }

  lemma MappedHandleGone(buffers: map<nat, Buffer>, handles: map<nat, Handle>, m: Mode, live: set<nat>, h: nat,
                         buffers': map<nat, Buffer>)
    requires MapsCounted(buffers, handles, m, live) && h in handles
    requires handles[h].buffer in buffers && HandleCnt(handles[h], m) > 0
    requires handles[h].buffer in buffers' ==>
      BufferCnt(buffers'[handles[h].buffer], m) == BufferCnt(buffers[handles[h].buffer], m)
    ensures !MapsCounted(buffers', handles - {h}, m, live)
  {
    MappedHandleMeansMappedBuffer(buffers, handles, m, live, h);
    MappersWithout(handles, m, h);
    var b := handles[h].buffer;
    assert |Mappers(handles - {h}, b, m)| == |Mappers(handles, b, m)| - 1;
  }

  /**
    The question left open in ion_handle_destroy -- may a handle be destroyed while it is mapped -- has an
    exact answer: the map counts stay right if and only if it is not.
   */
  lemma DestroyKeepsMapsIffUnmapped(s: State, h: nat, m: Mode, live: set<nat>)
    requires RefInv(s) && MapsCounted(s.buffers, s.handles, m, live)
    requires h in s.handles && s.handles[h].buffer in s.buffers
    ensures var t := HandleDestroy(s, h);
      MapsCounted(t.buffers, t.handles, m, live) <==> HandleCnt(s.handles[h], m) == 0
  {
    hide MapsCounted, RefInv;
    var b := s.handles[h].buffer;
    var t := HandleDestroy(s, h);
    if HandleCnt(s.handles[h], m) > 0 {
      MappedHandleGone(s.buffers, s.handles, m, live, h, t.buffers);
    } else {
      UnmappedHandleGone(s.buffers, s.handles, m, live, h);
      if s.buffers[b].ref <= 1 {
        OnlyHandle(s, h);
        BufferGoneUnmapped(s.buffers, s.handles - {h}, m, live, b);
      } else {
        BufferKrefKeeps(s.buffers, s.handles - {h}, m, live, b, s.buffers[b].(ref := s.buffers[b].ref - 1));
      }
    }
  }

  lemma OnlyHandle(s: State, h: nat)
    requires RefInv(s) && h in s.handles && s.handles[h].buffer in s.buffers && s.buffers[s.handles[h].buffer].ref <= 1
    ensures forall k :: k in s.handles && s.handles[k].buffer == s.handles[h].buffer ==> k == h
  {
    var b := s.handles[h].buffer;
    var hs := HandlesOf(s.handles, b);
    assert h in hs && |hs| <= 1;
    assert |hs - {h}| == |hs| - 1;
    assert hs - {h} == {};
    forall k | k in s.handles && s.handles[k].buffer == b
      ensures k == h
    {
      assert k in hs && k !in hs - {h};
    }
  }

  // ----- every elementary step -----

  /** The step destroys no handle that is still mapped. */
  predicate SparesMapped(s: State, p: Step, m: Mode) {
    match p
    case PutHandle(h) => h in s.handles && s.handles[h].ref <= 1 ==> HandleCnt(s.handles[h], m) == 0
    case DestroyHandleOf(h) => h in s.handles ==> HandleCnt(s.handles[h], m) == 0
    case _ => true
  }

  /**
    What the heap keeps mapped after the step: its map and unmap operations run when the buffer's count leaves
    and reaches zero.
   */
  function LiveAfter(s: State, p: Step, m: Mode, live: set<nat>): set<nat> {
    match p
    case CountMap(h, m') =>
      if m' == m && h in s.handles then live + {s.handles[h].buffer} else live
    case CountUnmap(h, m') =>
      if m' == m && h in s.handles && s.handles[h].buffer in s.buffers && HandleCnt(s.handles[h], m) == 1
         && BufferCnt(s.buffers[s.handles[h].buffer], m) == 1
      then live - {s.handles[h].buffer} else live
    case _ => live
  }

  lemma LinksAlive(s: State)
    requires RefInv(s)
    ensures forall h :: h in s.handles ==> s.handles[h].buffer in s.buffers && s.handles[h].client in s.clients
    ensures forall b :: b in s.buffers ==> b in s.born
    ensures forall b :: b in s.heldB ==> b in s.buffers
  {
  }

  lemma LastPutHasNoHandle(s: State, b: nat)
    requires RefInv(s) && b in s.heldB && b in s.buffers && s.buffers[b].ref <= 1
    ensures forall h :: h in s.handles ==> s.handles[h].buffer != b
  {
    assert |HandlesOf(s.handles, b)| == 0;
    assert forall h :: h in s.handles ==> h !in HandlesOf(s.handles, b);
  }

  lemma BufferStepKeepsMaps(s: State, p: Step, m: Mode, live: set<nat>)
    requires RefInv(s) && MapsCounted(s.buffers, s.handles, m, live)
    requires Enabled(s, p) && SparesMapped(s, p, m)
    requires p.NewBuffer? || p.GetBuffer? || p.PutBuffer?
    ensures var t := Apply(s, p); MapsCounted(t.buffers, t.handles, m, LiveAfter(s, p, m, live))
  {
    hide MapsCounted, RefInv;
    LinksAlive(s);
    match p
    case NewBuffer(b) =>
      NewBufferUnmapped(s.buffers, s.handles, m, live, b);
    case GetBuffer(b) =>
      BufferKrefKeeps(s.buffers, s.handles, m, live, b, s.buffers[b].(ref := s.buffers[b].ref + 1));
    case PutBuffer(b) =>
      if s.buffers[b].ref <= 1 {
        LastPutHasNoHandle(s, b);
        BufferGoneUnmapped(s.buffers, s.handles, m, live, b);
      } else {
        BufferKrefKeeps(s.buffers, s.handles, m, live, b, s.buffers[b].(ref := s.buffers[b].ref - 1));
      }
  }

  lemma HandleStepKeepsMaps(s: State, p: Step, m: Mode, live: set<nat>)
    requires RefInv(s) && MapsCounted(s.buffers, s.handles, m, live)
    requires Enabled(s, p) && SparesMapped(s, p, m)
    requires p.NewHandle? || p.GetHandle? || p.PutHandle? || p.DestroyHandleOf?
    ensures var t := Apply(s, p); MapsCounted(t.buffers, t.handles, m, LiveAfter(s, p, m, live))
  {
    hide MapsCounted, RefInv;
    match p
    case NewHandle(h, c, b) =>
      NewHandleUnmapped(s.buffers, s.handles, m, live, h, c, b);
    case GetHandle(h) =>
      HandleKrefKeeps(s.buffers, s.handles, m, live, h, s.handles[h].(ref := s.handles[h].ref + 1));
    case PutHandle(h) =>
      if s.handles[h].ref <= 1 {
        DestroyKeepsMapsIffUnmapped(s, h, m, live);
      } else {
        HandleKrefKeeps(s.buffers, s.handles, m, live, h, s.handles[h].(ref := s.handles[h].ref - 1));
      }
    case DestroyHandleOf(h) =>
      DestroyKeepsMapsIffUnmapped(s, h, m, live);
  }

  lemma CountStepKeepsMaps(s: State, p: Step, m: Mode, live: set<nat>)
    requires RefInv(s) && MapsCounted(s.buffers, s.handles, m, live)
    requires Enabled(s, p) && SparesMapped(s, p, m)
    requires p.CountMap? || p.CountUnmap?
    ensures var t := Apply(s, p); MapsCounted(t.buffers, t.handles, m, LiveAfter(s, p, m, live))
  {
    hide MapsCounted, RefInv;
    match p
    case CountMap(h, m') =>
      if m' == m {
        MapKeeps(s.buffers, s.handles, m, live, h);
      } else {
        OtherModeMap(s, h, m, m', live);
      }
    case CountUnmap(h, m') =>
      if m' == m {
        UnmapKeeps(s.buffers, s.handles, m, live, h);
      } else {
        OtherModeUnmap(s, h, m, m', live);
      }
  }

  /** Every step that spares mapped handles keeps the map counts right. */
  lemma StepKeepsMaps(s: State, p: Step, m: Mode, live: set<nat>)
    requires RefInv(s) && MapsCounted(s.buffers, s.handles, m, live)
    requires Enabled(s, p) && SparesMapped(s, p, m)
    ensures var t := Apply(s, p); MapsCounted(t.buffers, t.handles, m, LiveAfter(s, p, m, live))
  {
    hide MapsCounted, RefInv;
    match p
    case NewBuffer(_) | GetBuffer(_) | PutBuffer(_) => BufferStepKeepsMaps(s, p, m, live);
    case NewHandle(_, _, _) | GetHandle(_) | PutHandle(_) | DestroyHandleOf(_) => HandleStepKeepsMaps(s, p, m, live);
    case CountMap(_, _) | CountUnmap(_, _) => CountStepKeepsMaps(s, p, m, live);
    case _ =>
  }

  lemma OtherModeMap(s: State, h: nat, m: Mode, m': Mode, live: set<nat>)
    requires MapsCounted(s.buffers, s.handles, m, live) && m' != m && h in s.handles && s.handles[h].buffer in s.buffers
    ensures var t := MapCounted(s, h, m'); MapsCounted(t.buffers, t.handles, m, live)
  {
    hide MapsCounted;
    var b, t := s.handles[h].buffer, MapCounted(s, h, m');
    BufferKrefKeeps(s.buffers, s.handles, m, live, b, t.buffers[b]);
    HandleKrefKeeps(t.buffers, s.handles, m, live, h, t.handles[h]);
  }

  lemma OtherModeUnmap(s: State, h: nat, m: Mode, m': Mode, live: set<nat>)
    requires MapsCounted(s.buffers, s.handles, m, live) && m' != m && h in s.handles && s.handles[h].buffer in s.buffers
    requires HandleCnt(s.handles[h], m') > 0 && BufferCnt(s.buffers[s.handles[h].buffer], m') > 0
    ensures var t := UnmapCounted(s, h, m'); MapsCounted(t.buffers, t.handles, m, live)
  {
    hide MapsCounted;
    var b, t := s.handles[h].buffer, UnmapCounted(s, h, m');
    BufferKrefKeeps(s.buffers, s.handles, m, live, b, t.buffers[b]);
    HandleKrefKeeps(t.buffers, s.handles, m, live, h, t.handles[h]);
  }
}
