/**
  The map counts of modules/ion/gpu/ion.c over whole runs, for either mode: they stay right as long as no
  mapped handle is destroyed and no longer, and meanwhile the heap maps and unmaps each buffer in turn.
 */
module IonMapRuns {
  import opened IonRefs
  import opened IonRuns
  import opened IonMaps

  /** What the heap keeps mapped after n steps. */
  ghost function LiveAt(states: seq<State>, steps: seq<Step>, m: Mode, live: set<nat>, n: nat): set<nat>
    requires n <= |steps| < |states|
  {
    if n == 0 then live else LiveAfter(states[n - 1], steps[n - 1], m, LiveAt(states, steps, m, live, n - 1))
  }

  ghost predicate CountsRight(s: State, m: Mode, live: set<nat>) {
    MapsCounted(s.buffers, s.handles, m, live)
  }

  /** The map counts are right in the first n states after the start, too. */
  ghost predicate RightUntil(states: seq<State>, steps: seq<Step>, m: Mode, live: set<nat>, n: nat)
    requires n <= |steps| < |states|
  {
    forall i :: 0 <= i <= n ==> CountsRight(states[i], m, LiveAt(states, steps, m, live, i))
  }

  /** No mapped handle is destroyed in the first n steps. */
  predicate SparedUntil(states: seq<State>, steps: seq<Step>, m: Mode, n: nat)
    requires n <= |steps| < |states|
  {
    forall i :: 0 <= i < n ==> SparesMapped(states[i], steps[i], m)
  }

  lemma StepKeepsMapsIff(s: State, p: Step, m: Mode, live: set<nat>)
    requires RefInv(s) && CountsRight(s, m, live) && Enabled(s, p)
    ensures CountsRight(Apply(s, p), m, LiveAfter(s, p, m, live)) <==> SparesMapped(s, p, m)
  {
    hide MapsCounted, RefInv;
    if SparesMapped(s, p, m) {
      StepKeepsMaps(s, p, m, live);
    } else {
      match p
      case PutHandle(h) => DestroyKeepsMapsIffUnmapped(s, h, m, live);
      case DestroyHandleOf(h) => DestroyKeepsMapsIffUnmapped(s, h, m, live);
    }
  }

  /** Over every run: the map counts are right in every state if and only if every step spares the mapped handles. */
  lemma {:induction false} MapsRightIffSpared(states: seq<State>, steps: seq<Step>, m: Mode, live: set<nat>, n: nat)
    requires IsRun(states, steps) && RefInv(states[0]) && CountsRight(states[0], m, live) && n <= |steps|
    ensures RightUntil(states, steps, m, live, n) <==> SparedUntil(states, steps, m, n)
  {
    hide RefInv, CountsRight, Enabled, Apply, SparesMapped, LiveAfter;
    if n > 0 {
      MapsRightIffSpared(states, steps, m, live, n - 1);
      assert states[n] == Apply(states[n - 1], steps[n - 1]);
      if RightUntil(states, steps, m, live, n - 1) {
        RunSafe(states, steps, n - 1);
        StepKeepsMapsIff(states[n - 1], steps[n - 1], m, LiveAt(states, steps, m, live, n - 1));
      }
    }
  }

  /** In such a run whoever has a handle mapped may unmap it: no BUG_ON of _ion_unmap can fire. */
  lemma MappedMayUnmap(states: seq<State>, steps: seq<Step>, m: Mode, live: set<nat>, n: nat, h: nat)
    requires IsRun(states, steps) && RefInv(states[0]) && CountsRight(states[0], m, live) && n <= |steps|
    requires SparedUntil(states, steps, m, n) && h in states[n].handles && HandleCnt(states[n].handles[h], m) > 0
    ensures Enabled(states[n], CountUnmap(h, m))
  {
    hide RefInv, CountsRight, SparesMapped, Enabled, Apply, LiveAfter;
    MapsRightIffSpared(states, steps, m, live, n);
    RunSafe(states, steps, n);
    MayUnmap(states[n], m, LiveAt(states, steps, m, live, n), h);
  }

  lemma MayUnmap(s: State, m: Mode, live: set<nat>, h: nat)
    requires RefInv(s) && CountsRight(s, m, live) && h in s.handles && HandleCnt(s.handles[h], m) > 0
    ensures Enabled(s, CountUnmap(h, m))
  {
    hide RefInv, MapsCounted;
    LinksAlive(s);
    MappedHandleMeansMappedBuffer(s.buffers, s.handles, m, live, h);
  }

  // ----- the calls of the heap -----

  /** _ion_map returns true: map_kernel or map_dma of the heap is called for b. */
  predicate HeapMaps(s: State, p: Step, m: Mode, b: nat) {
    && (p.CountMap? || p.FailMap?) && p.m == m && p.h in s.handles && s.handles[p.h].buffer == b
    && b in s.buffers && BufferCnt(s.buffers[b], m) == 0
  }

  /** The call fails. ion.c then takes both counts back without a call to the heap. */
  predicate HeapFails(s: State, p: Step, m: Mode, b: nat) {
    p.FailMap? && HeapMaps(s, p, m, b)
  }

  /** _ion_unmap returns true: unmap_kernel or unmap_dma of the heap is called for b. */
  predicate HeapUnmaps(s: State, p: Step, m: Mode, b: nat) {
    && p.CountUnmap? && p.m == m && p.h in s.handles && s.handles[p.h].buffer == b
    && b in s.buffers && HandleCnt(s.handles[p.h], m) == 1 && BufferCnt(s.buffers[b], m) == 1
  }

  function MapCalls(states: seq<State>, steps: seq<Step>, m: Mode, b: nat, n: nat): nat
    requires n <= |steps| < |states|
  {
    if n == 0 then 0
    else MapCalls(states, steps, m, b, n - 1) + if HeapMaps(states[n - 1], steps[n - 1], m, b) then 1 else 0
  }

  function UnmapCalls(states: seq<State>, steps: seq<Step>, m: Mode, b: nat, n: nat): nat
    requires n <= |steps| < |states|
  {
    if n == 0 then 0
    else UnmapCalls(states, steps, m, b, n - 1) + if HeapUnmaps(states[n - 1], steps[n - 1], m, b) then 1 else 0
  }

  function FailedCalls(states: seq<State>, steps: seq<Step>, m: Mode, b: nat, n: nat): nat
    requires n <= |steps| < |states|
  {
    if n == 0 then 0
    else FailedCalls(states, steps, m, b, n - 1) + if HeapFails(states[n - 1], steps[n - 1], m, b) then 1 else 0
  }

  predicate InUse(s: State, m: Mode, b: nat) {
    b in s.buffers && BufferCnt(s.buffers[b], m) > 0
  }

  lemma FailChangesNothing(s: State, p: Step)
    requires Enabled(s, p) && p.FailMap?
    ensures Apply(s, p) == s
  {
  }

  /**
    The heap is asked to map a buffer exactly when its first mapping comes, or would come but for the failure,
    and to unmap it exactly when the last one goes.
   */
  lemma HeapCalledExactly(s: State, p: Step, m: Mode, live: set<nat>, b: nat)
    requires RefInv(s) && CountsRight(s, m, live) && Enabled(s, p) && SparesMapped(s, p, m)
    ensures HeapMaps(s, p, m, b) <==> (!InUse(s, m, b) && InUse(Apply(s, p), m, b)) || HeapFails(s, p, m, b)
    ensures HeapFails(s, p, m, b) ==> Apply(s, p) == s && !InUse(s, m, b)
    ensures HeapUnmaps(s, p, m, b) <==> InUse(s, m, b) && !InUse(Apply(s, p), m, b)
  {
    hide MapsCounted, RefInv, Apply, Enabled, SparesMapped;
    StepKeepsMaps(s, p, m, live);
    InUseIsLive(s, m, live, b);
    InUseIsLive(Apply(s, p), m, LiveAfter(s, p, m, live), b);
    LinksAlive(s);
    if p.FailMap? {
      FailChangesNothing(s, p);
    }
    assert b in live <==> b in s.buffers && BufferCnt(s.buffers[b], m) > 0;
  }

  lemma InUseIsLive(s: State, m: Mode, live: set<nat>, b: nat)
    requires CountsRight(s, m, live)
    ensures InUse(s, m, b) <==> b in live
  {
  }

  /**
    Conservation over every run that starts with nothing mapped: each call that maps a buffer fails, or is undone
    by one unmap, or is the one in use. A buffer that is gone was unmapped as often as it was mapped.
   */
  lemma {:induction false} HeapBalanced(states: seq<State>, steps: seq<Step>, m: Mode, b: nat, n: nat)
    requires IsRun(states, steps) && RefInv(states[0]) && CountsRight(states[0], m, {}) && n <= |steps|
    requires SparedUntil(states, steps, m, n)
    ensures MapCalls(states, steps, m, b, n) ==
      UnmapCalls(states, steps, m, b, n) + FailedCalls(states, steps, m, b, n) + if InUse(states[n], m, b) then 1 else 0
  {
    hide RefInv, CountsRight, Enabled, Apply, SparesMapped, HeapMaps, HeapUnmaps, HeapFails, InUse, LiveAfter;
    if n == 0 {
      InUseIsLive(states[0], m, {}, b);
    } else {
      HeapBalanced(states, steps, m, b, n - 1);
      MapsRightIffSpared(states, steps, m, {}, n - 1);
      RunSafe(states, steps, n - 1);
      HeapCalledExactly(states[n - 1], steps[n - 1], m, LiveAt(states, steps, m, {}, n - 1), b);
    }
  }
}
