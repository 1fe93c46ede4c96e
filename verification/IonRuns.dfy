/** Every elementary step of ion.c keeps the reference counts exact, and so does every interleaving of steps. */
module IonRuns {
  import opened IonRefs

  lemma BufferPutKeeps(s: State, b: nat)
    requires RefInv(s) && b in s.heldB && b in s.buffers
    ensures RefInv(BufferPut(s, b).(heldB := s.heldB - multiset{b}))
  {
    hide BuffersCounted, HandlesCounted, ClientsCounted, OneHandlePerBuffer, OneClientPerTask, FreedOnce;
    if s.buffers[b].ref > 1 {
      BufferPutDown(s.buffers, s.handles, s.files, s.heldB, b);
      FreedSame(s.buffers, s.born, s.freed, b, s.buffers[b].(ref := s.buffers[b].ref - 1));
    } else {
      BufferLastPut(s.buffers, s.handles, s.files, s.heldB, b);
      FreedNow(s.buffers, s.born, s.freed, b);
    }
  }

  lemma HandleDestroyKeeps(s: State, h: nat, taken': multiset<nat>, heldH': multiset<nat>)
    requires RefInv(s) && h in s.handles && s.handles[h].buffer in s.buffers
    requires HandlesCounted(s.handles - {h}, taken', s.vmas, heldH') && forall v :: v in s.vmas ==> s.vmas[v] != h
    ensures RefInv(HandleDestroy(s, h).(taken := taken', heldH := heldH'))
  {
    hide BuffersCounted, HandlesCounted, ClientsCounted, OneHandlePerBuffer, OneClientPerTask, FreedOnce;
    var b, handles := s.handles[h].buffer, s.handles - {h};
    BufferHandleGone(s.buffers, s.handles, s.files, s.heldB, h);
    assert s.heldB + multiset{b} - multiset{b} == s.heldB;
    if s.buffers[b].ref > 1 {
      BufferPutDown(s.buffers, handles, s.files, s.heldB + multiset{b}, b);
      FreedSame(s.buffers, s.born, s.freed, b, s.buffers[b].(ref := s.buffers[b].ref - 1));
    } else {
      BufferLastPut(s.buffers, handles, s.files, s.heldB + multiset{b}, b);
      FreedNow(s.buffers, s.born, s.freed, b);
    }
    ClientHandleGone(s.clients, s.handles, s.vmas, s.opens, s.heldC, h);
    UniqueWithout(s.handles, h);
  }

  lemma PutHandleKeeps(s: State, h: nat)
    requires RefInv(s) && h in s.heldH && h in s.handles && s.handles[h].buffer in s.buffers
    ensures RefInv(HandlePut(s, h).(heldH := s.heldH - multiset{h}))
  {
    hide BuffersCounted, HandlesCounted, ClientsCounted, OneHandlePerBuffer, OneClientPerTask, FreedOnce;
    if s.handles[h].ref <= 1 {
      HandleLastPut(s.handles, s.taken, s.vmas, s.heldH, h);
      HandleDestroyKeeps(s, h, s.taken, s.heldH - multiset{h});
    } else {
      HandlePutDown(s.handles, s.taken, s.vmas, s.heldH, h);
      var x := s.handles[h].(ref := s.handles[h].ref - 1);
      BufferHandleSame(s.buffers, s.handles, s.files, s.heldB, h, x);
      ClientHandleStays(s, h);
      ClientHandlePut(s.clients, s.handles, s.vmas, s.opens, s.heldC, h, x);
      UniqueSame(s.handles, h, x);
    }
  }

  lemma VmaTargetsAlive(s: State)
    requires RefInv(s)
    ensures forall v :: v in s.vmas ==> s.vmas[v] in s.handles
  {
  }

  lemma ClientHandleStays(s: State, h: nat)
    requires RefInv(s) && h in s.handles
    ensures s.handles[h].client in s.clients && s.handles[h].buffer in s.buffers
  {
  }

  lemma NewHandleKeeps(s: State, h: nat, c: nat, b: nat)
    requires RefInv(s) && h !in s.handles && c in s.clients && b in s.heldB && NoHandleFor(s, c, b)
    ensures RefInv(s.(handles := s.handles[h := Handle(1, c, b, 0, 0)], heldB := s.heldB - multiset{b},
                      heldH := s.heldH + multiset{h}))
  {
    hide BuffersCounted, HandlesCounted, ClientsCounted, OneHandlePerBuffer, OneClientPerTask, FreedOnce;
    var x := Handle(1, c, b, 0, 0);
    BufferHandleNew(s.buffers, s.handles, s.files, s.heldB, h, x);
    HandleNew(s.handles, s.taken, s.vmas, s.heldH, h, x);
    UniqueNew(s.handles, h, x);
    VmaTargetsAlive(s);
    ClientHandlePut(s.clients, s.handles, s.vmas, s.opens, s.heldC, h, x);
  }

  lemma GetHandleKeeps(s: State, h: nat)
    requires RefInv(s) && h in s.handles
    ensures RefInv(s.(handles := s.handles[h := s.handles[h].(ref := s.handles[h].ref + 1)],
                      heldH := s.heldH + multiset{h}))
  {
    hide BuffersCounted, HandlesCounted, ClientsCounted, OneHandlePerBuffer, OneClientPerTask, FreedOnce;
    var x := s.handles[h].(ref := s.handles[h].ref + 1);
    HandleGet(s.handles, s.taken, s.vmas, s.heldH, h);
    UniqueSame(s.handles, h, x);
    BufferHandleSame(s.buffers, s.handles, s.files, s.heldB, h, x);
    ClientHandleStays(s, h);
    ClientHandlePut(s.clients, s.handles, s.vmas, s.opens, s.heldC, h, x);
  }

  lemma DestroyHandleOfKeeps(s: State, h: nat)
    requires RefInv(s) && h in s.handles && h !in s.heldH && s.handles[h].buffer in s.buffers
    requires s.handles[h].client in s.heldC && s.handles[h].client in s.clients
    requires s.clients[s.handles[h].client].ref == 1
    ensures RefInv(HandleDestroy(s, h).(taken := s.taken[h := 0]))
  {
    hide BuffersCounted, HandlesCounted, ClientsCounted, OneHandlePerBuffer, OneClientPerTask, FreedOnce;
    LastReferenceMeansNoMapping(s.clients, s.handles, s.vmas, s.opens, s.heldC, h);
    HandleForced(s.handles, s.taken, s.vmas, s.heldH, h);
    HandleDestroyKeeps(s, h, s.taken[h := 0], s.heldH);
  }

  /** Map counts are not references: changing them leaves every kref exact. */
  lemma RecountKeeps(s: State, h: nat, b: nat, x: Buffer, y: Handle)
    requires RefInv(s) && h in s.handles && s.handles[h].buffer == b && b in s.buffers
    requires x.ref == s.buffers[b].ref
    requires y.ref == s.handles[h].ref && y.client == s.handles[h].client && y.buffer == b
    ensures RefInv(s.(buffers := s.buffers[b := x], handles := s.handles[h := y]))
  {
    hide BuffersCounted, HandlesCounted, ClientsCounted, OneHandlePerBuffer, OneClientPerTask, FreedOnce;
    BufferSameRef(s.buffers, s.handles, s.files, s.heldB, b, x);
    BufferHandleSame(s.buffers[b := x], s.handles, s.files, s.heldB, h, y);
    HandleSameRef(s.handles, s.taken, s.vmas, s.heldH, h, y);
    ClientHandleStays(s, h);
    ClientHandlePut(s.clients, s.handles, s.vmas, s.opens, s.heldC, h, y);
    UniqueSame(s.handles, h, y);
    FreedSame(s.buffers, s.born, s.freed, b, x);
  }

  lemma RefsPositive(s: State)
    requires RefInv(s)
    ensures forall b :: b in s.buffers ==> s.buffers[b].ref > 0
    ensures forall h :: h in s.handles ==> s.handles[h].ref > 0
    ensures forall c :: c in s.clients ==> s.clients[c].ref > 0
  {
  }

  lemma AliveAreBorn(s: State)
    requires RefInv(s)
    ensures forall b :: b in s.buffers ==> b in s.born
  {
  }

  lemma BufferStepKeeps(s: State, p: Step)
    requires RefInv(s) && Enabled(s, p)
    requires p.NewBuffer? || p.GetBuffer? || p.PutBuffer? || p.FileTakes? || p.FileDrops?
    ensures RefInv(Apply(s, p))
  {
    hide BuffersCounted, HandlesCounted, ClientsCounted, OneHandlePerBuffer, OneClientPerTask, FreedOnce;
    match p
    case NewBuffer(b) =>
      AliveAreBorn(s);
      BufferNew(s.buffers, s.handles, s.files, s.heldB, b);
      FreedNew(s.buffers, s.born, s.freed, b, Buffer(1, 0, 0));
    case GetBuffer(b) =>
      BufferGet(s.buffers, s.handles, s.files, s.heldB, b);
      FreedSame(s.buffers, s.born, s.freed, b, s.buffers[b].(ref := s.buffers[b].ref + 1));
    case PutBuffer(b) =>
      BufferPutKeeps(s, b);
    case FileTakes(f, b) =>
      BufferFileTakes(s.buffers, s.handles, s.files, s.heldB, f, b);
    case FileDrops(f) =>
      BufferFileDrops(s.buffers, s.handles, s.files, s.heldB, f);
  }

  lemma HandleStepKeeps(s: State, p: Step)
    requires RefInv(s) && Enabled(s, p)
    requires p.NewHandle? || p.GetHandle? || p.PutHandle? || p.UserTakes? || p.UserDrops? || p.DestroyHandleOf?
    ensures RefInv(Apply(s, p))
  {
    hide BuffersCounted, HandlesCounted, ClientsCounted, OneHandlePerBuffer, OneClientPerTask, FreedOnce;
    match p
    case NewHandle(h, c, b) =>
      NewHandleKeeps(s, h, c, b);
    case GetHandle(h) =>
      GetHandleKeeps(s, h);
    case PutHandle(h) =>
      PutHandleKeeps(s, h);
    case UserTakes(h) =>
      HandleUser(s.handles, s.taken, s.vmas, s.heldH, h);
    case UserDrops(h) =>
      HandleUser(s.handles, s.taken, s.vmas, s.heldH, h);
    case DestroyHandleOf(h) =>
      DestroyHandleOfKeeps(s, h);
  }

  lemma MappingStepKeeps(s: State, p: Step)
    requires RefInv(s) && Enabled(s, p)
    requires p.VmaTakes? || p.VmaDrops? || p.CountMap? || p.CountUnmap? || p.FailMap?
    ensures RefInv(Apply(s, p))
  {
    hide BuffersCounted, HandlesCounted, ClientsCounted, OneHandlePerBuffer, OneClientPerTask, FreedOnce;
    match p
    case VmaTakes(v, h) =>
      HandleVmaTakes(s.handles, s.taken, s.vmas, s.heldH, v, h);
      ClientVmaTakes(s.clients, s.handles, s.vmas, s.opens, s.heldC, v, h);
    case VmaDrops(v) =>
      HandleVmaDrops(s.handles, s.taken, s.vmas, s.heldH, v);
      ClientVmaDrops(s.clients, s.handles, s.vmas, s.opens, s.heldC, v);
    case CountMap(h, m) =>
      var t := MapCounted(s, h, m);
      RecountKeeps(s, h, s.handles[h].buffer, t.buffers[s.handles[h].buffer], t.handles[h]);
    case CountUnmap(h, m) =>
      var t := UnmapCounted(s, h, m);
      RecountKeeps(s, h, s.handles[h].buffer, t.buffers[s.handles[h].buffer], t.handles[h]);
    case FailMap(_, _) =>
  }

  lemma ClientStepKeeps(s: State, p: Step)
    requires RefInv(s) && Enabled(s, p)
    requires p.NewClient? || p.GetClient? || p.PutClient? || p.DropClient? || p.OpenTakes? || p.OpenDrops?
    ensures RefInv(Apply(s, p))
  {
    hide BuffersCounted, HandlesCounted, ClientsCounted, OneHandlePerBuffer, OneClientPerTask, FreedOnce;
    match p
    case NewClient(c, task) =>
      ClientNew(s.clients, s.handles, s.vmas, s.opens, s.heldC, c, Client(1, task));
      TaskNew(s.clients, c, Client(1, task));
    case GetClient(c) =>
      ClientGet(s.clients, s.handles, s.vmas, s.opens, s.heldC, c);
      TaskSame(s.clients, c, s.clients[c].(ref := s.clients[c].ref + 1));
    case PutClient(c) =>
      ClientPutDown(s.clients, s.handles, s.vmas, s.opens, s.heldC, c);
      TaskSame(s.clients, c, s.clients[c].(ref := s.clients[c].ref - 1));
    case DropClient(c) =>
      ClientDrop(s.clients, s.handles, s.vmas, s.opens, s.heldC, c);
      TaskWithout(s.clients, c);
    case OpenTakes(o, c) =>
      ClientOpenTakes(s.clients, s.handles, s.vmas, s.opens, s.heldC, o, c);
    case OpenDrops(o) =>
      ClientOpenDrops(s.clients, s.handles, s.vmas, s.opens, s.heldC, o);
  }

  /** One step keeps every kref equal to the number of its holders. */
  lemma StepKeeps(s: State, p: Step)
    requires RefInv(s) && Enabled(s, p)
    ensures RefInv(Apply(s, p))
  {
    hide RefInv, Enabled, Apply;
    match p
    case NewBuffer(_) | GetBuffer(_) | PutBuffer(_) | FileTakes(_, _) | FileDrops(_) => BufferStepKeeps(s, p);
    case NewHandle(_, _, _) | GetHandle(_) | PutHandle(_) | UserTakes(_) | UserDrops(_) | DestroyHandleOf(_) =>
      HandleStepKeeps(s, p);
    case VmaTakes(_, _) | VmaDrops(_) | CountMap(_, _) | CountUnmap(_, _) | FailMap(_, _) => MappingStepKeeps(s, p);
    case NewClient(_, _) | GetClient(_) | PutClient(_) | DropClient(_) | OpenTakes(_, _) | OpenDrops(_) =>
      ClientStepKeeps(s, p);
  }

  ghost predicate IsRun(states: seq<State>, steps: seq<Step>) {
    && |states| == |steps| + 1
    && forall i :: 0 <= i < |steps| ==> Enabled(states[i], steps[i]) && states[i + 1] == Apply(states[i], steps[i])
  }

  /**
    Every interleaving of the elementary steps of any number of calls: krefs stay exact, nothing dangles,
    and no buffer is freed twice or while referenced. A final put is atomic with the destruction it triggers:
    the last put of a buffer or handle is one step with its destroy function, and a client keeps its last
    reference on the ledger until its handles are gone, where in the source its kref is already 0. The search for
    a task's client and the insertion of a new one are atomic too, while ion_client_create unlocks the device
    between them.
   */
  lemma {:induction false} RunSafe(states: seq<State>, steps: seq<Step>, n: nat)
    requires IsRun(states, steps) && RefInv(states[0]) && n <= |steps|
    ensures RefInv(states[n])
  {
    hide RefInv, Apply, Enabled;
    if n > 0 {
      RunSafe(states, steps, n - 1);
      StepKeeps(states[n - 1], steps[n - 1]);
    }
  }

  function Initial(): State {
    State(map[], map[], map[], map[], map[], map[], multiset{}, multiset{}, multiset{}, multiset{}, {}, multiset{})
  }

  /** From the empty device: when the last user, file, mapping and call are gone, every buffer has been freed once. */
  lemma AllFreedAtTheEnd(states: seq<State>, steps: seq<Step>, n: nat)
    requires IsRun(states, steps) && states[0] == Initial() && n <= |steps|
    requires var s := states[n];
      s.files == map[] && s.vmas == map[] && s.taken == multiset{} && s.heldB == multiset{} && s.heldH == multiset{}
    ensures states[n].handles == map[] && states[n].buffers == map[]
    ensures forall b :: b in states[n].born ==> states[n].freed[b] == 1
  {
    InitialHolds();
    RunSafe(states, steps, n);
    var s := states[n];
    assert forall h :: h in s.handles ==> KeysOf(s.vmas, h) == {};
    assert s.handles == map[];
    assert forall b :: b in s.buffers ==> HandlesOf(s.handles, b) == {} && KeysOf(s.files, b) == {};
    assert s.buffers == map[];
  }

  lemma InitialHolds()
    ensures RefInv(Initial())
  {
  }
}
